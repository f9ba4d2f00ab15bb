/**
 * The order in which `Object.keys` lists the own string keys of a plain object
 * (ECMAScript, the abstract operation OrdinaryOwnPropertyKeys): first every key
 * that is an array index, in ascending numeric order, then every other key in
 * the order it was first created.
 */
module ObjectKeyOrder {

  predicate IsDigit(c: char) {
    '0' <= c <= '9'
  }

  predicate AllDigits(s: string) {
    forall i | 0 <= i < |s| :: IsDigit(s[i])
  }

  /** The number a string of decimal digits denotes. */
  function DecimalValue(s: string): nat
    requires AllDigits(s)
  {
    if s == [] then 0
    else 10 * DecimalValue(s[..|s| - 1]) + (s[|s| - 1] as int - '0' as int)
  }

  /** The largest array index, 2^32 - 2. */
  const MaxArrayIndex: nat := 0xFFFF_FFFE

  /**
   * `k` is an array index: the canonical decimal form (no sign, no leading zero)
   * of an integer from 0 to 2^32 - 2.
   */
  predicate IsArrayIndex(k: string) {
    && |k| > 0
    && AllDigits(k)
    && (k[0] == '0' ==> |k| == 1)
    && DecimalValue(k) <= MaxArrayIndex
  }

  predicate AllArrayIndices(s: seq<string>) {
    forall i | 0 <= i < |s| :: IsArrayIndex(s[i])
  }

  /** Array-index keys in ascending numeric order: each is at most the next. */
  predicate Ascending(s: seq<string>) {
    && AllArrayIndices(s)
    && forall i | 0 <= i < |s| - 1 :: DecimalValue(s[i]) <= DecimalValue(s[i + 1])
  }

  /** The array-index keys of `keys`, in their order in `keys`. */
  function IndexKeys(keys: seq<string>): (r: seq<string>)
    ensures AllArrayIndices(r)
  {
    if keys == [] then []
    else (if IsArrayIndex(keys[0]) then [keys[0]] else []) + IndexKeys(keys[1..])
  }

  /** The keys of `keys` that are not array indices, in their order in `keys`. */
  function NamedKeys(keys: seq<string>): (r: seq<string>)
    ensures forall i | 0 <= i < |r| :: !IsArrayIndex(r[i])
  {
    if keys == [] then []
    else (if IsArrayIndex(keys[0]) then [] else [keys[0]]) + NamedKeys(keys[1..])
  }

  /** Places the array index `k` into the ascending sequence `s`. */
  function InsertByIndex(k: string, s: seq<string>): (r: seq<string>)
    requires IsArrayIndex(k) && Ascending(s)
    ensures Ascending(r)
    ensures multiset(r) == multiset(s) + multiset{k}
    ensures |r| == |s| + 1 && (r[0] == k || (s != [] && r[0] == s[0]))
  {
    if s == [] || DecimalValue(k) <= DecimalValue(s[0]) then [k] + s
    else
      var rest := InsertByIndex(k, s[1..]);
      assert s == [s[0]] + s[1..];
      [s[0]] + rest
  }

  /** Sorts array-index keys into ascending numeric order. */
  function SortByIndex(s: seq<string>): (r: seq<string>)
    requires AllArrayIndices(s)
    ensures Ascending(r)
    ensures multiset(r) == multiset(s) && |r| == |s|
  {
    if s == [] then []
    else
      assert s == [s[0]] + s[1..];
      InsertByIndex(s[0], SortByIndex(s[1..]))
  }

  lemma {:induction false} SplitKeysPermutation(keys: seq<string>)
    ensures multiset(IndexKeys(keys)) + multiset(NamedKeys(keys)) == multiset(keys)
  {
    if keys != [] {
      SplitKeysPermutation(keys[1..]);
      assert keys == [keys[0]] + keys[1..];
    }
  }

  /**
   * `Object.keys` of a plain object whose own keys were created in the order
   * `keys`. It lists every own key exactly once.
   */
  function ObjectKeys(keys: seq<string>): (r: seq<string>)
    ensures multiset(r) == multiset(keys) && |r| == |keys|
    ensures forall k :: k in r <==> k in keys
  {
    SplitKeysPermutation(keys);
    var r := SortByIndex(IndexKeys(keys)) + NamedKeys(keys);
    assert forall k :: k in r <==> k in multiset(keys);
    r
  }

  /**
   * The shape of `Object.keys`: a run of array-index keys in ascending numeric
   * order, followed by the remaining keys in creation order.
   */
  lemma ObjectKeysLayout(keys: seq<string>)
    ensures var r := ObjectKeys(keys); var n := |IndexKeys(keys)|;
      && n <= |r|
      && Ascending(r[..n])
      && multiset(r[..n]) == multiset(IndexKeys(keys))
      && r[n..] == NamedKeys(keys)
      && forall i | n <= i < |r| :: !IsArrayIndex(r[i])
  {
    var r := ObjectKeys(keys);
    var sorted := SortByIndex(IndexKeys(keys));
    assert r == sorted + NamedKeys(keys);
    assert r[..|sorted|] == sorted;
  }

  /** With no array-index key among them, `Object.keys` gives the keys in creation order. */
  lemma {:induction false} ObjectKeysOfNamedKeys(keys: seq<string>)
    requires forall i | 0 <= i < |keys| :: !IsArrayIndex(keys[i])
    ensures ObjectKeys(keys) == keys
  {
    NamedKeysOfNamedKeys(keys);
  }

  lemma {:induction false} NamedKeysOfNamedKeys(keys: seq<string>)
    requires forall i | 0 <= i < |keys| :: !IsArrayIndex(keys[i])
    ensures IndexKeys(keys) == [] && NamedKeys(keys) == keys
  {
    if keys != [] {
      assert !IsArrayIndex(keys[0]);
      NamedKeysOfNamedKeys(keys[1..]);
      assert keys == [keys[0]] + keys[1..];
    }
  }

  /** Distinct own keys give distinct entries in `Object.keys`. */
  lemma ObjectKeysDistinct(keys: seq<string>)
    requires forall i, j | 0 <= i < j < |keys| :: keys[i] != keys[j]
    ensures var r := ObjectKeys(keys); forall i, j | 0 <= i < j < |r| :: r[i] != r[j]
  {
    var r := ObjectKeys(keys);
    forall i, j | 0 <= i < j < |r| ensures r[i] != r[j] {
      if r[i] == r[j] {
        RepeatedTwice(r, i, j);
        DistinctOnce(keys, r[i]);
        assert false;
      }
    }
  }

  lemma RepeatedTwice(s: seq<string>, i: nat, j: nat)
    requires i < j < |s| && s[i] == s[j]
    ensures multiset(s)[s[i]] >= 2
  {
    assert s == s[..j] + [s[j]] + s[j + 1..];
    assert s[i] in s[..j];
  }

  lemma {:induction false} DistinctOnce(s: seq<string>, x: string)
    requires forall i, j | 0 <= i < j < |s| :: s[i] != s[j]
    ensures multiset(s)[x] <= 1
  {
    if s != [] {
      DistinctOnce(s[1..], x);
      assert s == [s[0]] + s[1..];
      assert s[0] !in s[1..];
    }
  }

  lemma NumericGenresAreIndices()
    ensures IsArrayIndex("1984") && DecimalValue("1984") == 1984
    ensures IsArrayIndex("451") && DecimalValue("451") == 451
  {
    assert "1984"[..3] == "198" && "198"[..2] == "19" && "19"[..1] == "1" && "1"[..0] == "";
    assert "451"[..2] == "45" && "45"[..1] == "4" && "4"[..0] == "";
    assert AllDigits("1984") && AllDigits("451");
  }

  /** An example: numeric genres jump ahead of named ones, in numeric order. */
  lemma ObjectKeysExample()
    ensures ObjectKeys(["Fiction", "1984", "Drama", "451"]) == ["451", "1984", "Fiction", "Drama"]
  {
    ObjectKeysParts(["Fiction", "1984", "Drama", "451"]);
    ExampleParts();
  }

  /** Unfolds `ObjectKeys` once, for the worked example; the order it gives is stated by `ObjectKeysLayout`. */
  lemma ObjectKeysParts(keys: seq<string>)
    ensures ObjectKeys(keys) == SortByIndex(IndexKeys(keys)) + NamedKeys(keys)
  {
  }

  lemma ExampleParts()
    ensures SortByIndex(IndexKeys(["Fiction", "1984", "Drama", "451"])) + NamedKeys(["Fiction", "1984", "Drama", "451"])
      == ["451", "1984", "Fiction", "Drama"]
  {
    var keys := ["Fiction", "1984", "Drama", "451"];
    ExampleSplit();
    var sorted := SortByIndex(IndexKeys(keys));
    ExampleSort();
    assert sorted == ["451", "1984"];
  }

  lemma ExampleSplit()
    ensures IndexKeys(["Fiction", "1984", "Drama", "451"]) == ["1984", "451"]
    ensures NamedKeys(["Fiction", "1984", "Drama", "451"]) == ["Fiction", "Drama"]
  {
    var keys := ["Fiction", "1984", "Drama", "451"];
    NumericGenresAreIndices();
    assert !IsArrayIndex("Fiction") && !IsArrayIndex("Drama") by {
      assert !IsDigit("Fiction"[0]) && !IsDigit("Drama"[0]);
    }
    assert keys[1..] == ["1984", "Drama", "451"] && keys[2..] == ["Drama", "451"] && keys[3..] == ["451"];
  }

  lemma ExampleSort()
    ensures AllArrayIndices(["1984", "451"]) && SortByIndex(["1984", "451"]) == ["451", "1984"]
  {
    NumericGenresAreIndices();
    assert ["1984", "451"][1..] == ["451"] && ["451"][1..] == [];
    assert SortByIndex(["451"]) == ["451"];
    assert InsertByIndex("1984", []) == ["1984"];
  }
}
