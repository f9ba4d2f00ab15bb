/**
 * The `categorized` value of the Books screen (Books.tsx, the `useMemo` callback):
 * a `reduce` over the fetched books that fills a plain object `{}` with one
 * array per genre.
 *
 * The accumulator is modelled by the order in which its own keys were created
 * and the array stored under each key. The imperative `Categorize` is proved
 * equal to `Categorized`, which is built from reference definitions: `Bucket`
 * (the books of one genre, in input order), `GenreOrder` (the distinct genres
 * at their first occurrence) and `FirstThrow` (the first book whose genre names
 * an inherited member of the accumulator).
 */
module Grouping {
  import opened Wrappers
  import opened BookData

  /** The `TypeError` thrown when `prev?.[cur.genre]` finds an inherited member, which has no `push`. */
  datatype TypeError = PushOnInherited(index: nat, genre: string)

  /** The accumulator object: its own keys in creation order, and the array under each key. */
  datatype Categories = Categories(order: seq<string>, buckets: map<string, seq<Book>>)

  predicate Distinct(s: seq<string>) {
    forall i, j | 0 <= i < j < |s| :: s[i] != s[j]
  }

  /** One of the first `n` books has the truthy genre `g`. */
  predicate GenreAmong(bs: seq<Book>, n: nat, g: string) {
    exists i | 0 <= i < n && i < |bs| :: InGenre(bs[i], g)
  }

  /** The books of genre `g`, in input order. */
  function Bucket(bs: seq<Book>, g: string): (r: seq<Book>)
    ensures forall x | x in r :: InGenre(x, g)
    ensures |r| <= |bs|
  {
    if bs == [] then []
    else Bucket(bs[..|bs| - 1], g) + (if InGenre(bs[|bs| - 1], g) then [bs[|bs| - 1]] else [])
  }

  /** The books that have a genre, in input order. */
  function Genred(bs: seq<Book>): (r: seq<Book>)
    ensures forall x | x in r :: HasGenre(x)
    ensures |r| <= |bs|
  {
    if bs == [] then []
    else Genred(bs[..|bs| - 1]) + (if HasGenre(bs[|bs| - 1]) then [bs[|bs| - 1]] else [])
  }

  /** The distinct genres of `bs`, each listed where it first occurs. */
  function GenreOrder(bs: seq<Book>): (r: seq<string>)
    ensures "" !in r
  {
    if bs == [] then []
    else
      var prefix := GenreOrder(bs[..|bs| - 1]);
      var b := bs[|bs| - 1];
      if HasGenre(b) && b.genre.value !in prefix then prefix + [b.genre.value] else prefix
  }

  /** Each listed genre mapped to its bucket. */
  function BucketMap(bs: seq<Book>): (m: map<string, seq<Book>>)
    ensures forall g :: g in m <==> g in GenreOrder(bs)
  {
    map g | g in GenreOrder(bs) :: Bucket(bs, g)
  }

  /** The index of the first book whose grouping throws, if any. */
  function FirstThrow(bs: seq<Book>): (r: Option<nat>)
    ensures r.None? <==> forall i | 0 <= i < |bs| :: !HitsPrototype(bs[i])
    ensures r.Some? ==>
      && r.value < |bs|
      && HitsPrototype(bs[r.value])
      && forall i | 0 <= i < r.value :: !HitsPrototype(bs[i])
  {
    if bs == [] then None
    else
      var before := FirstThrow(bs[..|bs| - 1]);
      if before.Some? then before
      else if HitsPrototype(bs[|bs| - 1]) then Some(|bs| - 1)
      else None
  }

  /**
   * The value of `categorized` for the fetched `books` (`None` for undefined or
   * null): the grouped object, or the `TypeError` its `reduce` throws.
   */
  function Categorized(books: Option<seq<Book>>): (r: Result<Categories, TypeError>)
    ensures r.Ok? ==> forall g :: g in r.value.buckets <==> g in r.value.order
  {
    if books.None? || |books.value| == 0 then Ok(Categories([], map[]))
    else
      var bs := books.value;
      match FirstThrow(bs)
      case Some(i) => Err(PushOnInherited(i, bs[i].genre.value))
      case None =>
        Ok(Categories(GenreOrder(bs), BucketMap(bs)))
  }

  /**
   * The `reduce` itself: one pass over the books, creating a key the first time
   * its genre is seen and appending to the existing array afterwards.
   */
  method Categorize(books: Option<seq<Book>>) returns (r: Result<Categories, TypeError>)
    ensures r == Categorized(books)
  {
    var order: seq<string> := [];
    var buckets: map<string, seq<Book>> := map[];
    if books.Some? && |books.value| > 0 {
      var bs := books.value;
      for i := 0 to |bs|
        invariant order == GenreOrder(bs[..i])
        invariant buckets == BucketMap(bs[..i])
        invariant forall j | 0 <= j < i :: !HitsPrototype(bs[j])
      {
        var cur := bs[i];
        assert bs[..i + 1] == bs[..i] + [cur];
        BucketMapSnoc(bs[..i], cur);
        if HasGenre(cur) {
          var g := cur.genre.value;
          if g in buckets {
            ListedGenresAreOwn(bs, i, g);
            buckets := buckets[g := buckets[g] + [cur]];
          } else if g in ObjectPrototypeNames {
            FirstThrowAt(bs, i);
            return Err(PushOnInherited(i, g));
          } else {
            buckets := buckets[g := [cur]];
            order := order + [g];
          }
        }
      }
      assert bs[..|bs|] == bs;
    }
    r := Ok(Categories(order, buckets));
  }

  // ---------------------------------------------------------------------------
  // Properties of the reference definitions

  /** One more book: a new key with a one-book bucket, one more book in an existing bucket, or no change. */
  lemma BucketMapSnoc(bs: seq<Book>, b: Book)
    ensures !HasGenre(b) ==> GenreOrder(bs + [b]) == GenreOrder(bs) && BucketMap(bs + [b]) == BucketMap(bs)
    ensures HasGenre(b) && b.genre.value in BucketMap(bs) ==>
      var g := b.genre.value;
      GenreOrder(bs + [b]) == GenreOrder(bs) && BucketMap(bs + [b]) == BucketMap(bs)[g := BucketMap(bs)[g] + [b]]
    ensures HasGenre(b) && b.genre.value !in BucketMap(bs) ==>
      var g := b.genre.value;
      GenreOrder(bs + [b]) == GenreOrder(bs) + [g] && BucketMap(bs + [b]) == BucketMap(bs)[g := [b]]
  {
    var bs' := bs + [b];
    assert bs'[..|bs|] == bs && bs'[|bs|] == b;
    var m, m' := BucketMap(bs), BucketMap(bs');
    if !HasGenre(b) {
      assert GenreOrder(bs') == GenreOrder(bs);
      forall h | h in m' ensures m'[h] == m[h] {
        BucketSnoc(bs, b, h);
      }
    } else if b.genre.value in m {
      var g := b.genre.value;
      assert GenreOrder(bs') == GenreOrder(bs);
      forall h | h in m' ensures m'[h] == m[g := m[g] + [b]][h] {
        BucketSnoc(bs, b, h);
      }
    } else {
      var g := b.genre.value;
      assert GenreOrder(bs') == GenreOrder(bs) + [g];
      BucketNonEmptyIff(bs, g);
      forall h | h in m' ensures m'[h] == m[g := [b]][h] {
        BucketSnoc(bs, b, h);
      }
    }
  }

  /** The first book that throws, after books of which none does. */
  lemma FirstThrowAt(bs: seq<Book>, i: nat)
    requires i < |bs| && HitsPrototype(bs[i]) && forall j | 0 <= j < i :: !HitsPrototype(bs[j])
    ensures FirstThrow(bs) == Some(i)
  {
  }

  /** When none of the first `n` books throws, no genre listed for them is an inherited name. */
  lemma ListedGenresAreOwn(bs: seq<Book>, n: nat, g: string)
    requires n <= |bs| && g in GenreOrder(bs[..n])
    requires forall j | 0 <= j < n :: !HitsPrototype(bs[j])
    ensures g !in ObjectPrototypeNames
  {
    GenreOrderListsGenres(bs[..n], g);
    var k :| 0 <= k < n && InGenre(bs[..n][k], g);
    assert !HitsPrototype(bs[k]);
  }

  /** A genre's bucket is non-empty exactly when the genre is among the first occurrences. */
  lemma {:induction false} BucketNonEmptyIff(bs: seq<Book>, g: string)
    ensures Bucket(bs, g) != [] <==> g in GenreOrder(bs)
  {
    if bs != [] {
      BucketNonEmptyIff(bs[..|bs| - 1], g);
    }
  }

  /** The first occurrences list exactly the truthy genres of the books. */
  lemma {:induction false} GenreOrderListsGenres(bs: seq<Book>, g: string)
    ensures g in GenreOrder(bs) <==> GenreAmong(bs, |bs|, g)
  {
    if bs != [] {
      var prefix := bs[..|bs| - 1];
      GenreOrderListsGenres(prefix, g);
      if exists i | 0 <= i < |bs| :: InGenre(bs[i], g) {
        var i :| 0 <= i < |bs| && InGenre(bs[i], g);
        if i < |prefix| {
          assert InGenre(prefix[i], g);
        }
      }
      if exists i | 0 <= i < |prefix| :: InGenre(prefix[i], g) {
        var i :| 0 <= i < |prefix| && InGenre(prefix[i], g);
        assert InGenre(bs[i], g);
      }
    }
  }

  /** No genre is listed twice. */
  lemma {:induction false} GenreOrderDistinct(bs: seq<Book>)
    ensures Distinct(GenreOrder(bs))
  {
    if bs != [] {
      GenreOrderDistinct(bs[..|bs| - 1]);
    }
  }

  /**
   * Genres are listed in order of first occurrence: every book of a later
   * genre is preceded by some book of each earlier genre.
   */
  lemma {:induction false} GenreOrderFirstOccurrence(bs: seq<Book>, p: nat, q: nat, j: nat)
    requires p < q < |GenreOrder(bs)|
    requires j < |bs| && InGenre(bs[j], GenreOrder(bs)[q])
    ensures GenreAmong(bs, j, GenreOrder(bs)[p])
  {
    var prefix := bs[..|bs| - 1];
    var order := GenreOrder(bs);
    var before := GenreOrder(prefix);
    assert order[..|before|] == before;
    if q < |before| {
      if j < |prefix| {
        assert InGenre(prefix[j], before[q]);
        GenreOrderFirstOccurrence(prefix, p, q, j);
        var i :| 0 <= i < j && InGenre(prefix[i], before[p]);
        assert InGenre(bs[i], order[p]);
      } else {
        GenreOrderListsGenres(prefix, before[q]);
        var j' :| 0 <= j' < |prefix| && InGenre(prefix[j'], before[q]);
        GenreOrderFirstOccurrence(prefix, p, q, j');
        var i :| 0 <= i < j' && InGenre(prefix[i], before[p]);
        assert InGenre(bs[i], order[p]);
      }
    } else {
      // q is the genre first met at the last book
      assert order[q] !in before;
      GenreOrderListsGenres(prefix, order[q]);
      assert forall k | 0 <= k < |prefix| :: !InGenre(bs[k], order[q]);
      assert j == |prefix|;
      GenreOrderListsGenres(prefix, before[p]);
      var i :| 0 <= i < |prefix| && InGenre(prefix[i], before[p]);
      assert InGenre(bs[i], order[p]);
    }
  }

  lemma {:induction false} BucketAppend(a: seq<Book>, b: seq<Book>, g: string)
    ensures Bucket(a + b, g) == Bucket(a, g) + Bucket(b, g)
  {
    if b != [] {
      assert (a + b)[..|a + b| - 1] == a + b[..|b| - 1];
      assert (a + b)[|a + b| - 1] == b[|b| - 1];
      BucketAppend(a, b[..|b| - 1], g);
    } else {
      assert a + b == a;
    }
  }

  /**
   * The book at index `i` sits in its genre's bucket at the position given by
   * the number of books of that genre before it.
   */
  lemma BookInOwnBucket(bs: seq<Book>, i: nat, g: string)
    requires i < |bs| && InGenre(bs[i], g)
    ensures |Bucket(bs[..i], g)| < |Bucket(bs, g)|
    ensures Bucket(bs, g)[|Bucket(bs[..i], g)|] == bs[i]
  {
    assert bs == bs[..i + 1] + bs[i + 1..];
    assert bs[..i + 1][..i] == bs[..i];
    BucketAppend(bs[..i + 1], bs[i + 1..], g);
  }

  /** Two books of one genre keep their input order within its bucket. */
  lemma BucketKeepsInputOrder(bs: seq<Book>, i: nat, j: nat, g: string)
    requires i < j < |bs| && InGenre(bs[i], g) && InGenre(bs[j], g)
    ensures |Bucket(bs[..i], g)| < |Bucket(bs[..j], g)|
  {
    assert bs[..j] == bs[..i + 1] + bs[i + 1..j];
    assert bs[..i + 1][..i] == bs[..i];
    BucketAppend(bs[..i + 1], bs[i + 1..j], g);
  }

  /** The buckets of `order`, concatenated in that order. */
  function Flatten(order: seq<string>, bs: seq<Book>): seq<Book>
  {
    if order == [] then []
    else Flatten(order[..|order| - 1], bs) + Bucket(bs, order[|order| - 1])
  }

  lemma BucketSnoc(bs: seq<Book>, b: Book, g: string)
    ensures Bucket(bs + [b], g) == Bucket(bs, g) + if InGenre(b, g) then [b] else []
  {
    assert (bs + [b])[..|bs|] == bs;
  }

  /** Appending a book of an unlisted genre leaves the concatenated buckets unchanged. */
  lemma {:induction false} FlattenSnocUnlisted(order: seq<string>, bs: seq<Book>, b: Book)
    requires !HasGenre(b) || b.genre.value !in order
    ensures Flatten(order, bs + [b]) == Flatten(order, bs)
  {
    if order != [] {
      var rest := order[..|order| - 1];
      var k := order[|order| - 1];
      FlattenSnocUnlisted(rest, bs, b);
      BucketSnoc(bs, b, k);
    }
  }

  /** Appending a book of a listed genre adds it to the concatenated buckets. */
  lemma {:induction false} FlattenSnocListed(order: seq<string>, bs: seq<Book>, b: Book)
    requires Distinct(order)
    requires HasGenre(b) && b.genre.value in order
    ensures multiset(Flatten(order, bs + [b])) == multiset(Flatten(order, bs)) + multiset{b}
  {
    var rest := order[..|order| - 1];
    var k := order[|order| - 1];
    assert order == rest + [k];
    BucketSnoc(bs, b, k);
    if b.genre.value == k {
      assert k !in rest;
      FlattenSnocUnlisted(rest, bs, b);
    } else {
      FlattenSnocListed(rest, bs, b);
    }
  }

  /** Appending the first book of a new genre appends its one-book bucket. */
  lemma FlattenSnocNew(order: seq<string>, bs: seq<Book>, b: Book)
    requires HasGenre(b) && b.genre.value !in order && Bucket(bs, b.genre.value) == []
    ensures Flatten(order + [b.genre.value], bs + [b]) == Flatten(order, bs) + [b]
  {
    var g := b.genre.value;
    FlattenSnocUnlisted(order, bs, b);
    BucketSnoc(bs, b, g);
    assert (order + [g])[..|order|] == order;
  }

  /** The buckets, concatenated in key order, hold exactly the books that have a genre. */
  lemma {:induction false} BucketsPartitionGenred(bs: seq<Book>)
    ensures multiset(Flatten(GenreOrder(bs), bs)) == multiset(Genred(bs))
  {
    if bs != [] {
      var prefix := bs[..|bs| - 1];
      var b := bs[|bs| - 1];
      assert bs == prefix + [b];
      BucketsPartitionGenred(prefix);
      var before := GenreOrder(prefix);
      GenreOrderDistinct(prefix);
      if HasGenre(b) && b.genre.value !in before {
        var g := b.genre.value;
        assert GenreOrder(bs) == before + [g];
        BucketNonEmptyIff(prefix, g);
        FlattenSnocNew(before, prefix, b);
      } else if HasGenre(b) {
        FlattenSnocListed(before, prefix, b);
      } else {
        FlattenSnocUnlisted(before, prefix, b);
      }
    }
  }

  // ---------------------------------------------------------------------------
  // Properties of `categorized`

  /** The buckets of `keys` in `m`, concatenated in key order. */
  function Concat(keys: seq<string>, m: map<string, seq<Book>>): seq<Book>
    requires forall k | k in keys :: k in m
  {
    if keys == [] then []
    else Concat(keys[..|keys| - 1], m) + m[keys[|keys| - 1]]
  }

  /** The sum of the bucket sizes of `keys` in `m`. */
  function SizeSum(keys: seq<string>, m: map<string, seq<Book>>): nat
    requires forall k | k in keys :: k in m
  {
    if keys == [] then 0
    else SizeSum(keys[..|keys| - 1], m) + |m[keys[|keys| - 1]]|
  }

  lemma {:induction false} ConcatIsFlatten(keys: seq<string>, m: map<string, seq<Book>>, bs: seq<Book>)
    requires forall k | k in keys :: k in m && m[k] == Bucket(bs, k)
    ensures Concat(keys, m) == Flatten(keys, bs)
    ensures SizeSum(keys, m) == |Concat(keys, m)|
  {
    if keys != [] {
      ConcatIsFlatten(keys[..|keys| - 1], m, bs);
    }
  }

  /** An undefined, null or empty book list gives the empty object. */
  lemma CategorizedEmptyInput()
    ensures Categorized(None) == Ok(Categories([], map[]))
    ensures Categorized(Some([])) == Ok(Categories([], map[]))
  {
  }

  /** A successful grouping of a book list is its first occurrences and their buckets. */
  lemma CategorizedOk(bs: seq<Book>, c: Categories)
    requires Categorized(Some(bs)) == Ok(c)
    ensures FirstThrow(bs) == None && c.order == GenreOrder(bs) && c.buckets == BucketMap(bs)
  {
    if bs == [] {
      assert BucketMap(bs) == map[];
    }
  }

  /**
   * The grouping throws exactly when some book's truthy genre names an
   * inherited member of a plain object, and reports the first such book.
   */
  lemma CategorizedThrows(books: Option<seq<Book>>)
    ensures var r := Categorized(books);
      && (r.Err? <==> books.Some? && exists i | 0 <= i < |books.value| :: HitsPrototype(books.value[i]))
      && (r.Err? ==>
          && r.error.index < |books.value|
          && HitsPrototype(books.value[r.error.index])
          && books.value[r.error.index].genre == Some(r.error.genre)
          && forall i | 0 <= i < r.error.index :: !HitsPrototype(books.value[i]))
  {
  }

  /**
   * The keys of `categorized`: each truthy genre of the books once, in order
   * of first occurrence, and never one with an empty bucket.
   */
  lemma CategorizedKeys(bs: seq<Book>, c: Categories)
    requires Categorized(Some(bs)) == Ok(c)
    ensures Distinct(c.order)
    ensures forall g :: g in c.order <==> GenreAmong(bs, |bs|, g)
    ensures forall p, q, j | 0 <= p < q < |c.order| && 0 <= j < |bs| && InGenre(bs[j], c.order[q]) ::
      GenreAmong(bs, j, c.order[p])
    ensures forall g | g in c.buckets :: c.buckets[g] != []
  {
    CategorizedOk(bs, c);
    GenreOrderDistinct(bs);
    forall g ensures g in c.order <==> GenreAmong(bs, |bs|, g) {
      GenreOrderListsGenres(bs, g);
    }
    forall p, q, j | 0 <= p < q < |c.order| && 0 <= j < |bs| && InGenre(bs[j], c.order[q])
      ensures GenreAmong(bs, j, c.order[p])
    {
      GenreOrderFirstOccurrence(bs, p, q, j);
    }
    forall g | g in c.buckets ensures c.buckets[g] != [] {
      BucketNonEmptyIff(bs, g);
    }
  }

  /** A book without a truthy genre lands in no bucket. */
  lemma UngenredBookInNoBucket(books: Option<seq<Book>>, c: Categories, b: Book)
    requires Categorized(books) == Ok(c)
    requires !HasGenre(b)
    ensures forall g | g in c.buckets :: b !in c.buckets[g]
  {
  }

  /**
   * A book with a truthy genre lands in the bucket of that genre, at the
   * position given by the books of that genre before it, and in no other bucket.
   */
  lemma GenredBookInOwnBucket(bs: seq<Book>, c: Categories, i: nat)
    requires Categorized(Some(bs)) == Ok(c)
    requires i < |bs| && HasGenre(bs[i])
    ensures var g := bs[i].genre.value;
      && g in c.buckets
      && |Bucket(bs[..i], g)| < |c.buckets[g]|
      && c.buckets[g][|Bucket(bs[..i], g)|] == bs[i]
      && forall h | h in c.buckets && h != g :: bs[i] !in c.buckets[h]
  {
    CategorizedOk(bs, c);
    var g := bs[i].genre.value;
    GenreOrderListsGenres(bs, g);
    BookInOwnBucket(bs, i, g);
  }

  /** Within a bucket, books keep their relative input order. */
  lemma CategorizedKeepsInputOrder(bs: seq<Book>, c: Categories, i: nat, j: nat)
    requires Categorized(Some(bs)) == Ok(c)
    requires i < j < |bs| && HasGenre(bs[i]) && bs[j].genre == bs[i].genre
    ensures var g := bs[i].genre.value; var p := |Bucket(bs[..i], g)|; var q := |Bucket(bs[..j], g)|;
      && g in c.buckets
      && p < q < |c.buckets[g]|
      && c.buckets[g][p] == bs[i] && c.buckets[g][q] == bs[j]
  {
    var g := bs[i].genre.value;
    GenredBookInOwnBucket(bs, c, i);
    GenredBookInOwnBucket(bs, c, j);
    BucketKeepsInputOrder(bs, i, j, g);
  }

  /**
   * Every book with a truthy genre is in exactly one bucket: the buckets,
   * concatenated in key order, are a permutation of those books, so their
   * sizes add up to the number of such books.
   */
  lemma CategorizedPartition(bs: seq<Book>, c: Categories)
    requires Categorized(Some(bs)) == Ok(c)
    ensures multiset(Concat(c.order, c.buckets)) == multiset(Genred(bs))
    ensures SizeSum(c.order, c.buckets) == |Genred(bs)|
  {
    CategorizedOk(bs, c);
    if bs != [] {
      ConcatIsFlatten(c.order, c.buckets, bs);
      BucketsPartitionGenred(bs);
      assert |multiset(Concat(c.order, c.buckets))| == |multiset(Genred(bs))|;
    }
  }

  /** The genres used in the examples are not inherited names. */
  lemma SampleGenresAreOwn()
    ensures "Fiction" !in ObjectPrototypeNames
    ensures "Drama" !in ObjectPrototypeNames
    ensures "Sci-Fi" !in ObjectPrototypeNames
  {
  }

  /** When no book throws, a non-empty book list gives its first occurrences and their buckets. */
  lemma CategorizedNoThrow(bs: seq<Book>)
    requires bs != [] && FirstThrow(bs) == None
    ensures Categorized(Some(bs)) == Ok(Categories(GenreOrder(bs), BucketMap(bs)))
  {
  }

  /** Genres Fiction, Drama, Fiction give the keys Fiction, Drama. */
  lemma FirstOccurrenceExample(a: Book, b: Book, c: Book)
    requires a.genre == Some("Fiction") && b.genre == Some("Drama") && c.genre == Some("Fiction")
    ensures Categorized(Some([a, b, c])) == Ok(Categories(["Fiction", "Drama"], map["Fiction" := [a, c], "Drama" := [b]]))
  {
    SampleGenresAreOwn();
    NoThrowOfThree(a, b, c);
    CategorizedNoThrow([a, b, c]);
    assert "Fiction"[0] != "Drama"[0];
    TwoGenresOrder(a, b, c, "Fiction", "Drama");
    TwoGenresBuckets(a, b, c, "Fiction", "Drama");
    assert ThreeBucket(a, b, c, "Fiction") == [a, c] && ThreeBucket(a, b, c, "Drama") == [b];
  }

  /** Three books of two genres, the first book's `g` and another `h`: the keys are `g`, then `h`. */
  lemma TwoGenresOrder(a: Book, b: Book, c: Book, g: string, h: string)
    requires g != "" && h != "" && g != h
    requires a.genre == Some(g)
    requires (b.genre == Some(g) || b.genre == Some(h)) && (c.genre == Some(g) || c.genre == Some(h))
    requires b.genre == Some(h) || c.genre == Some(h)
    ensures GenreOrder([a, b, c]) == [g, h]
  {
    PrefixesOfThree(a, b, c);
    assert GenreOrder([a]) == [g];
  }

  /** Three books of two genres `g` and `h`: one bucket for each, filled in input order. */
  lemma TwoGenresBuckets(a: Book, b: Book, c: Book, g: string, h: string)
    requires g != "" && h != "" && g != h
    requires a.genre == Some(g)
    requires (b.genre == Some(g) || b.genre == Some(h)) && (c.genre == Some(g) || c.genre == Some(h))
    requires b.genre == Some(h) || c.genre == Some(h)
    ensures BucketMap([a, b, c]) == map[g := ThreeBucket(a, b, c, g), h := ThreeBucket(a, b, c, h)]
  {
    var m := BucketMap([a, b, c]);
    TwoGenresOrder(a, b, c, g, h);
    BucketsOfThree(a, b, c);
    assert m.Keys == {g, h} && m[g] == ThreeBucket(a, b, c, g) && m[h] == ThreeBucket(a, b, c, h);
  }

  lemma NoThrowOfThree(a: Book, b: Book, c: Book)
    requires !HitsPrototype(a) && !HitsPrototype(b) && !HitsPrototype(c)
    ensures FirstThrow([a, b, c]) == None
  {
  }

  lemma PrefixesOfThree(a: Book, b: Book, c: Book)
    ensures [a, b, c][..2] == [a, b] && [a, b][..1] == [a] && [a][..0] == []
  {
  }

  /** The bucket of one genre for three books, one book at a time. */
  lemma BucketsOfThree(a: Book, b: Book, c: Book)
    ensures forall g :: Bucket([a, b, c], g) == ThreeBucket(a, b, c, g)
  {
    PrefixesOfThree(a, b, c);
    forall g ensures Bucket([a, b, c], g) == ThreeBucket(a, b, c, g) {
      assert Bucket([a], g) == (if InGenre(a, g) then [a] else []);
    }
  }

  function ThreeBucket(a: Book, b: Book, c: Book, g: string): seq<Book> {
    (if InGenre(a, g) then [a] else []) + (if InGenre(b, g) then [b] else []) + (if InGenre(c, g) then [c] else [])
  }
}
