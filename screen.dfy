/**
 * What the `Books` component renders (Books.tsx): a spinner while the query is
 * loading or refetching, an error panel with a "Try Again" button when the
 * fetch failed or found no books, and otherwise one tab per key of
 * `categorized`, in `Object.keys` order, opening on the first key. Each tab's
 * `TabComponent` shows its books, or a placeholder text when it has none.
 *
 * The query state (`isLoading`, `isRefetching`, `error`, `data`) comes in as
 * parameters. `categorized` is computed before the branch, so a `TypeError`
 * thrown while grouping makes the whole render throw, whatever the query state.
 */
module BooksScreen {
  import opened Wrappers
  import opened BookData
  import opened Grouping
  import opened ObjectKeyOrder

  /** One `Tab.Screen`: its `name` (also its `key`) and its `initialParams`. */
  datatype TabRoute = TabRoute(name: string, books: seq<Book>, isLoading: bool)

  /** The three things `Books` can render. */
  datatype Screen =
    | Fetching                 // spinner with "Fetching books..."
    | FetchError               // error text with a "Try Again" button that calls `refetch`
    | Tabs(initialRouteName: Option<string>, routes: seq<TabRoute>)

  /** What `TabComponent` shows for its `books` param. */
  datatype TabBody = Placeholder | BookList(items: seq<Book>)

  /**
   * `!books?.length`: an undefined or empty list shows "No books to show here";
   * a list is only ever shown with at least one book, and shows exactly the
   * books it was given.
   */
  function TabContent(books: Option<seq<Book>>): (v: TabBody)
    ensures v.Placeholder? <==> books.None? || books.value == []
    ensures v.BookList? ==> |v.items| > 0 && books == Some(v.items)
  {
    if books.None? || |books.value| == 0 then Placeholder else BookList(books.value)
  }

  /** One `Tab.Screen` per key, in the order given, each with that key's books. */
  function TabRoutes(keys: seq<string>, buckets: map<string, seq<Book>>, isLoading: bool): (r: seq<TabRoute>)
    requires forall k | k in keys :: k in buckets
    ensures |r| == |keys|
    ensures forall i | 0 <= i < |r| :: r[i].name == keys[i] && r[i].books == buckets[keys[i]] && r[i].isLoading == isLoading
  {
    seq(|keys|, i requires 0 <= i < |keys| => TabRoute(keys[i], buckets[keys[i]], isLoading))
  }

  /**
   * The tab navigator for `categorized`: one route per `Object.keys` entry, in
   * that order, each given that key's array and the `isLoading` flag; the
   * initial route is the first entry, or none when there is no key.
   */
  function TabsOf(c: Categories, isLoading: bool): (s: Screen)
    requires forall g :: g in c.buckets <==> g in c.order
    ensures var keys := ObjectKeys(c.order);
      && s.Tabs? && |s.routes| == |keys| == |c.order|
      && (forall i | 0 <= i < |keys| :: s.routes[i] == TabRoute(keys[i], c.buckets[keys[i]], isLoading))
      && s.initialRouteName == (if keys == [] then None else Some(keys[0]))
  {
    var keys := ObjectKeys(c.order);
    Tabs(if keys == [] then None else Some(keys[0]), TabRoutes(keys, c.buckets, isLoading))
  }

  /** With no array-index key, the tabs follow the keys' creation order. */
  lemma TabsOfNamedKeys(c: Categories, isLoading: bool)
    requires forall g :: g in c.buckets <==> g in c.order
    requires forall i | 0 <= i < |c.order| :: !IsArrayIndex(c.order[i])
    ensures TabsOf(c, isLoading) ==
      Tabs(if c.order == [] then None else Some(c.order[0]), TabRoutes(c.order, c.buckets, isLoading))
  {
    ObjectKeysOfNamedKeys(c.order);
  }

  /**
   * The screen rendered for one query state; `error` is whether the query's
   * error is truthy. It fails exactly when grouping fails. Otherwise it shows
   * the spinner exactly while loading or refetching, the error panel exactly
   * when neither but the query failed or gave no books, and the tabs of
   * `categorized` (told they are not loading) in the remaining case.
   */
  function Render(isLoading: bool, isRefetching: bool, error: bool, books: Option<seq<Book>>): (r: Result<Screen, TypeError>)
    ensures r.Err? <==> Categorized(books).Err?
    ensures r.Ok? ==> (r.value == Fetching <==> isLoading || isRefetching)
    ensures r.Ok? ==>
      (r.value == FetchError <==> !isLoading && !isRefetching && (error || books.None? || books.value == []))
    ensures r.Ok? ==>
      (r.value.Tabs? <==> !isLoading && !isRefetching && !error && books.Some? && books.value != [])
    ensures r.Ok? && r.value.Tabs? ==> r.value == TabsOf(Categorized(books).value, false)
  {
    match Categorized(books)
    case Err(e) => Err(e)
    case Ok(c) =>
      if isLoading || isRefetching || error || books.None? || |books.value| == 0 then
        Ok(if isLoading || isRefetching then Fetching else FetchError)
      else
        Ok(TabsOf(c, isLoading))
  }

  /**
   * The render throws exactly when grouping throws, whatever the query state:
   * when some book's truthy genre names an inherited member of a plain object.
   */
  lemma RenderThrows(isLoading: bool, isRefetching: bool, error: bool, books: Option<seq<Book>>)
    ensures Render(isLoading, isRefetching, error, books).Err? <==>
      books.Some? && exists i | 0 <= i < |books.value| :: HitsPrototype(books.value[i])
  {
    CategorizedThrows(books);
  }

  /**
   * The tabs: one per key of `categorized`, in `Object.keys` order, each given
   * that key's bucket; no two tabs share a name; the tab names are exactly the
   * truthy genres of the books; the initial tab is the first one; no tab shows
   * the placeholder, and none is told it is loading.
   */
  lemma TabsFollowObjectKeys(isLoading: bool, isRefetching: bool, error: bool, bs: seq<Book>, c: Categories, s: Screen)
    requires Categorized(Some(bs)) == Ok(c)
    requires Render(isLoading, isRefetching, error, Some(bs)) == Ok(s) && s.Tabs?
    ensures s == TabsOf(c, false)
    ensures var keys := ObjectKeys(c.order);
      && |s.routes| == |keys| == |c.order|
      && (forall i | 0 <= i < |s.routes| :: s.routes[i].name == keys[i])
      && (forall i, j | 0 <= i < j < |s.routes| :: s.routes[i].name != s.routes[j].name)
      && (forall i | 0 <= i < |s.routes| :: GenreAmong(bs, |bs|, s.routes[i].name))
      && (forall k | 0 <= k < |bs| && HasGenre(bs[k]) :: IsTabName(s.routes, bs[k].genre.value))
      && s.initialRouteName == (if s.routes == [] then None else Some(s.routes[0].name))
      && forall i | 0 <= i < |s.routes| ::
           && s.routes[i].name in c.buckets
           && s.routes[i].books == c.buckets[s.routes[i].name]
           && TabContent(Some(s.routes[i].books)) == BookList(s.routes[i].books)
           && !s.routes[i].isLoading
  {
    var t := TabsOf(c, false);
    assert s == t;
    TabsOfLayout(bs, c);
    TabNamesAreGenres(bs, c);
  }

  lemma TabsOfLayout(bs: seq<Book>, c: Categories)
    requires Categorized(Some(bs)) == Ok(c)
    ensures var s := TabsOf(c, false); var keys := ObjectKeys(c.order);
      && |s.routes| == |keys| == |c.order|
      && (forall i | 0 <= i < |s.routes| :: s.routes[i].name == keys[i])
      && s.initialRouteName == (if s.routes == [] then None else Some(s.routes[0].name))
      && forall i | 0 <= i < |s.routes| ::
           && s.routes[i].name in c.buckets
           && s.routes[i].books == c.buckets[s.routes[i].name]
           && TabContent(Some(s.routes[i].books)) == BookList(s.routes[i].books)
           && !s.routes[i].isLoading
  {
    CategorizedOk(bs, c);
    assert forall g | g in c.buckets :: c.buckets[g] != [] by {
      CategorizedKeys(bs, c);
    }
  }

  lemma TabNamesAreGenres(bs: seq<Book>, c: Categories)
    requires Categorized(Some(bs)) == Ok(c)
    ensures var s := TabsOf(c, false);
      && (forall i, j | 0 <= i < j < |s.routes| :: s.routes[i].name != s.routes[j].name)
      && (forall i | 0 <= i < |s.routes| :: GenreAmong(bs, |bs|, s.routes[i].name))
      && (forall k | 0 <= k < |bs| && HasGenre(bs[k]) :: IsTabName(s.routes, bs[k].genre.value))
  {
    var routes := TabsOf(c, false).routes;
    var keys := ObjectKeys(c.order);
    CategorizedKeys(bs, c);
    KeysAreGenres(bs, c.order);
    forall k | 0 <= k < |bs| && HasGenre(bs[k]) ensures IsTabName(routes, bs[k].genre.value) {
      var i :| 0 <= i < |keys| && keys[i] == bs[k].genre.value;
      assert routes[i].name == keys[i];
    }
  }

  /** Some route is named `g`. */
  predicate IsTabName(routes: seq<TabRoute>, g: string) {
    exists i | 0 <= i < |routes| :: routes[i].name == g
  }

  lemma KeysAreGenres(bs: seq<Book>, order: seq<string>)
    requires Distinct(order)
    requires forall g :: g in order <==> GenreAmong(bs, |bs|, g)
    ensures var keys := ObjectKeys(order);
      && Distinct(keys)
      && (forall i | 0 <= i < |keys| :: GenreAmong(bs, |bs|, keys[i]))
      && (forall k | 0 <= k < |bs| && HasGenre(bs[k]) :: bs[k].genre.value in keys)
  {
    var keys := ObjectKeys(order);
    ObjectKeysDistinct(order);
    forall i | 0 <= i < |keys| ensures GenreAmong(bs, |bs|, keys[i]) {
      assert keys[i] in order;
    }
    forall k | 0 <= k < |bs| && HasGenre(bs[k]) ensures bs[k].genre.value in keys {
      assert InGenre(bs[k], bs[k].genre.value);
    }
  }

  /**
   * When no genre is an array index (such as "1984"), the tabs follow the
   * genres' first occurrence in the books, and the initial tab is the genre
   * of the first book that has one.
   */
  lemma TabsInFirstOccurrenceOrder(isLoading: bool, isRefetching: bool, error: bool, bs: seq<Book>, s: Screen)
    requires forall k | 0 <= k < |bs| && HasGenre(bs[k]) :: !IsArrayIndex(bs[k].genre.value)
    requires Render(isLoading, isRefetching, error, Some(bs)) == Ok(s) && s.Tabs?
    ensures
      && |s.routes| == |GenreOrder(bs)|
      && (forall i | 0 <= i < |s.routes| :: s.routes[i].name == GenreOrder(bs)[i])
      && forall k | 0 <= k < |bs| && HasGenre(bs[k]) && (forall j | 0 <= j < k :: !HasGenre(bs[j])) ::
           s.initialRouteName == Some(bs[k].genre.value)
  {
    var c := Categorized(Some(bs)).value;
    assert s == TabsOf(c, false);
    var order := GenreOrder(bs);
    assert c.order == order;
    forall i | 0 <= i < |order| ensures !IsArrayIndex(order[i]) {
      GenreOrderListsGenres(bs, order[i]);
    }
    ObjectKeysOfNamedKeys(order);
    forall k | 0 <= k < |bs| && HasGenre(bs[k]) && (forall j | 0 <= j < k :: !HasGenre(bs[j]))
      ensures order != [] && order[0] == bs[k].genre.value
    {
      FirstGenreLeads(bs, k);
    }
  }

  /** The first listed genre is the genre of the first book that has one. */
  lemma {:induction false} FirstGenreLeads(bs: seq<Book>, k: nat)
    requires k < |bs| && HasGenre(bs[k]) && forall j | 0 <= j < k :: !HasGenre(bs[j])
    ensures GenreOrder(bs) != [] && GenreOrder(bs)[0] == bs[k].genre.value
  {
    var prefix := bs[..|bs| - 1];
    if k < |prefix| {
      assert HasGenre(prefix[k]) && forall j | 0 <= j < k :: !HasGenre(prefix[j]);
      FirstGenreLeads(prefix, k);
    } else {
      NoGenreNoKeys(prefix);
    }
  }

  /** Books without any genre list no genre. */
  lemma {:induction false} NoGenreNoKeys(bs: seq<Book>)
    requires forall j | 0 <= j < |bs| :: !HasGenre(bs[j])
    ensures GenreOrder(bs) == []
  {
    if bs != [] {
      NoGenreNoKeys(bs[..|bs| - 1]);
    }
  }

  /**
   * Books that are there but all lack a genre pass the "no books" test and
   * give the tab navigator with no tab at all and no initial tab.
   */
  lemma UngenredBooksGiveNoTabs(bs: seq<Book>)
    requires bs != [] && forall j | 0 <= j < |bs| :: !HasGenre(bs[j])
    ensures Render(false, false, false, Some(bs)) == Ok(Tabs(None, []))
  {
    NoGenreNoKeys(bs);
    assert BucketMap(bs) == map[];
    assert Categorized(Some(bs)) == Ok(Categories([], map[]));
    assert ObjectKeys([]) == [];
    assert TabRoutes([], map[], false) == [];
  }

  /** Two Sci-Fi books and a Drama book give the tabs Sci-Fi and Drama, opening on Sci-Fi. */
  lemma SciFiDramaScenario(a: Book, b: Book, c: Book)
    requires a.genre == Some("Sci-Fi") && b.genre == Some("Sci-Fi") && c.genre == Some("Drama")
    ensures Render(false, false, false, Some([a, b, c])) ==
      Ok(Tabs(Some("Sci-Fi"), [TabRoute("Sci-Fi", [a, b], false), TabRoute("Drama", [c], false)]))
  {
    var cats := SciFiDramaCategories(a, b, c);
    SciFiDramaTabs(a, b, c);
  }

  lemma SciFiDramaTabs(a: Book, b: Book, c: Book)
    ensures TabsOf(Categories(["Sci-Fi", "Drama"], map["Sci-Fi" := [a, b], "Drama" := [c]]), false) ==
      Tabs(Some("Sci-Fi"), [TabRoute("Sci-Fi", [a, b], false), TabRoute("Drama", [c], false)])
  {
    var order := ["Sci-Fi", "Drama"];
    var m := map["Sci-Fi" := [a, b], "Drama" := [c]];
    assert !IsDigit("Sci-Fi"[0]) && !IsDigit("Drama"[0]);
    TabsOfNamedKeys(Categories(order, m), false);
    SciFiDramaRoutes(a, b, c);
  }

  lemma SciFiDramaRoutes(a: Book, b: Book, c: Book)
    ensures TabRoutes(["Sci-Fi", "Drama"], map["Sci-Fi" := [a, b], "Drama" := [c]], false) ==
      [TabRoute("Sci-Fi", [a, b], false), TabRoute("Drama", [c], false)]
  {
    assert "Sci-Fi"[0] != "Drama"[0];
  }

  lemma SciFiDramaCategories(a: Book, b: Book, c: Book) returns (cats: Categories)
    requires a.genre == Some("Sci-Fi") && b.genre == Some("Sci-Fi") && c.genre == Some("Drama")
    ensures Categorized(Some([a, b, c])) == Ok(cats)
    ensures cats == Categories(["Sci-Fi", "Drama"], map["Sci-Fi" := [a, b], "Drama" := [c]])
  {
    SampleGenresAreOwn();
    NoThrowOfThree(a, b, c);
    CategorizedNoThrow([a, b, c]);
    assert "Sci-Fi"[0] != "Drama"[0];
    TwoGenresOrder(a, b, c, "Sci-Fi", "Drama");
    TwoGenresBuckets(a, b, c, "Sci-Fi", "Drama");
    assert ThreeBucket(a, b, c, "Sci-Fi") == [a, b] && ThreeBucket(a, b, c, "Drama") == [c];
    cats := Categorized(Some([a, b, c])).value;
  }
}
