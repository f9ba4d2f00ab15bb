# Books screen: genre grouping and screen selection

A Dafny model of the `Books` screen of a React Native book catalogue
(`Books.tsx`). The screen fetches a list of books and groups them by genre into
a plain object `categorized`. It then renders one of three screens:

- a spinner while the query is loading or refetching;
- an error panel with a "Try Again" button when the query failed or returned no
  books;
- otherwise a top-tab navigator with one tab per key of `categorized`, opening
  on the first key.

Each tab shows its books, or the text "No books to show here" when it has none.

Files:

- `wrappers.dfy` defines `Option` and `Result`.
- `book.dfy` (module `BookData`) defines the `Book` record. `HasGenre` and
  `InGenre` say when a genre is truthy (the test `if (cur.genre)`). It also
  lists the names that a plain object `{}` inherits from `Object.prototype`,
  and `HitsPrototype` says when a book's truthy genre is one of them.
- `object_keys.dfy` (module `ObjectKeyOrder`) defines the order of
  `Object.keys`, from the ECMAScript abstract operation
  OrdinaryOwnPropertyKeys. Keys that are array indices (canonical decimal
  integers from 0 to 2^32 - 2) come first, in ascending numeric order. The
  other keys follow in the order they were created.
- `grouping.dfy` (module `Grouping`) models the `reduce` that fills
  `categorized`.
  - The method `Categorize` is a loop over the books. It keeps the
    accumulator's keys, in creation order, and the array under each key in
    local variables. It creates a key the first time a genre is seen and
    appends to the key's array afterwards.
  - `Categorize` is proved equal to the function `Categorized`. That function
    is built from independent reference definitions:
    - `GenreOrder`: the distinct genres at their first occurrence;
    - `Bucket`: the books of one genre, in input order;
    - `FirstThrow`: the first book whose `push` throws.
  - The lemmas prove the grouping's promises from those definitions.
- `screen.dfy` (module `BooksScreen`) models the render.
  - `Render` maps `(isLoading, isRefetching, error, books)` to a `Screen`:
    `Fetching`, `FetchError`, or `Tabs` with an initial route and a list of
    routes.
  - `TabContent` is the placeholder test in `TabComponent`.

Behaviour of the code that the model keeps:

- **Inherited names.** A genre that names a member every plain object
  inherits, such as `"toString"`, `"constructor"` or `"__proto__"`, makes
  `prev?.[cur.genre]` truthy on an object that has no such own key. The
  following `.push` is then not a function, and the `useMemo` callback throws a
  `TypeError`. The model keeps this as an error result (`Err(PushOnInherited(i,
  genre))` for the first such book `i`). It does not exclude such genres by a
  precondition. `categorized` is computed before the loading/error branch, so
  the whole render throws, whatever the query state.
- **Tab order.** The tabs follow `Object.keys`, not the order in which genres
  first occur. For genres that are not array indices the two orders agree
  (`TabsInFirstOccurrenceOrder`). A genre such as `"1984"` or `"451"` is
  listed before every other genre, and such genres come in numeric order
  (`ObjectKeysExample`). For such genres the tab order therefore differs from
  the order in which genres first occur.
- **Books without a genre.** A non-empty book list in which no book has a
  truthy genre passes the "no books" test. It renders the navigator with no tab
  and no initial route (`UngenredBooksGiveNoTabs`).

## Model

| member | source | states |
|---|---|---|
| Grouping.Categorize | Books.tsx:71-86 | The loop that creates a key on a genre's first book and pushes later books returns exactly `Categorized(books)`: the first occurrences with their buckets, or the `TypeError` of the first book whose genre is an inherited name |
| Grouping.Categorized | Books.tsx:71-86 | On success, a genre has a bucket exactly when it is among the object's keys |
| Grouping.GenreOrder | Books.tsx:75-79 | The keys created by the `reduce`: no key is ever the empty string, since a falsy genre creates none; which genres are listed, once each and in first-occurrence order, is stated by `GenreOrderListsGenres`, `GenreOrderDistinct` and `GenreOrderFirstOccurrence` |
| Grouping.ListedGenresAreOwn | Books.tsx:76-79 | Once no earlier book has thrown, every key of the accumulator is an own key that is not an inherited name, so `prev?.[cur.genre]` reaches an inherited member exactly for a book with such a genre |
| Grouping.FirstThrow | Books.tsx:76-77 | `None` exactly when no book's truthy genre is an inherited name; otherwise the least index of such a book |
| Grouping.Bucket | Books.tsx:74-81 | Every book in a genre's bucket has that genre, and a bucket is never longer than the input |
| Grouping.Genred | Books.tsx:75 | Every book kept has a truthy genre, and the result is no longer than the input |
| Grouping.BucketMap | Books.tsx:76-80 | The genres with a bucket are exactly the genres listed at their first occurrence |
| Grouping.BucketMapSnoc | Books.tsx:75-80 | One reduce step: a book without a genre changes nothing; a book of a known genre is appended to that bucket; a book of a new genre adds the key last, with a one-book bucket |
| Grouping.BucketNonEmptyIff | Books.tsx:76-79 | A genre's bucket is non-empty exactly when the genre is a key |
| Grouping.GenreOrderListsGenres | Books.tsx:75-79 | A genre is a key exactly when some book has it as its truthy genre |
| Grouping.GenreOrderDistinct | Books.tsx:76-79 | No genre is a key twice |
| Grouping.GenreOrderFirstOccurrence | Books.tsx:76-79 | Keys are in first-occurrence order: every book of a later key comes after some book of each earlier key |
| Grouping.BookInOwnBucket | Books.tsx:77-79 | A book of genre `g` sits in `g`'s bucket at the position given by the number of books of `g` before it |
| Grouping.BucketKeepsInputOrder | Books.tsx:77 | Of two books of one genre, the earlier one has the lower position in the bucket |
| Grouping.BucketAppend | Books.tsx:74-83 | The bucket of a concatenation is the concatenation of the buckets |
| Grouping.BucketsPartitionGenred | Books.tsx:74-83 | The buckets, concatenated in key order, are a permutation of the books that have a genre |
| Grouping.CategorizedEmptyInput | Books.tsx:72-73 | Undefined or empty `books` give the empty object |
| Grouping.CategorizedOk | Books.tsx:71-86 | A successful grouping of a book list is its first occurrences and their buckets, and no book throws |
| Grouping.CategorizedNoThrow | Books.tsx:71-86 | When no book throws, a non-empty list groups to its first occurrences and their buckets |
| Grouping.CategorizedThrows | Books.tsx:76-77 | The grouping throws exactly when some book's truthy genre is an inherited name; the error names the first such book and its genre |
| Grouping.CategorizedKeys | Books.tsx:76-79 | The keys are distinct, they are exactly the truthy genres of the books, they are in first-occurrence order, and no bucket is empty |
| Grouping.UngenredBookInNoBucket | Books.tsx:75 | A book whose genre is absent or empty is in no bucket |
| Grouping.GenredBookInOwnBucket | Books.tsx:74-81 | A book with a truthy genre is in its own genre's bucket, at its position among that genre's books, and in no other bucket |
| Grouping.CategorizedKeepsInputOrder | Books.tsx:77 | Within a bucket, books keep their relative input order |
| Grouping.CategorizedPartition | Books.tsx:74-83 | The buckets in key order are a permutation of the books with a truthy genre, and the bucket sizes add up to their number |
| Grouping.TwoGenresOrder | Books.tsx:75-79 | Three books of two truthy genres, the first book's genre first: the keys are that genre, then the other |
| Grouping.TwoGenresBuckets | Books.tsx:75-79 | Three books of two truthy genres: one array per genre, holding its books in input order |
| Grouping.FirstOccurrenceExample | Books.tsx:76-79 | Genres Fiction, Drama, Fiction give the keys Fiction, Drama with buckets `[a, c]` and `[b]` |
| ObjectKeyOrder.IndexKeys | Books.tsx:150 | Every key it keeps is an array index |
| ObjectKeyOrder.NamedKeys | Books.tsx:150 | No key it keeps is an array index |
| ObjectKeyOrder.InsertByIndex | Books.tsx:150 | Inserting an array index into an ascending run keeps it ascending and adds exactly that key |
| ObjectKeyOrder.SortByIndex | Books.tsx:150 | The array-index keys come out in ascending numeric order, as a permutation of the input |
| ObjectKeyOrder.SplitKeysPermutation | Books.tsx:150 | The array-index keys and the other keys together are the object's keys |
| ObjectKeyOrder.ObjectKeys | Books.tsx:150 | `Object.keys` lists every own key exactly as often as it exists, and nothing else |
| ObjectKeyOrder.ObjectKeysLayout | Books.tsx:150 | `Object.keys` is an ascending run of array indices followed by the remaining keys in creation order, none of them an array index |
| ObjectKeyOrder.ObjectKeysOfNamedKeys | Books.tsx:150 | With no array-index key, `Object.keys` gives the keys in creation order |
| ObjectKeyOrder.NamedKeysOfNamedKeys | Books.tsx:150 | With no array-index key, nothing is moved to the front and every key stays in place |
| ObjectKeyOrder.ObjectKeysDistinct | Books.tsx:150 | Distinct own keys give distinct `Object.keys` entries |
| ObjectKeyOrder.NumericGenresAreIndices | Books.tsx:150 | "1984" and "451" are array indices with the values 1984 and 451 |
| ObjectKeyOrder.ObjectKeysExample | Books.tsx:150 | Keys created as Fiction, 1984, Drama, 451 are listed as 451, 1984, Fiction, Drama |
| BooksScreen.TabContent | Books.tsx:31 | The placeholder shows exactly when `books` is undefined or empty; otherwise the list shows exactly the given books |
| BooksScreen.TabRoutes | Books.tsx:150-157 | One route per key, in key order, each named by its key and given that key's books and the `isLoading` flag |
| BooksScreen.TabsOfNamedKeys | Books.tsx:126-157 | With no array-index key, the routes follow the keys' creation order and the initial route is the first key |
| BooksScreen.RenderThrows | Books.tsx:71-91 | The render throws exactly when some book's truthy genre is an inherited name, whatever the query state |
| BooksScreen.Render | Books.tsx:71-91 | The render fails exactly when grouping fails; otherwise the spinner exactly while loading or refetching, the error panel exactly when neither but the query failed or gave no books, and the tabs exactly in the remaining case, built from `categorized` with `isLoading` false |
| BooksScreen.TabsOf | Books.tsx:124-157 | One route per `Object.keys` entry of `categorized`, in that order and as many as there are keys, each given that key's array and the `isLoading` flag; the initial route is the first entry, or none without keys |
| BooksScreen.TabsFollowObjectKeys | Books.tsx:124-157 | The tabs are the `Object.keys` of `categorized`, one per key, with distinct names that are exactly the books' truthy genres; the initial route is the first tab; each tab gets its key's non-empty bucket, so no tab shows the placeholder, and none is told it is loading |
| BooksScreen.KeysAreGenres | Books.tsx:150 | The `Object.keys` entries are distinct and are exactly the truthy genres of the books |
| BooksScreen.TabsInFirstOccurrenceOrder | Books.tsx:126 | When no genre is an array index, the tabs follow first occurrence and the initial tab is the genre of the first book that has one |
| BooksScreen.FirstGenreLeads | Books.tsx:126 | The first key is the genre of the first book that has a truthy genre |
| BooksScreen.NoGenreNoKeys | Books.tsx:75 | Books with no truthy genre create no key |
| BooksScreen.UngenredBooksGiveNoTabs | Books.tsx:88-157 | A non-empty list of books without genres renders the navigator with no tab and no initial route |
| BooksScreen.SciFiDramaScenario | Books.tsx:124-157 | Two Sci-Fi books and a Drama book give the tabs Sci-Fi (both Sci-Fi books) and Drama, opening on Sci-Fi |

## Left out

- Fetching the books (`getBooks`, which `fetchBooks` wraps in `useQuery`) and the write operations `createBook`, `updateBook` and `deleteBook` in hooks/useBooks.ts are Supabase network calls. `isLoading`, `isRefetching`, `error` and `books` are parameters of `Render`.
- What the tab navigator library renders for a navigator with zero screens (Books.tsx:124-157 with no key) is not modelled. `UngenredBooksGiveNoTabs` states only the element `Books` returns: a `Tab.Navigator` with no `Tab.Screen` and no initial route.
- `refetch`: the "Try Again" button is the `FetchError` screen. What the button triggers is library behaviour.
- `error` is modelled only by whether it is truthy, since that is all the branch at Books.tsx:88 reads.
- The `Date.parse(publishedDate)/1000` conversion (hooks/useBooks.ts:30) is a foreign date parser with a floating-point result. `publishedDate` is kept as the string the screen displays.
- `useMemo` memoisation (Books.tsx:86) is a re-render contract of React. The grouping it guards is deterministic.
- App.tsx (providers, navigation container, status bar), styles, colours, `FlatList` rendering and `keyExtractor` are UI wiring. A tab's content is modelled as `Placeholder` or `BookList(items)`.
- Genre values other than strings, `undefined` and `null` (numbers, objects) are outside the `Book` type and are not modelled. The empty string is modelled as falsy.
- The inherited-name list is the set of `Object.prototype` members of a standard ECMAScript environment. Members that a particular runtime adds are not modelled.
