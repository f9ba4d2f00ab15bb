/** The `Book` record shared by the screen and the data hooks (hooks/useBooks.ts). */
module BookData {
  import opened Wrappers

  /** A book as the screen receives it. `genre` is optional: `None` stands for `undefined` or `null`. */
  datatype Book = Book(
    id: Option<int>,
    title: string,
    author: string,
    publishedDate: string,
    genre: Option<string>)

  /** `if (cur.genre)`: an absent genre and the empty string are falsy, every other string is truthy. */
  predicate HasGenre(b: Book) {
    b.genre.Some? && b.genre.value != ""
  }

  /** `b` has the truthy genre `g`. */
  predicate InGenre(b: Book, g: string) {
    b.genre == Some(g) && g != ""
  }

  /**
   * The property names every plain object `{}` inherits from `Object.prototype`.
   * Reading one of them on the accumulator yields a function (or, for `__proto__`,
   * the prototype object itself): truthy, and without a `push` method.
   */
  const ObjectPrototypeNames: set<string> := {
    "constructor", "hasOwnProperty", "isPrototypeOf", "propertyIsEnumerable",
    "toLocaleString", "toString", "valueOf", "__proto__",
    "__defineGetter__", "__defineSetter__", "__lookupGetter__", "__lookupSetter__"
  }

  /** Grouping this book makes `prev?.[cur.genre].push(cur)` run on an inherited member and throw. */
  predicate HitsPrototype(b: Book) {
    HasGenre(b) && b.genre.value in ObjectPrototypeNames
  }
}
