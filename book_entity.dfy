/** The `Book` record of package `book`. */
module BookEntity {
  import opened GoInt
  import opened AuthorEntity

  /** A book row. `id` and `authorId` are 0 until storage assigns them; `author`
      is the embedded author record. Price and timestamps are not modelled. */
  datatype Book = Book(
    id: nat,
    name: string,
    stockCode: string,
    isbn: string,
    pageCount: Int64,
    stockCount: Int64,
    authorId: nat,
    author: Author)

  /** `NewBook`: an unsaved book that stores every argument unchanged. Only the
      embedded author is set, so the author key stays 0; no count is checked. */
  function NewBook(name: string, stockCode: string, isbn: string,
                   pageCount: Int64, stockCount: Int64, author: Author): (b: Book)
    ensures b.id == 0 && b.authorId == 0
    ensures b.name == name && b.stockCode == stockCode && b.isbn == isbn
    ensures b.pageCount == pageCount && b.stockCount == stockCount
    ensures b.author == author
  {
    Book(0, name, stockCode, isbn, pageCount, stockCount, 0, author)
  }

  function TableName(): string {
    "book"
  }

  /** Negative counts are stored as given. */
  lemma NewBookAcceptsNegativeCounts(a: Author)
    ensures NewBook("x", "s", "i", -1, -5, a).pageCount == -1
    ensures NewBook("x", "s", "i", -1, -5, a).stockCount == -5
  {
  }

  /** The two record types live in the tables `book` and `author`. */
  lemma TableNames()
    ensures TableName() == "book"
    ensures AuthorEntity.TableName() == "author"
    ensures TableName() != AuthorEntity.TableName()
  {
  }
}
