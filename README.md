# Bookstore inventory: a Dafny model

This project models the core of a small Go command-line bookstore. Books and their authors live in a Postgres database, reached through GORM. The program lists and searches books, decrements a book's stock on purchase, deletes books, and seeds the catalogue from a semicolon-separated file.

The model has seven modules:

- `GoInt`: Go's 64-bit `int` (with wrap-around) and `strconv.Atoi`. A formatting partner `Itoa` is included for a round-trip proof.
- `Strings`: ASCII case folding, the substring test behind `ILIKE '%q%'`, and `Join`/`Split`.
- `Outcomes`: `Option`, `Result` and the error values.
- `AuthorEntity` and `BookEntity`: the two records, their constructors, `GetFullName` and the table names.
- `BookRepo`: the repository.
  - The Postgres `book` table is a map from id to book.
  - The id sequences are two counters.
  - Read-only queries are functions of the table.
  - `UpdateBookStock`, `DeleteBook`, `FirstOrCreate` and `InsertSampleData` are methods of the class `BookRepository`. Each is tied to a function on a `Store` value (`Saved`, `Deleted`, `FirstOrCreated`, `LoadSampleData`), and the lemmas are stated about those functions.
- `Cli`: `main`'s dispatch over the argument vector as a function to a `Command`, plus the `buyBook`/`deleteBook` handlers and `Run`, which executes a command against the repository.

GORM behaviour that the code relies on is modelled as the library defines it:

- A struct condition drops zero-valued fields. So `Where(Book{Name: ""})` matches every row:
  - `GetBookByName("")` returns the book with the least id.
  - A seed row with an empty name is only inserted into an empty table.
- `FirstOrInit` and `FirstOrCreate` take the matching row with the least primary key.
- When nothing matches, `FirstOrInit` returns a book that has only the condition's name set.
- `Save` creates a book whose id is 0. Otherwise it writes the whole record under the book's id.

Go runtime panics are modelled as outcomes, not excluded by preconditions:

- an empty CSV (`lines[1:]`);
- a CSV row with fewer than eight fields;
- an empty argument vector.

The system's documented intent is stricter than its code in three places, and the model follows the code:

- `UpdateBookStock` does not check that the stock stays non-negative.
- Seeding reports no error to its caller.
- Lookup by name is not an exact match for the empty name.

## Model

| member | source | states |
|---|---|---|
| `GoInt.Dec` | domain/book/repository.go:76 | `StockCount -= 1` lowers the count by one, and wraps from the least `int` to the greatest |
| `GoInt.Atoi` | domain/book/repository.go:109-111 | parsing succeeds exactly on an optional sign followed by digits whose value fits in 64 bits, and then yields that value; text that is not an integer gives 0; a value above or below the 64-bit range gives the greatest or least `int` together with an error, which seeding stores |
| `GoInt.AtoiItoa` | main.go:135-136 | every 64-bit integer written in decimal parses back to itself without error |
| `Strings.ContainsEmpty` | domain/book/repository.go:66-68 | the empty query is a substring of every field |
| `Strings.ContainsFoldIgnoresQueryCase` | domain/book/repository.go:66-68 | folding the query's case never changes whether a field matches |
| `Strings.SplitJoin` | main.go:126 | joining space-free keywords with single spaces and cutting at spaces gives the keywords back |
| `AuthorEntity.NewAuthor` | domain/author/entity.go:15-21 | a new author has id 0 and keeps both names unchanged |
| `AuthorEntity.GetFullName` | domain/author/entity.go:31-33 | the full name is the given name, one space, then the surname; its length is the sum plus one |
| `AuthorEntity.FullNameOfEmptyNames` | domain/author/entity.go:31-33 | two empty names give the full name `" "` |
| `AuthorEntity.FullNameSplits` | domain/author/entity.go:31-33 | if the given name has no space, cutting the full name at its first space recovers both names |
| `BookEntity.NewBook` | domain/book/entity.go:22-35 | a new book has id 0 and author key 0, and stores every argument unchanged |
| `BookEntity.NewBookAcceptsNegativeCounts` | domain/book/entity.go:22-35 | negative page and stock counts are stored as given |
| `BookEntity.TableNames` | domain/book/entity.go:37-39 | books live in table `book` and authors in table `author` |
| `BookRepo.GetAllBooks` | domain/book/repository.go:23-32 | succeeds and lists every stored row, each under its own id, and nothing else |
| `BookRepo.FindAllBooks` | domain/book/repository.go:56-61 | the same rows as `GetAllBooks`, with no error channel |
| `BookRepo.GetBookById` | domain/book/repository.go:34-43 | fails with record-not-found iff no stored book has that id; otherwise returns a stored book with that id |
| `BookRepo.LeastId` | domain/book/repository.go:47 | the first-row choice is a member of the candidate ids and no greater than any of them |
| `BookRepo.FirstByName` | domain/book/repository.go:47 | finds a row iff one matches the name condition, and then the matching row with the least id |
| `BookRepo.GetBookByName` | domain/book/repository.go:45-54 | never fails; if a row matches the name condition, returns the stored matching row with the least id; otherwise exactly the unsaved zero book carrying only the name (`InitBook`) |
| `BookRepo.FindBooksByQuery` | domain/book/repository.go:63-72 | a stored book is in the result iff the query is a case-insensitive substring of its name, stock code or ISBN |
| `BookRepo.EmptyQueryListsAll` | domain/book/repository.go:63-72 | the empty query returns exactly what `GetAllBooks` returns |
| `BookRepo.QueryIgnoresCase` | domain/book/repository.go:63-72 | a query and its lower-cased form find the same books |
| `BookRepo.StockUpdateOfStoredBook` | domain/book/repository.go:74-80 | saving a stored book after the decrement lowers its stock by exactly one, keeps its other fields and every other row, and turns a stock of 0 into -1 |
| `BookRepo.BookRepository.constructor` | domain/book/repository.go:17-21 | the repository starts over the database state it is given |
| `BookRepo.BookRepository.UpdateBookStock` | domain/book/repository.go:74-80 | always returns nil; the caller's copy loses one unit of stock; the whole record is saved under its id (or created when the id is 0); other rows are unchanged |
| `BookRepo.BookRepository.DeleteBook` | domain/book/repository.go:82-86 | always returns nil; afterwards no row has the book's id and every other row is unchanged |
| `BookRepo.BookRepository.FirstOrCreate` | domain/book/repository.go:122 | inserts the book with fresh ids only when no stored row matches its name; returns the least-id row now stored that matches the name |
| `BookRepo.BookRepository.InsertSampleData` | domain/book/repository.go:92-124 | the table and the outcome are those of `LoadSampleData` on the rows read |
| `BookRepo.RowBook` | domain/book/repository.go:109-121 | builds an unsaved book from fields 0-3, 5, 6 and 7 of a row; the page and stock counts are whatever `Atoi` returns with its error ignored: 0 for text that is not an integer, the clamped greatest or least `int` for an out-of-range number, the value otherwise |
| `BookRepo.UnreadableFileChangesNothing` | domain/book/repository.go:93-106 | a file that cannot be opened or read leaves the table unchanged |
| `BookRepo.HeaderIgnored` | domain/book/repository.go:108 | replacing the first (header) row never changes what is loaded |
| `BookRepo.SeedKeepsExisting` | domain/book/repository.go:108-123 | seeding keeps the storage invariant, and every pre-existing row survives unchanged |
| `BookRepo.SeedAddsOnlyUnmatched` | domain/book/repository.go:108-123 | every added row has a name that matched no book stored before the run, and apart from its assigned keys it equals the book built from one of the data rows |
| `BookRepo.SeedAddsDistinctNames` | domain/book/repository.go:108-123 | no two rows added in one run share a name: a later data row with an earlier one's name finds that row instead of inserting |
| `BookRepo.SeedCovers` | domain/book/repository.go:108-123 | after seeding, every data row handled has a stored book matching its name |
| `BookRepo.SeedIdempotent` | domain/book/repository.go:92-124 | loading the same rows a second time yields the same table and the same outcome |
| `BookRepo.DuneExample` | domain/book/repository.go:108-123 | seeding the row `Dune;SK1;978-0;412;15.99;3;Frank;Herbert` gives a book found by name with id 1, 412 pages and stock 3; the full listing, which preloads the author, holds just that row with author `Frank Herbert`; one stock update leaves 2 |
| `Cli.ToLowerSlice` | main.go:106 | every argument is lower-cased and the count is kept |
| `Cli.Dispatch` | main.go:104-160 | no arguments: panic; only the program name: help. After lower-casing: `search` with 3 or more arguments searches for arguments 2.. joined by single spaces, and with 2 reports a missing keyword. `list` always lists. `buy` with other than 4 arguments reports missing arguments; with 4 it reports a type error iff the count does not parse, and otherwise buys (id parsed leniently, count). `delete` with other than 3 arguments reports a missing id; with 3 it reports a type error iff the id does not parse, and otherwise deletes. Any other word: unknown command. Each outcome arises only in these cases |
| `Cli.BuyChecksOnlyCount` | main.go:135-141 | with four arguments, `buy` reaches the handler iff the count parses, whatever the book id is |
| `Cli.BuyWithNonNumericId` | main.go:135-141 | `buy abc 2` calls `buyBook` with book id 0 and count 2 |
| `Cli.SearchQueryWords` | main.go:123-127 | the search query, cut at its spaces, gives back the lower-cased keywords |
| `Cli.BuyBook` | main.go:63-84 | a failed lookup or a refused purchase reports an error and leaves the repository unchanged; otherwise exactly that book's stock is decremented |
| `Cli.DeleteBook` | main.go:86-102 | a failed lookup reports record-not-found and deletes nothing; otherwise exactly that book's row is removed |
| `Cli.Run` | main.go:41-61 | help, list, search and rejected commands leave the repository unchanged; search lists `FindBooksByQuery` of the joined query; list lists `GetAllBooks`. A buy of a missing id reports record-not-found, and a refused one reports the refusal, both with nothing changed; a permitted one completes and replaces exactly that row by its decrement. A delete of a missing id reports record-not-found and changes nothing; otherwise it completes and removes exactly that id |

## Left out

- Database connection, `Migration`/`AutoMigrate` and the `init` wiring (main.go:20-39, domain/book/repository.go:88-90). These are foreign library calls. The table is an in-memory map that never fails, so the storage-error branches of `GetAllBooks`, `GetBookById` and `GetBookByName` cannot be reached.
- `init` passes already-read rows to `InsertSampleData`, which is declared to take a file name. The model takes the reader's outcome as `Option<seq<seq<string>>>`. Opening the file and the CSV reader's quoting and field-count rules are not modelled.
- Preloading of `Author`. Every row embeds its author, and every read returns the stored row. So the difference between `GetAllBooks`/`FindBooksByQuery` (author loaded) and `GetBookById`/`FindAllBooks`/`GetBookByName` (author left zero) is not captured.
- GORM association rules. An author whose fields are all zero is skipped on create, and the foreign-key failure that follows is not modelled; `Inserted` always gives the embedded author a fresh id. `Save` does not upsert the embedded author.
- Soft deletion. `gorm.Model`'s deleted-at column is modelled as hard deletion: a deleted row leaves every later query.
- `Saved`: an explicit-id save of a missing row advances the model's id counter past that id. Postgres does not advance its sequence, so a later insert could collide.
- `Price` and `strconv.ParseFloat` (domain/book/repository.go:110). These are floating point, and the field is dropped. Timestamps are dropped too, since they come from the clock.
- `ToString` on both records, and all console output. Usage messages are kept only as `UsageError` values.
- Result order. SQL without `ORDER BY` promises none, so query results are sets.
- `FindBooksByQuery`: `%`, `_` and `\` in a query are treated literally, whereas `ILIKE` treats them as wildcards or escapes. Case folding covers ASCII letters only, not Postgres's locale rules.
- `Cli.ToLowerSlice`: the source of `helpers.ToLowerSlice` is not part of this model. It is taken to lower-case each argument, ASCII letters only.
- `GoInt.Atoi`: a digit prefix whose value exceeds 2^64 − 1, followed by a non-digit, gives 0 here. Go returns the clamped value with a range error.
- Book and author ids are unbounded naturals here, not 64-bit `uint`.
- `Cli.BuyBook`: `Book.BuyBook` and `BookRepository.UpdateBook` are not part of this model. The purchase check is an arbitrary predicate parameter, and the update is `UpdateBookStock`, so the stock always drops by one, whatever the count.
- `AuthorRepository` is not part of this model.
- Concurrent invocations racing between the stock read and the decrement are out of scope for this sequential model.
