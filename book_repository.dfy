/** `BookRepository` of package `book`, over an in-memory stand-in for the
    Postgres `book` table. Read-only queries are functions of the table;
    operations that write are methods of the class. */
module BookRepo {
  import opened GoInt
  import opened Strings
  import opened Outcomes
  import opened AuthorEntity
  import opened BookEntity

  /** The `book` table: live rows keyed by their primary key. */
  type Table = map<int, Book>

  /** Every row is stored under its own positive id. */
  predicate WellKeyed(books: Table) {
    forall id :: id in books ==> 0 < id && books[id].id == id
  }

  /** The table together with the next values of the book and author id sequences. */
  datatype Store = Store(books: Table, nextId: nat, nextAuthorId: nat)

  /** Storage invariant: well-keyed rows and id sequences ahead of every stored id. */
  predicate StoreValid(s: Store) {
    && WellKeyed(s.books)
    && 0 < s.nextId
    && 0 < s.nextAuthorId
    && forall id :: id in s.books ==> id < s.nextId
  }

  // ---------------------------------------------------------------- queries

  /** The stored rows, as a set. */
  function Rows(books: Table): set<Book> {
    set id | id in books :: books[id]
  }

  lemma RowsAreKeyed(books: Table)
    requires WellKeyed(books)
    ensures forall b :: b in Rows(books) ==> b.id in books && books[b.id] == b
  {
    forall b | b in Rows(books)
      ensures b.id in books && books[b.id] == b
    {
      var k :| k in books && books[k] == b;
    }
  }

  /** `GetAllBooks`: every stored row, once each (the in-memory table never fails). */
  function GetAllBooks(books: Table): (r: Result<set<Book>>)
    requires WellKeyed(books)
    ensures r.Ok?
    ensures forall id :: id in books ==> books[id] in r.value
    ensures forall b :: b in r.value ==> b.id in books && books[b.id] == b
  {
    RowsAreKeyed(books);
    Ok(Rows(books))
  }

  /** `FindAllBooks`: the same rows, with no error channel. */
  function FindAllBooks(books: Table): (r: set<Book>)
    requires WellKeyed(books)
    ensures GetAllBooks(books) == Ok(r)
  {
    Rows(books)
  }

  /** `GetBookById`: the row with that primary key, or `ErrRecordNotFound`. */
  function GetBookById(books: Table, id: int): (r: Result<Book>)
    requires WellKeyed(books)
    ensures r.Err? <==> forall k :: k in books ==> books[k].id != id
    ensures r.Err? ==> r.error == RecordNotFound
    ensures r.Ok? ==> r.value.id == id && r.value in Rows(books)
  {
    if id in books then Ok(books[id]) else Err(RecordNotFound)
  }

  /** The condition `Where(Book{Name: name})`: GORM drops zero-valued struct
      fields from a condition, so the empty name matches every row. */
  predicate NameMatches(b: Book, name: string) {
    name == "" || b.name == name
  }

  predicate HasMatch(books: Table, name: string) {
    exists id :: id in books && NameMatches(books[id], name)
  }

  lemma {:induction false} LeastExists(ids: set<int>)
    requires exists k :: k in ids
    ensures exists m :: m in ids && forall k :: k in ids ==> m <= k
    decreases ids
  {
    var w :| w in ids;
    if exists k :: k in ids && k < w {
      var y :| y in ids && y < w;
      var below := set k | k in ids && k < w;
      assert y in below && w !in below;
      LeastExists(below);
      var m :| m in below && forall k :: k in below ==> m <= k;
      forall k | k in ids
        ensures m <= k
      {
        if k < w {
          assert k in below;
        }
      }
    } else {
      assert forall k :: k in ids ==> w <= k;
    }
  }

  /** The least of a non-empty set of ids (`ORDER BY id LIMIT 1`). */
  function LeastId(ids: set<int>): (m: int)
    requires exists k :: k in ids
    ensures m in ids
    ensures forall k :: k in ids ==> m <= k
  {
    LeastExists(ids);
    var m :| m in ids && forall k :: k in ids ==> m <= k; m
  }

  /** The first row, by primary key, that matches `Where(Book{Name: name})`. */
  function FirstByName(books: Table, name: string): (r: Option<Book>)
    requires WellKeyed(books)
    ensures r.None? <==> !HasMatch(books, name)
    ensures r.Some? ==> r.value.id in books && books[r.value.id] == r.value
    ensures r.Some? ==> NameMatches(r.value, name)
    ensures r.Some? ==> forall id :: id in books && NameMatches(books[id], name) ==> r.value.id <= id
  {
    var hits := set id | id in books && NameMatches(books[id], name);
    assert forall id :: id in books && NameMatches(books[id], name) ==> id in hits;
    if !HasMatch(books, name) then None
    else
      var id := LeastId(hits);
      Some(books[id])
  }

  /** What `FirstOrInit` yields when nothing matches: the zero book with the
      condition's name filled in, not yet stored. */
  function InitBook(name: string): Book {
    Book(0, name, "", "", 0, 0, 0, ZeroAuthor)
  }

  /** `GetBookByName`: the first stored row with that name, otherwise an unsaved
      book carrying only the name; never an error. */
  function GetBookByName(books: Table, name: string): (r: Result<Book>)
    requires WellKeyed(books)
    ensures r.Ok?
    ensures HasMatch(books, name) ==>
      r.value.id in books && books[r.value.id] == r.value && NameMatches(r.value, name)
    ensures HasMatch(books, name) ==>
      forall id :: id in books && NameMatches(books[id], name) ==> r.value.id <= id
    ensures !HasMatch(books, name) ==> r.value == InitBook(name)
  {
    match FirstByName(books, name)
    case Some(b) => Ok(b)
    case None => Ok(InitBook(name))
  }

  /** The three `ILIKE '%query%'` conditions, joined with OR. */
  predicate QueryMatches(b: Book, query: string) {
    ContainsFold(b.name, query) || ContainsFold(b.stockCode, query) || ContainsFold(b.isbn, query)
  }

  /** `FindBooksByQuery`: exactly the stored rows whose name, stock code or ISBN
      contains the query, ignoring case. */
  function FindBooksByQuery(books: Table, query: string): (r: set<Book>)
    ensures forall b :: b in r <==> b in Rows(books) && QueryMatches(b, query)
  {
    set id | id in books && QueryMatches(books[id], query) :: books[id]
  }

  /** The empty query lists every book. */
  lemma EmptyQueryListsAll(books: Table)
    requires WellKeyed(books)
    ensures FindBooksByQuery(books, "") == GetAllBooks(books).value
  {
    forall b | b in Rows(books)
      ensures QueryMatches(b, "")
    {
      ContainsEmpty(LowerAscii(b.name));
    }
  }

  /** Searching is blind to the case of the query. */
  lemma QueryIgnoresCase(books: Table, query: string)
    ensures FindBooksByQuery(books, query) == FindBooksByQuery(books, LowerAscii(query))
  {
    forall b | b in Rows(books)
      ensures QueryMatches(b, query) == QueryMatches(b, LowerAscii(query))
    {
      ContainsFoldIgnoresQueryCase(b.name, query);
      ContainsFoldIgnoresQueryCase(b.stockCode, query);
      ContainsFoldIgnoresQueryCase(b.isbn, query);
    }
  }

  // ------------------------------------------------------- writes, as values

  /** GORM `Create`: the row and its embedded author get the next ids. */
  function Inserted(s: Store, b: Book): Store {
    var row := b.(id := s.nextId, authorId := s.nextAuthorId, author := b.author.(id := s.nextAuthorId));
    Store(s.books[s.nextId := row], s.nextId + 1, s.nextAuthorId + 1)
  }

  /** GORM `Save`: a book without an id is created, otherwise the whole record
      is written under its id (an update, or an insert when the row is gone). */
  function Saved(s: Store, b: Book): Store {
    if b.id == 0 then Inserted(s, b)
    else Store(s.books[b.id := b], if b.id < s.nextId then s.nextId else b.id + 1, s.nextAuthorId)
  }

  /** GORM `Delete` by primary key. */
  function Deleted(s: Store, b: Book): Store {
    Store(s.books - {b.id}, s.nextId, s.nextAuthorId)
  }

  /** `Where(Book{Name: b.Name}).FirstOrCreate(&b)`. */
  function FirstOrCreated(s: Store, b: Book): Store {
    if HasMatch(s.books, b.name) then s else Inserted(s, b)
  }

  /** `book.StockCount -= 1` on the caller's copy. */
  function Decremented(b: Book): Book {
    b.(stockCount := Dec(b.stockCount))
  }

  lemma InsertedValid(s: Store, b: Book)
    requires StoreValid(s)
    ensures StoreValid(Inserted(s, b))
    ensures forall id :: id in s.books ==> id in Inserted(s, b).books && Inserted(s, b).books[id] == s.books[id]
  {
  }

  /** Decrementing a stored book changes its stock and nothing else, and nothing
      stops the stock from going below zero. */
  lemma StockUpdateOfStoredBook(s: Store, b: Book)
    requires StoreValid(s) && b.id in s.books && s.books[b.id] == b
    ensures Saved(s, Decremented(b)).books.Keys == s.books.Keys
    ensures b.stockCount > MinInt ==> Saved(s, Decremented(b)).books[b.id] == b.(stockCount := b.stockCount - 1)
    ensures b.stockCount == 0 ==> Saved(s, Decremented(b)).books[b.id].stockCount == -1
    ensures forall id :: id in s.books && id != b.id ==> Saved(s, Decremented(b)).books[id] == s.books[id]
  {
  }

  // ---------------------------------------------------------------- seeding

  /** The book a CSV row describes: name; stock code; ISBN; page count; price;
      stock count; author name; author surname. Numbers that do not parse are 0. */
  function RowBook(line: seq<string>): (b: Book)
    requires |line| >= 8
    ensures b.id == 0 && b.authorId == 0 && b.author == NewAuthor(line[6], line[7])
    ensures b.name == line[0] && b.stockCode == line[1] && b.isbn == line[2]
    ensures !HasIntSyntax(line[3]) ==> b.pageCount == 0
    ensures !HasIntSyntax(line[5]) ==> b.stockCount == 0
    ensures Atoi(line[3]).ok ==> b.pageCount == DecimalValue(line[3])
    ensures Atoi(line[5]).ok ==> b.stockCount == DecimalValue(line[5])
    ensures b.pageCount == Atoi(line[3]).value && b.stockCount == Atoi(line[5]).value
  {
    NewBook(line[0], line[1], line[2], Atoi(line[3]).value, Atoi(line[5]).value,
            NewAuthor(line[6], line[7]))
  }

  /** How a call of `InsertSampleData` ends. */
  datatype SeedOutcome =
    | Seeded          // every data row was handled
    | FileUnreadable  // the file could not be opened or read; nothing was inserted
    | Crashed         // a Go runtime panic: no rows at all, or a row with fewer than 8 fields

  datatype SeedRun = SeedRun(store: Store, outcome: SeedOutcome)

  /** First-or-create every data row in order; stop at a short row. */
  function SeedRows(s: Store, rows: seq<seq<string>>): SeedRun
    decreases |rows|
  {
    if |rows| == 0 then SeedRun(s, Seeded)
    else if |rows[0]| < 8 then SeedRun(s, Crashed)
    else SeedRows(FirstOrCreated(s, RowBook(rows[0])), rows[1..])
  }

  /** `InsertSampleData` on the outcome of reading the file (`None`: it could
      not be opened or read). The first row is the header and is skipped. */
  function LoadSampleData(s: Store, file: Option<seq<seq<string>>>): SeedRun {
    match file
    case None => SeedRun(s, FileUnreadable)
    case Some(lines) => if |lines| == 0 then SeedRun(s, Crashed) else SeedRows(s, lines[1..])
  }

  /** The header row has no effect on what is loaded. */
  lemma HeaderIgnored(s: Store, h1: seq<string>, h2: seq<string>, rows: seq<seq<string>>)
    ensures LoadSampleData(s, Some([h1] + rows)) == LoadSampleData(s, Some([h2] + rows))
  {
    assert ([h1] + rows)[1..] == rows;
    assert ([h2] + rows)[1..] == rows;
  }

  /** An unreadable file leaves the table as it was. */
  lemma UnreadableFileChangesNothing(s: Store)
    ensures LoadSampleData(s, None) == SeedRun(s, FileUnreadable)
  {
  }

  /** Seeding keeps the storage invariant and leaves every existing row as it was. */
  lemma {:induction false} SeedKeepsExisting(s: Store, rows: seq<seq<string>>)
    requires StoreValid(s)
    ensures StoreValid(SeedRows(s, rows).store)
    ensures forall id :: id in s.books ==>
      id in SeedRows(s, rows).store.books && SeedRows(s, rows).store.books[id] == s.books[id]
    decreases |rows|
  {
    if |rows| > 0 && |rows[0]| >= 8 {
      var b := RowBook(rows[0]);
      var s1 := FirstOrCreated(s, b);
      if !HasMatch(s.books, b.name) {
        InsertedValid(s, b);
      }
      SeedKeepsExisting(s1, rows[1..]);
    }
  }

  /** A row is added only for a data row whose name matched no stored book, and
      apart from the keys storage assigned it carries that data row's fields. */
  lemma {:induction false} SeedAddsOnlyUnmatched(s: Store, rows: seq<seq<string>>)
    requires StoreValid(s)
    ensures var f := SeedRows(s, rows).store.books;
      forall id :: id in f && id !in s.books ==>
        && !HasMatch(s.books, f[id].name)
        && exists j :: 0 <= j < |rows| && |rows[j]| >= 8 && Unsaved(f[id]) == Unsaved(RowBook(rows[j]))
    decreases |rows|
  {
    if |rows| > 0 && |rows[0]| >= 8 {
      var b := RowBook(rows[0]);
      var s1 := FirstOrCreated(s, b);
      var f := SeedRows(s1, rows[1..]).store.books;
      assert f == SeedRows(s, rows).store.books;
      if !HasMatch(s.books, b.name) {
        InsertedValid(s, b);
      }
      SeedAddsOnlyUnmatched(s1, rows[1..]);
      forall id | id in f && id !in s.books
        ensures !HasMatch(s.books, f[id].name)
        ensures exists j :: 0 <= j < |rows| && |rows[j]| >= 8 && Unsaved(f[id]) == Unsaved(RowBook(rows[j]))
      {
        if id in s1.books {
          SeedKeepsExisting(s1, rows[1..]);
          assert id == s.nextId && s1 == Inserted(s, b);
          assert Unsaved(f[id]) == Unsaved(RowBook(rows[0]));
        } else {
          var j :| 0 <= j < |rows[1..]| && |rows[1..][j]| >= 8 && Unsaved(f[id]) == Unsaved(RowBook(rows[1..][j]));
          assert rows[j + 1] == rows[1..][j];
        }
      }
    }
  }

  /** Rows added in one run never share a name: a later data row with the name
      of an earlier one finds the row the earlier one created. */
  lemma {:induction false} SeedAddsDistinctNames(s: Store, rows: seq<seq<string>>)
    requires StoreValid(s)
    ensures var f := SeedRows(s, rows).store.books;
      forall i, j :: i in f && i !in s.books && j in f && j !in s.books && i != j ==> f[i].name != f[j].name
    decreases |rows|
  {
    if |rows| > 0 && |rows[0]| >= 8 {
      var b := RowBook(rows[0]);
      var s1 := FirstOrCreated(s, b);
      var f := SeedRows(s1, rows[1..]).store.books;
      assert f == SeedRows(s, rows).store.books;
      if !HasMatch(s.books, b.name) {
        InsertedValid(s, b);
      }
      SeedAddsDistinctNames(s1, rows[1..]);
      SeedAddsOnlyUnmatched(s1, rows[1..]);
      SeedKeepsExisting(s1, rows[1..]);
      forall i, j | i in f && i !in s.books && j in f && j !in s.books && i != j
        ensures f[i].name != f[j].name
      {
        if i in s1.books && j !in s1.books {
          assert NameMatches(s1.books[i], f[i].name);
        } else if j in s1.books && i !in s1.books {
          assert NameMatches(s1.books[j], f[j].name);
        }
      }
    }
  }

  /** Every data row handled before the run ended has a matching stored book. */
  predicate Matched(books: Table, rows: seq<seq<string>>)
    decreases |rows|
  {
    |rows| == 0 || |rows[0]| < 8 || (HasMatch(books, rows[0][0]) && Matched(books, rows[1..]))
  }

  /** After seeding, every handled data row's name is in the table. */
  lemma {:induction false} SeedCovers(s: Store, rows: seq<seq<string>>)
    requires StoreValid(s)
    ensures Matched(SeedRows(s, rows).store.books, rows)
    decreases |rows|
  {
    if |rows| > 0 && |rows[0]| >= 8 {
      var b := RowBook(rows[0]);
      var s1 := FirstOrCreated(s, b);
      var f := SeedRows(s1, rows[1..]).store;
      if !HasMatch(s.books, b.name) {
        InsertedValid(s, b);
        assert NameMatches(s1.books[s.nextId], b.name);
      }
      assert HasMatch(s1.books, rows[0][0]);
      SeedKeepsExisting(s1, rows[1..]);
      var k :| k in s1.books && NameMatches(s1.books[k], rows[0][0]);
      assert k in f.books && NameMatches(f.books[k], rows[0][0]);
      SeedCovers(s1, rows[1..]);
    }
  }

  /** Rows whose names are all present change nothing. */
  lemma {:induction false} SeedMatchedIsNoop(s: Store, rows: seq<seq<string>>)
    requires Matched(s.books, rows)
    ensures SeedRows(s, rows).store == s
    decreases |rows|
  {
    if |rows| > 0 && |rows[0]| >= 8 {
      SeedMatchedIsNoop(s, rows[1..]);
    }
  }

  /** Whether seeding crashes depends on the rows alone. */
  lemma {:induction false} SeedOutcomeOfRows(s: Store, t: Store, rows: seq<seq<string>>)
    ensures SeedRows(s, rows).outcome == SeedRows(t, rows).outcome
    decreases |rows|
  {
    if |rows| > 0 && |rows[0]| >= 8 {
      SeedOutcomeOfRows(FirstOrCreated(s, RowBook(rows[0])), FirstOrCreated(t, RowBook(rows[0])), rows[1..]);
    }
  }

  /** Loading the same data a second time yields the same table and outcome. */
  lemma SeedIdempotent(s: Store, file: Option<seq<seq<string>>>)
    requires StoreValid(s)
    ensures LoadSampleData(LoadSampleData(s, file).store, file) == LoadSampleData(s, file)
  {
    if file.Some? && |file.value| > 0 {
      var rows := file.value[1..];
      var f := SeedRows(s, rows).store;
      SeedCovers(s, rows);
      SeedMatchedIsNoop(f, rows);
      SeedOutcomeOfRows(f, s, rows);
    }
  }

  /** A seeded row is found by name with its parsed counts, the full listing
      (which preloads the author) shows its author, and one stock update lowers
      its count from 3 to 2. */
  lemma DuneExample()
    ensures
      var header := ["name", "stock code", "isbn", "pages", "price", "stock", "author name", "author surname"];
      var row := ["Dune", "SK1", "978-0", "412", "15.99", "3", "Frank", "Herbert"];
      var s := LoadSampleData(Store(map[], 1, 1), Some([header, row])).store;
      WellKeyed(s.books) &&
      var dune := GetBookByName(s.books, "Dune").value;
      && dune.id == 1 && dune.stockCount == 3 && dune.pageCount == 412
      && 1 in s.books && GetAllBooks(s.books).value == {s.books[1]}
      && (forall b :: b in GetAllBooks(s.books).value ==> GetFullName(b.author) == "Frank Herbert")
      && Saved(s, Decremented(dune)).books[1].stockCount == 2
  {
    var row := ["Dune", "SK1", "978-0", "412", "15.99", "3", "Frank", "Herbert"];
    assert "412"[..2] == "41" && "41"[..1] == "4" && "4"[..0] == "";
    assert DigitsValue("412") == 412;
    assert "3"[..0] == "";
    assert DigitsValue("3") == 3;
    assert IsDigits("412") && IsDigits("3");
    var b := RowBook(row);
    assert b.pageCount == 412 && b.stockCount == 3;
    var s := Inserted(Store(map[], 1, 1), b);
    assert SeedRows(Store(map[], 1, 1), [row]) == SeedRows(s, []);
    assert s.books.Keys == {1};
    assert HasMatch(s.books, "Dune");
  }

  // ------------------------------------------------------------- the class

  /** `BookRepository` with its database handle replaced by the table it reaches. */
  class BookRepository {
    var books: Table
    var nextId: nat
    var nextAuthorId: nat

    function Snapshot(): Store
      reads this
    {
      Store(books, nextId, nextAuthorId)
    }

    ghost predicate Valid()
      reads this
    {
      StoreValid(Snapshot())
    }

    /** `NewBookRepository(db)` over a database in state `s`. */
    constructor (s: Store)
      requires StoreValid(s)
      ensures Valid() && Snapshot() == s
    {
      books := s.books;
      nextId := s.nextId;
      nextAuthorId := s.nextAuthorId;
    }

    /** `UpdateBookStock`: decrements the caller's copy by one and saves the whole
        record; always reports success. */
    method UpdateBookStock(b: Book) returns (saved: Book, err: Option<Error>)
      requires Valid()
      modifies this
      ensures Valid()
      ensures err == None
      ensures Snapshot() == Saved(old(Snapshot()), Decremented(b))
      ensures b.id != 0 ==> saved == Decremented(b) && books == old(books)[b.id := saved]
      ensures b.id != 0 ==> forall id :: id in old(books) && id != b.id ==> id in books && books[id] == old(books)[id]
      ensures b.id == 0 ==> saved == books[old(nextId)] && Unsaved(saved) == Unsaved(Decremented(b))
    {
      var d := Decremented(b);
      if d.id == 0 {
        saved := d.(id := nextId, authorId := nextAuthorId, author := d.author.(id := nextAuthorId));
        books := books[nextId := saved];
        nextId := nextId + 1;
        nextAuthorId := nextAuthorId + 1;
      } else {
        saved := d;
        books := books[d.id := d];
        if d.id >= nextId {
          nextId := d.id + 1;
        }
      }
      err := None;
    }

    /** `DeleteBook`: removes the row with the book's id; always reports success. */
    method DeleteBook(b: Book) returns (err: Option<Error>)
      requires Valid()
      modifies this
      ensures Valid()
      ensures err == None
      ensures Snapshot() == Deleted(old(Snapshot()), b)
      ensures b.id !in books
      ensures forall id :: id in old(books) && id != b.id ==> id in books && books[id] == old(books)[id]
    {
      books := books - {b.id};
      err := None;
    }

    /** One `FirstOrCreate` by name; returns the row now stored for that name. */
    method FirstOrCreate(b: Book) returns (stored: Book)
      requires Valid()
      modifies this
      ensures Valid()
      ensures Snapshot() == FirstOrCreated(old(Snapshot()), b)
      ensures stored.id in books && books[stored.id] == stored && NameMatches(stored, b.name)
      ensures Some(stored) == FirstByName(books, b.name)
    {
      var hit := FirstByName(books, b.name);
      if hit.Some? {
        stored := hit.value;
      } else {
        stored := b.(id := nextId, authorId := nextAuthorId, author := b.author.(id := nextAuthorId));
        books := books[nextId := stored];
        nextId := nextId + 1;
        nextAuthorId := nextAuthorId + 1;
        // the new row is the only one matching the name
        assert forall id :: id in books && NameMatches(books[id], b.name) ==> id == stored.id;
      }
    }

    /** `InsertSampleData` over the rows the CSV reader produced. */
    method InsertSampleData(file: Option<seq<seq<string>>>) returns (outcome: SeedOutcome)
      requires Valid()
      modifies this
      ensures Valid()
      ensures SeedRun(Snapshot(), outcome) == LoadSampleData(old(Snapshot()), file)
    {
      if file.None? {
        return FileUnreadable;
      }
      var lines := file.value;
      if |lines| == 0 {
        return Crashed;
      }
      var i := 1;
      while i < |lines|
        invariant 1 <= i <= |lines|
        invariant Valid()
        invariant SeedRows(Snapshot(), lines[i..]) == SeedRows(old(Snapshot()), lines[1..])
      {
        var line := lines[i];
        if |line| < 8 {
          return Crashed;
        }
        var _ := FirstOrCreate(RowBook(line));
        assert lines[i..][1..] == lines[i + 1..];
        i := i + 1;
      }
      return Seeded;
    }
  }

  /** A stored row with the keys that storage assigned cleared. */
  function Unsaved(b: Book): Book {
    b.(id := 0, authorId := 0, author := b.author.(id := 0))
  }
}
