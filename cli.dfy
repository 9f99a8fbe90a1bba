/** `main.go`: the dispatch of `main` over the argument vector, and the command
    handlers it runs against the book repository. */
module Cli {
  import opened GoInt
  import opened Strings
  import opened Outcomes
  import opened BookEntity
  import opened BookRepo

  /** `helpers.ToLowerSlice`, whose source is not part of this model: every
      argument lower-cased, ASCII letters only. */
  function ToLowerSlice(args: seq<string>): (r: seq<string>)
    ensures |r| == |args|
    ensures forall i :: 0 <= i < |args| ==> r[i] == LowerAscii(args[i])
  {
    seq(|args|, i requires 0 <= i < |args| => LowerAscii(args[i]))
  }

  /** The usage messages `main` prints instead of running a command. */
  datatype UsageError =
    | MissingKeyword       // "Enter a book name to search!"
    | MissingBuyArguments  // "Enter a book id and amount!"
    | MissingDeleteId      // "Enter a book id to delete!"
    | BadParameterType     // "Parameters must be in correct type!"
    | UnknownCommand       // "Unknown command!"

  /** What `main` decides to do with its arguments. */
  datatype Command =
    | Crash                            // no arguments at all: reading the second one panics
    | ShowHelp
    | Search(query: string)
    | List
    | Buy(bookId: Int64, count: Int64)
    | Delete(bookId: Int64)
    | Reject(reason: UsageError)

  /** The commands that reach a handler able to change the repository. */
  predicate TouchesRepository(c: Command) {
    c.Buy? || c.Delete?
  }

  const Commands: seq<string> := ["search", "list", "buy", "delete"]

  /** The dispatch in `main`. The error of parsing the book id is overwritten by
      the error of parsing the count, so only the count is checked. */
  function Dispatch(args: seq<string>): (c: Command)
    ensures c == Crash <==> |args| == 0
    ensures c == ShowHelp <==> |args| == 1
    ensures c == Reject(UnknownCommand) <==> |args| >= 2 && LowerAscii(args[1]) !in Commands
    // search
    ensures |args| == 2 && LowerAscii(args[1]) == "search" ==> c == Reject(MissingKeyword)
    ensures |args| >= 3 && LowerAscii(args[1]) == "search" ==>
      c.Search? && c.query == Join(ToLowerSlice(args)[2..], ' ')
    ensures c.Search? ==> |args| >= 3 && LowerAscii(args[1]) == "search"
    // list
    ensures c == List <==> |args| >= 2 && LowerAscii(args[1]) == "list"
    // buy
    ensures |args| >= 2 && LowerAscii(args[1]) == "buy" && |args| != 4 ==> c == Reject(MissingBuyArguments)
    ensures |args| == 4 && LowerAscii(args[1]) == "buy" && !Atoi(LowerAscii(args[3])).ok ==>
      c == Reject(BadParameterType)
    ensures |args| == 4 && LowerAscii(args[1]) == "buy" && Atoi(LowerAscii(args[3])).ok ==>
      c == Buy(Atoi(LowerAscii(args[2])).value, Atoi(LowerAscii(args[3])).value)
    ensures c.Buy? ==> |args| == 4 && LowerAscii(args[1]) == "buy"
    // delete
    ensures |args| >= 2 && LowerAscii(args[1]) == "delete" && |args| != 3 ==> c == Reject(MissingDeleteId)
    ensures |args| == 3 && LowerAscii(args[1]) == "delete" && !Atoi(LowerAscii(args[2])).ok ==>
      c == Reject(BadParameterType)
    ensures |args| == 3 && LowerAscii(args[1]) == "delete" && Atoi(LowerAscii(args[2])).ok ==>
      c == Delete(Atoi(LowerAscii(args[2])).value)
    ensures c.Delete? ==> |args| == 3 && LowerAscii(args[1]) == "delete"
  {
    var a := ToLowerSlice(args);
    if |a| == 1 then ShowHelp
    else if |a| == 0 then Crash
    else if a[1] == "search" then
      if |a| < 3 then Reject(MissingKeyword) else Search(Join(a[2..], ' '))
    else if a[1] == "list" then List
    else if a[1] == "buy" then
      if |a| != 4 then Reject(MissingBuyArguments)
      else
        var bookId := Atoi(a[2]);
        var count := Atoi(a[3]);
        if !count.ok then Reject(BadParameterType) else Buy(bookId.value, count.value)
    else if a[1] == "delete" then
      if |a| != 3 then Reject(MissingDeleteId)
      else
        var bookId := Atoi(a[2]);
        if !bookId.ok then Reject(BadParameterType) else Delete(bookId.value)
    else Reject(UnknownCommand)
  }

  /** With four arguments, `buy` reaches the handler exactly when the count
      parses, whatever the book id is. */
  lemma BuyChecksOnlyCount(args: seq<string>)
    requires |args| == 4 && LowerAscii(args[1]) == "buy"
    ensures Dispatch(args).Buy? <==> Atoi(LowerAscii(args[3])).ok
  {
  }

  /** A book id that is not a number reaches the handler as id 0. */
  lemma BuyWithNonNumericId()
    ensures Dispatch(["bookstore", "buy", "abc", "2"]) == Buy(0, 2)
  {
    var args := ["bookstore", "buy", "abc", "2"];
    var a := ToLowerSlice(args);
    assert a[1] == "buy";
    assert a[2] == "abc";
    assert a[3] == "2";
    assert !IsDigit("abc"[0]);
    assert !HasIntSyntax("abc");
    assert IsDigits("2") && DigitsValue("2") == 2;
  }

  lemma LowerAsciiKeepsSpaceOut(s: string)
    requires ' ' !in s
    ensures ' ' !in LowerAscii(s)
  {
  }

  /** The search query holds the lower-cased keywords joined by single spaces:
      when no keyword contains a space, cutting the query at its spaces gives
      the keywords back. */
  lemma SearchQueryWords(args: seq<string>)
    requires |args| >= 3 && LowerAscii(args[1]) == "search"
    requires forall i :: 2 <= i < |args| ==> ' ' !in args[i]
    ensures Dispatch(args).Search?
    ensures Split(Dispatch(args).query, ' ') == ToLowerSlice(args)[2..]
  {
    var words := ToLowerSlice(args)[2..];
    forall k | 0 <= k < |words|
      ensures ' ' !in words[k]
    {
      LowerAsciiKeepsSpaceOut(args[k + 2]);
    }
    SplitJoin(words, ' ');
  }

  /** What a handler reports once it has printed its message. */
  datatype Report = Completed | Failed(error: Error)

  /** `buyBook`. The book's own purchase check (`Book.BuyBook`, whose source is
      not part of this model) is the parameter `purchaseAllowed`; the update
      (`UpdateBook`, likewise not part of this model) is `UpdateBookStock`. */
  method BuyBook(repo: BookRepository, bookId: int, count: int, purchaseAllowed: (Book, int) -> bool)
    returns (report: Report)
    requires repo.Valid()
    modifies repo
    ensures repo.Valid()
    ensures var found := GetBookById(old(repo.books), bookId);
      found.Err? ==> report == Failed(RecordNotFound) && unchanged(repo)
    ensures var found := GetBookById(old(repo.books), bookId);
      found.Ok? && !purchaseAllowed(found.value, count) ==>
        report == Failed(PurchaseRejected) && unchanged(repo)
    ensures var found := GetBookById(old(repo.books), bookId);
      found.Ok? && purchaseAllowed(found.value, count) ==>
        && report == Completed
        && repo.books == old(repo.books)[bookId := Decremented(found.value)]
        && repo.nextId == old(repo.nextId) && repo.nextAuthorId == old(repo.nextAuthorId)
  {
    var found := GetBookById(repo.books, bookId);
    if found.Err? {
      return Failed(found.error);
    }
    if !purchaseAllowed(found.value, count) {
      return Failed(PurchaseRejected);
    }
    var _, _ := repo.UpdateBookStock(found.value);
    report := Completed;
  }

  /** `deleteBook`: removes the book only when the lookup by id finds it. */
  method DeleteBook(repo: BookRepository, bookId: int) returns (report: Report)
    requires repo.Valid()
    modifies repo
    ensures repo.Valid()
    ensures GetBookById(old(repo.books), bookId).Err? ==>
      report == Failed(RecordNotFound) && unchanged(repo)
    ensures GetBookById(old(repo.books), bookId).Ok? ==>
      && report == Completed
      && repo.books == old(repo.books) - {bookId}
      && repo.nextId == old(repo.nextId) && repo.nextAuthorId == old(repo.nextAuthorId)
  {
    var found := GetBookById(repo.books, bookId);
    if found.Err? {
      return Failed(found.error);
    }
    var _ := repo.DeleteBook(found.value);
    report := Completed;
  }

  /** What one invocation shows. */
  datatype Output =
    | Help
    | Listing(books: set<Book>)
    | Outcome(report: Report)
    | Rejected(reason: UsageError)
    | Panic

  /** `main`: dispatch, then run the chosen handler. Only `buy` and `delete` can
      change the repository, and a failed one leaves it as it was. */
  method Run(repo: BookRepository, args: seq<string>, purchaseAllowed: (Book, int) -> bool)
    returns (out: Output)
    requires repo.Valid()
    modifies repo
    ensures repo.Valid()
    ensures !TouchesRepository(Dispatch(args)) ==> unchanged(repo)
    ensures Dispatch(args) == ShowHelp ==> out == Help
    ensures Dispatch(args) == Crash ==> out == Panic
    ensures Dispatch(args).Reject? ==> out == Rejected(Dispatch(args).reason)
    ensures Dispatch(args).Search? ==> out == Listing(FindBooksByQuery(repo.books, Dispatch(args).query))
    ensures Dispatch(args) == List ==> out == Listing(GetAllBooks(repo.books).value)
    ensures TouchesRepository(Dispatch(args)) ==> out.Outcome? && (out.report.Failed? ==> unchanged(repo))
    ensures Dispatch(args).Buy? ==>
      var c := Dispatch(args);
      var found := GetBookById(old(repo.books), c.bookId);
      && (found.Err? ==> out == Outcome(Failed(RecordNotFound)))
      && (found.Ok? && !purchaseAllowed(found.value, c.count) ==> out == Outcome(Failed(PurchaseRejected)))
      && (found.Ok? && purchaseAllowed(found.value, c.count) ==>
            && out == Outcome(Completed)
            && repo.books == old(repo.books)[c.bookId := Decremented(found.value)]
            && repo.nextId == old(repo.nextId) && repo.nextAuthorId == old(repo.nextAuthorId))
    ensures Dispatch(args).Delete? ==>
      var c := Dispatch(args);
      var found := GetBookById(old(repo.books), c.bookId);
      && (found.Err? ==> out == Outcome(Failed(RecordNotFound)))
      && (found.Ok? ==>
            && out == Outcome(Completed)
            && repo.books == old(repo.books) - {c.bookId}
            && repo.nextId == old(repo.nextId) && repo.nextAuthorId == old(repo.nextAuthorId))
  {
    match Dispatch(args)
    case Crash =>
      out := Panic;
    case ShowHelp =>
      out := Help;
    case Search(query) =>
      out := Listing(FindBooksByQuery(repo.books, query));
    case List =>
      out := Listing(GetAllBooks(repo.books).value);
    case Buy(bookId, count) =>
      var report := BuyBook(repo, bookId, count, purchaseAllowed);
      out := Outcome(report);
    case Delete(bookId) =>
      var report := DeleteBook(repo, bookId);
      out := Outcome(report);
    case Reject(reason) =>
      out := Rejected(reason);
  }
}
