/** The `Author` record of package `author`. */
module AuthorEntity {
  import opened Strings

  /** An author row; `id` is 0 until storage assigns one. Timestamps are not modelled. */
  datatype Author = Author(id: nat, name: string, surname: string)

  /** The zero value of the Go struct. */
  const ZeroAuthor: Author := Author(0, "", "")

  /** `NewAuthor`: an unsaved author holding the two names as given. */
  function NewAuthor(name: string, surname: string): (a: Author)
    ensures a.id == 0
    ensures a.name == name && a.surname == surname
  {
    Author(0, name, surname)
  }

  function TableName(): string {
    "author"
  }

  /** `GetFullName`: the given name, one space, the surname. */
  function GetFullName(a: Author): (r: string)
    ensures |r| == |a.name| + |a.surname| + 1
    ensures r[..|a.name|] == a.name
    ensures r[|a.name|] == ' '
    ensures r[|a.name| + 1..] == a.surname
  {
    a.name + " " + a.surname
  }

  /** Two empty names still give a one-character full name. */
  lemma FullNameOfEmptyNames()
    ensures GetFullName(NewAuthor("", "")) == " "
  {
  }

  /** When the given name has no space, the full name splits back at its first space. */
  lemma FullNameSplits(a: Author)
    requires ' ' !in a.name
    ensures SplitFirst(GetFullName(a), ' ') == (a.name, a.surname)
  {
    IndexOfAfter(a.name, ' ', a.surname);
  }
}
