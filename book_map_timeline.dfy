/** The book timeline that keeps, for each year, the list of books suggested
    for it, and colours each book by an additive hash of its author. */
module BookMapTimeline {
  import opened Js
  import opened Seqs

  const StartYear := 1999
  const EndYear := 2025

  /** Every year from `StartYear` to `EndYear`, both included. */
  function Years(): (r: seq<int>)
    ensures |r| == 27 && r[0] == 1999 && r[|r| - 1] == 2025
    ensures forall i :: 0 < i < |r| ==> r[i] == r[i - 1] + 1
  {
    seq(EndYear - StartYear + 1, i => StartYear + i)
  }

  /** A year is shown exactly when it lies between 1999 and 2025. */
  lemma YearsSpan(y: int)
    ensures y in Years() <==> 1999 <= y <= 2025
  {
    if StartYear <= y <= EndYear {
      assert Years()[y - StartYear] == y;
    }
  }

  /** The seven colours of `getAuthorColor`, in the order the source lists them. */
  const AuthorPalette: seq<string> := [
    "bg-blue-500", "bg-green-500", "bg-yellow-500", "bg-purple-500",
    "bg-pink-500", "bg-red-500", "bg-indigo-500"
  ]

  /** The author hash: the sum of the author's code units, accumulated from
      the left starting at 0. It is 0 for the empty author and at most 0xFFFF
      per code unit. */
  function AuthorHash(author: JsString): (h: nat)
    ensures author == [] ==> h == 0
    ensures h <= 0xFFFF * |author|
  {
    if author == [] then 0
    else author[|author| - 1] + AuthorHash(author[..|author| - 1])
  }

  /** getAuthorColor: the palette entry at the hash modulo the palette size. */
  function AuthorColor(author: JsString): (c: string)
    ensures c in AuthorPalette
    ensures author == [] ==> c == "bg-blue-500"
  {
    AuthorPalette[AuthorHash(author) % |AuthorPalette|]
  }

  /** The hash of a concatenation is the sum of the hashes. */
  lemma {:induction false} AuthorHashAppend(a: JsString, b: JsString)
    ensures AuthorHash(a + b) == AuthorHash(a) + AuthorHash(b)
    decreases |b|
  {
    if b == [] {
      assert a + b == a;
    } else {
      var b' := b[..|b| - 1];
      assert (a + b)[..|a + b| - 1] == a + b';
      AuthorHashAppend(a, b');
    }
  }

  /** The hash ignores order: authors with the same code units, counted with
      multiplicity, hash alike. */
  lemma {:induction false} AuthorHashIgnoresOrder(a: JsString, b: JsString)
    requires multiset(a) == multiset(b)
    ensures AuthorHash(a) == AuthorHash(b)
    decreases |a|
  {
    if a != [] {
      var a', x := a[..|a| - 1], a[|a| - 1];
      assert a == a' + [x];
      assert x in multiset(b);
      var j :| 0 <= j < |b| && b[j] == x;
      var rest := b[..j] + b[j + 1..];
      assert b == b[..j] + [x] + b[j + 1..];
      assert multiset(a) == multiset(a') + multiset{x};
      assert multiset(b) == multiset(b[..j]) + multiset{x} + multiset(b[j + 1..]);
      assert multiset(rest) == multiset(b[..j]) + multiset(b[j + 1..]);
      assert multiset(a') == multiset(a) - multiset{x};
      assert multiset(rest) == multiset(b) - multiset{x};
      AuthorHashIgnoresOrder(a', rest);
      AuthorHashAppend(a', [x]);
      AuthorHashAppend(b[..j], b[j + 1..]);
      AuthorHashAppend(b[..j], [x]);
      AuthorHashAppend(b[..j] + [x], b[j + 1..]);
      assert [x][..0] == [];
    }
  }

  /** Anagrams of an author's name get the author's colour. */
  lemma AnagramsShareColor(a: JsString, b: JsString)
    requires multiset(a) == multiset(b)
    ensures AuthorColor(a) == AuthorColor(b)
  {
    AuthorHashIgnoresOrder(a, b);
  }

  /** A stored book: the form's fields plus the `Date.now()` id. */
  datatype Book = Book(title: JsString, author: JsString, name: JsString, id: int)

  /** The form's `formData` value. */
  datatype BookForm = BookForm(title: JsString, author: JsString, name: JsString)

  const EmptyForm := BookForm([], [], [])

  /** The submit guard: title, author and name are all non-empty. */
  predicate Filled(title: JsString, author: JsString, name: JsString) {
    Truthy(title) && Truthy(author) && Truthy(name)
  }

  /** A year's list; a year without a key has the empty list. */
  function BooksIn(books: map<int, seq<Book>>, year: int): seq<Book> {
    if year in books then books[year] else []
  }

  /** The new map of handleSubmit: a copy of `books` whose entry for `year` is
      the old list (or the empty one) with `book` appended. */
  function AddBook(books: map<int, seq<Book>>, year: int, book: Book): (r: map<int, seq<Book>>)
    ensures r.Keys == books.Keys + {year}
    ensures BooksIn(r, year) == BooksIn(books, year) + [book]
    ensures forall y :: y != year ==> BooksIn(r, y) == BooksIn(books, y)
  {
    books[year := BooksIn(books, year) + [book]]
  }

  /** A successful submission: the year of the form and the stored book. */
  datatype Placed = Placed(year: int, book: Book)

  /** The map built by applying the submissions of `log` in order to `{}`. */
  function Grouped(log: seq<Placed>): map<int, seq<Book>> {
    if log == [] then map[]
    else
      var last := log[|log| - 1];
      AddBook(Grouped(log[..|log| - 1]), last.year, last.book)
  }

  function PlacedIn(year: int): Placed -> bool {
    (p: Placed) => p.year == year
  }

  function BooksOf(ps: seq<Placed>): seq<Book> {
    if ps == [] then [] else BooksOf(ps[..|ps| - 1]) + [ps[|ps| - 1].book]
  }

  /** The per-year map is the stable per-year filter of all submissions: each
      year holds exactly the books submitted for it, in submission order. */
  lemma {:induction false} GroupedIsPerYearFilter(log: seq<Placed>, year: int)
    ensures BooksIn(Grouped(log), year) == BooksOf(Filter(log, PlacedIn(year)))
  {
    if log != [] {
      var prefix, last := log[..|log| - 1], log[|log| - 1];
      assert log == prefix + [last];
      GroupedIsPerYearFilter(prefix, year);
      assert Grouped(log) == AddBook(Grouped(prefix), last.year, last.book);
      FilterSnoc(prefix, last, PlacedIn(year));
      var kept := Filter(prefix, PlacedIn(year));
      if last.year == year {
        assert Filter(log, PlacedIn(year)) == kept + [last];
        assert (kept + [last])[..|kept|] == kept;
        assert BooksOf(kept + [last]) == BooksOf(kept) + [last.book];
      } else {
        assert Filter(log, PlacedIn(year)) == kept;
      }
    }
  }

  /** Every book reachable through the map came from a submission that passed the guard. */
  lemma {:induction false} GroupedBooksFilled(log: seq<Placed>, year: int)
    requires AllFilled(log)
    ensures forall b :: b in BooksIn(Grouped(log), year) ==> Filled(b.title, b.author, b.name)
  {
    if log != [] {
      var prefix := log[..|log| - 1];
      assert forall i :: 0 <= i < |prefix| ==> prefix[i] == log[i];
      GroupedBooksFilled(prefix, year);
    }
  }

  /** Every book of the log passed the submit guard. */
  ghost predicate AllFilled(log: seq<Placed>) {
    forall i :: 0 <= i < |log| ==> Filled(log[i].book.title, log[i].book.author, log[i].book.name)
  }

  /** Recording one more guarded submission keeps the map equal to the
      grouped log and keeps every logged book filled. */
  lemma RecordSubmission(log: seq<Placed>, year: int, book: Book)
    requires AllFilled(log) && Filled(book.title, book.author, book.name)
    ensures Grouped(log + [Placed(year, book)]) == AddBook(Grouped(log), year, book)
    ensures AllFilled(log + [Placed(year, book)])
  {
    var log' := log + [Placed(year, book)];
    assert log'[..|log'| - 1] == log;
  }

  /** The component's state. `log` records the successful submissions. */
  class BookMapView {
    var books: map<int, seq<Book>>
    var showForm: Option<int>
    var formData: BookForm
    ghost var log: seq<Placed>

    ghost predicate Valid()
      reads this
    {
      books == Grouped(log) && AllFilled(log)
    }

    constructor ()
      ensures Valid()
      ensures books == map[] && showForm == None && formData == EmptyForm && log == []
    {
      books := map[];
      showForm := None;
      formData := EmptyForm;
      log := [];
    }

    /** The books rendered under `year`; none when the year has no key. */
    function Shown(year: int): (r: seq<Book>)
      reads this
      requires Valid()
      ensures forall b :: b in r ==> Filled(b.title, b.author, b.name)
    {
      GroupedBooksFilled(log, year);
      BooksIn(books, year)
    }

    /** The add button of `year` opens that year's form. The fields keep what was typed. */
    method OpenForm(year: int)
      requires Valid()
      modifies this`showForm
      ensures Valid()
      ensures showForm == Some(year)
    {
      showForm := Some(year);
    }

    /** The form's close button closes it. The fields keep what was typed. */
    method CloseForm()
      requires Valid()
      modifies this`showForm
      ensures Valid()
      ensures showForm == None
    {
      showForm := None;
    }

    method EditTitle(value: JsString)
      requires Valid()
      modifies this`formData
      ensures Valid()
      ensures formData == old(formData).(title := value)
    {
      formData := formData.(title := value);
    }

    method EditAuthor(value: JsString)
      requires Valid()
      modifies this`formData
      ensures Valid()
      ensures formData == old(formData).(author := value)
    {
      formData := formData.(author := value);
    }

    method EditName(value: JsString)
      requires Valid()
      modifies this`formData
      ensures Valid()
      ensures formData == old(formData).(name := value)
    {
      formData := formData.(name := value);
    }

    /** `handleSubmit(year, e)`: with title, author and name all non-empty,
        append the book (with id `now`, the clock reading) to the year's list,
        clear the fields and close the form; otherwise nothing changes. */
    method HandleSubmit(year: int, now: int)
      requires Valid()
      modifies this
      ensures Valid()
      ensures var f := old(formData);
        Filled(f.title, f.author, f.name) ==>
          var book := Book(f.title, f.author, f.name, now);
          books == AddBook(old(books), year, book) && log == old(log) + [Placed(year, book)]
          && formData == EmptyForm && showForm == None
      ensures var f := old(formData);
        !Filled(f.title, f.author, f.name) ==>
          books == old(books) && log == old(log) && formData == old(formData) && showForm == old(showForm)
    {
      if Filled(formData.title, formData.author, formData.name) {
        var book := Book(formData.title, formData.author, formData.name, now);
        RecordSubmission(log, year, book);
        books := AddBook(books, year, book);
        log := log + [Placed(year, book)];
        formData := EmptyForm;
        showForm := None;
      }
    }
  }
}
