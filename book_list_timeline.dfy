/** The book timeline that keeps one flat list of books, each tagged with its
    year, and mirrors it to local storage. */
module BookListTimeline {
  import opened Js
  import opened Seqs

  datatype Book = Book(title: JsString, author: JsString, submitter: JsString, year: int)

  /** The form's `newBook` value. */
  datatype BookDraft = BookDraft(title: JsString, author: JsString, submitter: JsString)

  const EmptyDraft := BookDraft([], [], [])

  /** The twelve years listed, from 1999 upwards. */
  function Years(): (r: seq<int>)
    ensures |r| == 12 && r[0] == 1999 && r[|r| - 1] == 2010
    ensures forall i :: 0 < i < |r| ==> r[i] == r[i - 1] + 1
  {
    seq(12, i => 1999 + i)
  }

  /** A year is listed, with its add button, exactly when it lies between 1999 and 2010. */
  lemma YearsSpan(y: int)
    ensures y in Years() <==> 1999 <= y <= 2010
  {
    if 1999 <= y <= 2010 {
      assert Years()[y - 1999] == y;
    }
  }

  /** The submit guard: title, author and submitter are all non-empty. */
  predicate Complete(d: BookDraft) {
    Truthy(d.title) && Truthy(d.author) && Truthy(d.submitter)
  }

  /** The per-year display filter: the book's year equals the listed year. */
  function InYear(year: int): Book -> bool {
    (b: Book) => b.year == year
  }

  /** The books listed under `year`, in their stored order. */
  function BooksOfYear(books: seq<Book>, year: int): (r: seq<Book>)
    ensures forall i :: 0 <= i < |r| ==> r[i].year == year
    ensures forall b: Book :: b.year == year ==> multiset(r)[b] == multiset(books)[b]
  {
    FilterCounts(books, InYear(year));
    Filter(books, InYear(year))
  }

  /** A book appended to the list is listed last under its own year, that
      year's list grows by exactly one, and every other year's list is unchanged. */
  lemma AppendShowsInItsYear(books: seq<Book>, b: Book, year: int)
    ensures BooksOfYear(books + [b], year)
         == BooksOfYear(books, year) + (if b.year == year then [b] else [])
    ensures |BooksOfYear(books + [b], b.year)| == |BooksOfYear(books, b.year)| + 1
  {
    FilterSnoc(books, b, InYear(year));
    FilterSnoc(books, b, InYear(b.year));
  }

  /** Year lists of a concatenation are the concatenated year lists. */
  lemma YearListsKeepOrder(a: seq<Book>, b: seq<Book>, year: int)
    ensures BooksOfYear(a + b, year) == BooksOfYear(a, year) + BooksOfYear(b, year)
  {
    FilterAppend(a, b, InYear(year));
  }

  /** The component's state. `stored` is the `timelineBooks` slot of local
      storage; after mount it always holds the books. */
  class BookListView {
    var books: seq<Book>
    var showForm: bool
    var selectedYear: Option<int>
    var newBook: BookDraft
    var stored: Option<seq<Book>>

    /** The form is open exactly when a year is selected, and the slot holds
        what is in memory. */
    ghost predicate Valid()
      reads this
    {
      (showForm <==> selectedYear.Some?) && stored == Some(books)
    }

    /** Mounting: the initial state, the load effect (which replaces `books`
        only when the slot holds something) and the save effect. */
    constructor (saved: Option<seq<Book>>)
      ensures Valid()
      ensures books == (if saved.Some? then saved.value else [])
      ensures !showForm && newBook == EmptyDraft
    {
      var loaded: seq<Book> := [];
      if saved.Some? {
        loaded := saved.value;
      }
      books := loaded;
      showForm := false;
      selectedYear := None;
      newBook := EmptyDraft;
      stored := Some(loaded);
    }

    /** `handleAddClick(year)`: select the year, open the form, clear the fields. */
    method HandleAddClick(year: int)
      requires Valid()
      modifies this
      ensures Valid()
      ensures showForm && selectedYear == Some(year) && newBook == EmptyDraft
      ensures books == old(books) && stored == old(stored)
    {
      selectedYear := Some(year);
      showForm := true;
      newBook := EmptyDraft;
    }

    /** `handleCloseForm`: close the form, forget the year, clear the fields. */
    method HandleCloseForm()
      requires Valid()
      modifies this
      ensures Valid()
      ensures !showForm && selectedYear == None && newBook == EmptyDraft
      ensures books == old(books) && stored == old(stored)
    {
      showForm := false;
      selectedYear := None;
      newBook := EmptyDraft;
    }

    method EditTitle(value: JsString)
      requires Valid()
      modifies this`newBook
      ensures Valid()
      ensures newBook == old(newBook).(title := value)
    {
      newBook := newBook.(title := value);
    }

    method EditAuthor(value: JsString)
      requires Valid()
      modifies this`newBook
      ensures Valid()
      ensures newBook == old(newBook).(author := value)
    {
      newBook := newBook.(author := value);
    }

    method EditSubmitter(value: JsString)
      requires Valid()
      modifies this`newBook
      ensures Valid()
      ensures newBook == old(newBook).(submitter := value)
    {
      newBook := newBook.(submitter := value);
    }

    /** `handleSubmit`: with all three fields non-empty, append the book for
        the selected year, save, and close the form; otherwise change nothing,
        so the form stays open with what was typed. The form, and so this
        handler, exists only while `showForm` holds. */
    method HandleSubmit()
      requires Valid() && showForm
      modifies this
      ensures Valid()
      ensures var d := old(newBook);
        books == if Complete(d)
                 then old(books) + [Book(d.title, d.author, d.submitter, old(selectedYear).value)]
                 else old(books)
      ensures if Complete(old(newBook))
              then !showForm && selectedYear == None && newBook == EmptyDraft
              else showForm && selectedYear == old(selectedYear) && newBook == old(newBook)
    {
      if Complete(newBook) {
        books := books + [Book(newBook.title, newBook.author, newBook.submitter, selectedYear.value)];
        stored := Some(books);
        HandleCloseForm();
      }
    }

    /** The books drawn under `year`. */
    function Displayed(year: int): (r: seq<Book>)
      reads this
      ensures forall i :: 0 <= i < |r| ==> r[i].year == year && r[i] in books
    {
      BooksOfYear(books, year)
    }
  }
}
