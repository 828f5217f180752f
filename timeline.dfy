/** The memories timeline component: its entries, the submitter colour cache,
    the add form, and the persisted copy of the entries. */
module Timeline {
  import opened Js
  import opened Seqs
  import opened TimelineColor

  /** One memory. Deletion compares these three fields with `===`, which is
      equality of this datatype. */
  datatype Entry = Entry(content: JsString, submitter: JsString, year: int)

  /** The form's `newEntry` value. */
  datatype Draft = Draft(content: JsString, submitter: JsString)

  const EmptyDraft := Draft([], [])

  /** The twenty-six years drawn, from 1999 upwards. */
  function Years(): (r: seq<int>)
    ensures |r| == 26 && r[0] == 1999 && r[|r| - 1] == 2024
    ensures forall i :: 0 < i < |r| ==> r[i] == r[i - 1] + 1
  {
    seq(26, i => 1999 + i)
  }

  /** A year is drawn exactly when it lies between 1999 and 2024. */
  lemma YearsSpan(y: int)
    ensures y in Years() <==> 1999 <= y <= 2024
  {
    if 1999 <= y <= 2024 {
      assert Years()[y - 1999] == y;
    }
  }

  /** `yearIndex < years.length - 1`: every year but the last offers the add button. */
  function HasAddButton(yearIndex: nat): (b: bool)
    requires yearIndex < |Years()|
    ensures b <==> Years()[yearIndex] != 2024
  {
    yearIndex < |Years()| - 1
  }

  /** The predicate handed to `filter` by `handleDelete`: comparing the three
      fields one by one rejects exactly the entries equal to the target. */
  function Differs(target: Entry): (p: Entry -> bool)
    ensures forall e :: p(e) <==> e != target
  {
    (e: Entry) => !(e.content == target.content && e.submitter == target.submitter && e.year == target.year)
  }

  /** The list `handleDelete(target)` keeps: every entry except the copies of
      `target`, in the original order. */
  function Without(entries: seq<Entry>, target: Entry): (r: seq<Entry>)
    ensures target !in r
    ensures forall e :: e in r ==> e in entries
    ensures forall e :: e != target ==> multiset(r)[e] == multiset(entries)[e]
  {
    FilterCounts(entries, Differs(target));
    Filter(entries, Differs(target))
  }

  /** The per-year display filter: the entry's year equals the drawn year. */
  function InYear(year: int): Entry -> bool {
    (e: Entry) => e.year == year
  }

  /** The entries drawn on the line of `year`, in their stored order. */
  function EntriesOfYear(entries: seq<Entry>, year: int): (r: seq<Entry>)
    ensures forall i :: 0 <= i < |r| ==> r[i].year == year
    ensures forall e: Entry :: e.year == year ==> multiset(r)[e] == multiset(entries)[e]
  {
    FilterCounts(entries, InYear(year));
    Filter(entries, InYear(year))
  }

  /** Deleting a triple that is not present changes nothing. */
  lemma DeleteAbsentIsNoOp(entries: seq<Entry>, target: Entry)
    requires target !in entries
    ensures Without(entries, target) == entries
  {
    FilterKeepsAll(entries, Differs(target));
  }

  /** Deletion keeps the order of what it keeps: deleting from a
      concatenation deletes from each part. */
  lemma DeleteKeepsOrder(a: seq<Entry>, b: seq<Entry>, target: Entry)
    ensures Without(a + b, target) == Without(a, target) + Without(b, target)
  {
    FilterAppend(a, b, Differs(target));
  }

  /** Submitting a new triple and then deleting it restores the list. */
  lemma AddThenDeleteRestores(entries: seq<Entry>, e: Entry)
    requires e !in entries
    ensures Without(entries + [e], e) == entries
  {
    FilterSnoc(entries, e, Differs(e));
    DeleteAbsentIsNoOp(entries, e);
  }

  /** Appending an entry adds it at the end of its own year's list and
      leaves every other year's list as it was. */
  lemma AppendShowsInItsYear(entries: seq<Entry>, e: Entry, year: int)
    ensures EntriesOfYear(entries + [e], year)
         == EntriesOfYear(entries, year) + (if e.year == year then [e] else [])
  {
    FilterSnoc(entries, e, InYear(year));
  }

  /** The distinct submitters of a list of entries. */
  function Submitters(entries: seq<Entry>): set<JsString> {
    set e | e in entries :: e.submitter
  }

  /** One more entry adds its submitter and nobody else. */
  lemma SubmittersSnoc(entries: seq<Entry>, e: Entry)
    ensures Submitters(entries + [e]) == Submitters(entries) + {e.submitter}
  {
    assert forall x :: x in entries + [e] <==> x in entries || x == e;
  }

  /** Whether looking `name` up in the colour object gives a truthy value:
      it is an own key, or a name every plain object inherits. */
  predicate HasColor(colors: map<JsString, string>, name: JsString) {
    name in colors || name in ObjectPrototypeNames
  }

  /** Caching a colour under `key` makes the lookup truthy for `key` and
      leaves it unchanged for every other name: the cache only gains keys. */
  lemma CachingAddsOnlyItsKey(colors: map<JsString, string>, key: JsString, color: string, name: JsString)
    ensures HasColor(colors[key := color], name) <==> name == key || HasColor(colors, name)
  {
  }

  /** Every cached colour is the one generateColor gives its key. */
  ghost predicate CacheSound(colors: map<JsString, string>) {
    forall k :: k in colors ==> k !in ObjectPrototypeNames && colors[k] == ColorFor(k)
  }

  /** The colour map built when saved entries are loaded: one entry per
      distinct submitter, except the names `{}` already inherits. */
  method BuildColorCache(parsed: seq<Entry>) returns (colors: map<JsString, string>)
    ensures forall k :: k in colors <==> k in Submitters(parsed) && k !in ObjectPrototypeNames
    ensures forall k :: k in colors ==> colors[k] == ColorFor(k)
  {
    colors := map[];
    for i := 0 to |parsed|
      invariant forall k :: k in colors <==> k in Submitters(parsed[..i]) && k !in ObjectPrototypeNames
      invariant forall k :: k in colors ==> colors[k] == ColorFor(k)
    {
      SubmittersSnoc(parsed[..i], parsed[i]);
      assert parsed[..i + 1] == parsed[..i] + [parsed[i]];
      var name := parsed[i].submitter;
      if !HasColor(colors, name) {
        var c := GenerateColor(name);
        colors := colors[name := c];
      }
    }
    assert parsed[..|parsed|] == parsed;
  }

  /** The `Timeline` component's state. `stored` is the `timelineEntries`
      slot of local storage; after mount it always holds the entries. */
  class TimelineView {
    var entries: seq<Entry>
    var showForm: bool
    var selectedYear: Option<int>
    var userColors: map<JsString, string>
    var newEntry: Draft
    var stored: Option<seq<Entry>>

    ghost predicate Valid()
      reads this
    {
      (showForm <==> selectedYear.Some?)
      && stored == Some(entries)
      && CacheSound(userColors)
      && forall e :: e in entries && e.submitter !in ObjectPrototypeNames ==> e.submitter in userColors
    }

    /** The colour handed to a dot: the submitter's entry in `userColors`. */
    function UserColor(submitter: JsString): (c: Option<string>)
      reads this
      requires Valid()
      ensures submitter in Submitters(entries) && submitter !in ObjectPrototypeNames
              ==> c == Some(ColorFor(submitter))
    {
      if submitter in userColors then Some(userColors[submitter]) else None
    }

    /** Mounting: the initial state, then the load effect (which replaces the
        entries and the colour map only when the slot holds something), then
        the save effect. */
    constructor (saved: Option<seq<Entry>>)
      ensures Valid()
      ensures entries == (if saved.Some? then saved.value else [])
      ensures forall k :: k in userColors <==> k in Submitters(entries) && k !in ObjectPrototypeNames
      ensures !showForm && newEntry == EmptyDraft
    {
      var loaded: seq<Entry> := [];
      var colors: map<JsString, string> := map[];
      if saved.Some? {
        loaded := saved.value;
        colors := BuildColorCache(loaded);
      }
      entries := loaded;
      userColors := colors;
      showForm := false;
      selectedYear := None;
      newEntry := EmptyDraft;
      stored := Some(loaded);
    }

    /** `handleAddClick(year)`: open the form for `year` with empty fields. */
    method HandleAddClick(year: int)
      requires Valid()
      modifies this
      ensures Valid()
      ensures showForm && selectedYear == Some(year) && newEntry == EmptyDraft
      ensures entries == old(entries) && userColors == old(userColors) && stored == old(stored)
    {
      selectedYear := Some(year);
      showForm := true;
      newEntry := EmptyDraft;
    }

    /** `handleCloseForm`: close the form, forget the year, clear the fields. */
    method HandleCloseForm()
      requires Valid()
      modifies this
      ensures Valid()
      ensures !showForm && selectedYear == None && newEntry == EmptyDraft
      ensures entries == old(entries) && userColors == old(userColors) && stored == old(stored)
    {
      showForm := false;
      selectedYear := None;
      newEntry := EmptyDraft;
    }

    /** The text area's `onChange`. */
    method EditContent(value: JsString)
      requires Valid()
      modifies this`newEntry
      ensures Valid()
      ensures newEntry == old(newEntry).(content := value)
    {
      newEntry := newEntry.(content := value);
    }

    /** The name field's `onChange`. */
    method EditSubmitter(value: JsString)
      requires Valid()
      modifies this`newEntry
      ensures Valid()
      ensures newEntry == old(newEntry).(submitter := value)
    {
      newEntry := newEntry.(submitter := value);
    }

    /** `handleSubmit`: with content and name both non-empty, cache the
        submitter's colour if `userColors` has none, append the entry for the
        selected year, save, and close the form; otherwise nothing happens.
        The form, and so this handler, exists only while `showForm` holds. */
    method HandleSubmit()
      requires Valid() && showForm
      modifies this
      ensures Valid()
      ensures var d := old(newEntry);
        entries == if Truthy(d.content) && Truthy(d.submitter)
                   then old(entries) + [Entry(d.content, d.submitter, old(selectedYear).value)]
                   else old(entries)
      ensures var d := old(newEntry);
        userColors == if Truthy(d.content) && Truthy(d.submitter) && !HasColor(old(userColors), d.submitter)
                      then old(userColors)[d.submitter := ColorFor(d.submitter)]
                      else old(userColors)
      ensures forall k :: k in old(userColors) ==> k in userColors && userColors[k] == old(userColors)[k]
      ensures var d := old(newEntry);
        if Truthy(d.content) && Truthy(d.submitter)
        then !showForm && selectedYear == None && newEntry == EmptyDraft
        else showForm && selectedYear == old(selectedYear) && newEntry == old(newEntry)
    {
      if Truthy(newEntry.content) && Truthy(newEntry.submitter) {
        var name := newEntry.submitter;
        if !HasColor(userColors, name) {
          var c := GenerateColor(name);
          userColors := userColors[name := c];
        }
        entries := entries + [Entry(newEntry.content, name, selectedYear.value)];
        stored := Some(entries);
        HandleCloseForm();
      }
    }

    /** `handleDelete(target)`: drop every entry equal to `target`, then save.
        The colour map is left as it is. */
    method HandleDelete(target: Entry)
      requires Valid()
      modifies this
      ensures Valid()
      ensures entries == Without(old(entries), target)
      ensures userColors == old(userColors) && showForm == old(showForm)
      ensures selectedYear == old(selectedYear) && newEntry == old(newEntry)
    {
      entries := Without(entries, target);
      stored := Some(entries);
    }

    /** The entries drawn for `year`. */
    function Displayed(year: int): (r: seq<Entry>)
      reads this
      ensures forall i :: 0 <= i < |r| ==> r[i].year == year && r[i] in entries
    {
      EntriesOfYear(entries, year)
    }
  }
}
