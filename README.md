# Collaborative timeline widgets: a Dafny model

The repository holds three React widgets for a year-by-year timeline that
visitors fill with short entries:

- the memories timeline (`src/components/Timeline.jsx`). It gives each
  submitter a colour from a shift-and-subtract hash of the name and caches
  it. Entries are added through a form and deleted by structural equality.
  The entries are mirrored to local storage. Each entry's dot has a tooltip
  that can be hovered or locked open.
- a book timeline keyed by year (`src/BookTimeline.jsx`). It keeps one list
  of books per year in a map and colours each book by an additive hash of
  its author.
- a book timeline over one flat list (`src/components/BookTimeline.jsx`). The
  list is filtered per year for display and mirrored to local storage.

The model has one Dafny module per concern:

- `Js` (`js.dfy`): JavaScript strings as UTF-16 code units, `Math.abs`,
  ToInt32, `<<`, string truthiness, and the property names every plain object
  inherits.
- `Seqs` (`seqs.dfy`): `Array.prototype.filter` as a stable filter, with its
  laws.
- `TimelineColor`, `TimelineTooltip`, `Timeline`: the three parts of
  `src/components/Timeline.jsx`.
- `BookMapTimeline`: `src/BookTimeline.jsx`.
- `BookListTimeline`: `src/components/BookTimeline.jsx`.

Each component is a class whose fields are its React state variables. Each
handler is a method that assigns the new state, computed by the pure
functions the lemmas are about. The local-storage slot is a field `stored`.
The constructor's argument `saved` is `None` when nothing was saved. After
mount `stored` is always `Some` of the list: the class invariant `Valid()`
keeps it equal to the in-memory list after every handler.

Modelling decisions:

- `hash` in `generateColor` is an unbounded integer. Only `hash << 5` wraps to
  32 bits; the addition and the subtraction are floating-point in JavaScript.
  `TimelineColor.NameHashIsExactInDoubles` shows that every value stays below
  2^53 for names of up to four million code units. For those names
  floating-point arithmetic is exact and agrees with the model.
- The colour cache test in `handleSubmit` and in the load effect checks
  whether the looked-up value is truthy. A plain object `{}` inherits truthy
  members such as `toString`, `constructor` and `__proto__`. A submitter with
  one of those names therefore never gets a cache entry. The model keeps
  this: `Timeline.HasColor` counts those names as present.
- `handleSubmit` in `Timeline.jsx` and in `components/BookTimeline.jsx`
  requires `showForm`. The form that fires it is rendered only while
  `showForm` holds. `Valid()` ties `showForm` to a non-null `selectedYear`, so
  the stored year is a number.
- The `Date.now()` id in `src/BookTimeline.jsx` is the parameter `now` of
  `BookMapTimeline.BookMapView.HandleSubmit`.

Two facts about the code shape the model:

- The memories timeline hashes a name by shift-and-subtract and picks one of
  six colours. Only `src/BookTimeline.jsx` sums code units, and it takes the
  sum modulo 7 over seven colours.
- Loading calls `JSON.parse` without a guard, so malformed stored text
  throws. The model's slot holds only well-formed lists (see "Left out").

## Model

| member | source | states |
|---|---|---|
| Js.ToInt32 | src/components/Timeline.jsx:26 | the 32-bit conversion applied by `<<` returns the unique signed 32-bit value congruent to its input modulo 2^32 |
| Js.ShiftLeft | src/components/Timeline.jsx:26 | `x << n` is a signed 32-bit value congruent to ToInt32(x)·2^(n mod 32) modulo 2^32 |
| Js.ShiftLeftFive | src/components/Timeline.jsx:26 | `hash << 5` is 32·ToInt32(hash) modulo 2^32 |
| Js.ToInt32Congruent | src/components/Timeline.jsx:26 | two numbers have the same 32-bit image exactly when they are congruent modulo 2^32 |
| Js.ToInt32Fixed | src/components/Timeline.jsx:26 | ToInt32 leaves values already in signed 32-bit range unchanged |
| Js.Abs | src/components/Timeline.jsx:28 | `Math.abs` returns a non-negative value equal to the input or its negation |
| Seqs.Filter | src/components/Timeline.jsx:131-135 | `filter` keeps only elements that satisfy the predicate, drawn from the input, and is no longer than the input |
| Seqs.FilterCounts | src/components/Timeline.jsx:131-135 | `filter` keeps every copy of each passing element and no copy of a failing one |
| Seqs.FilterAppend | src/components/Timeline.jsx:131-135 | filtering a concatenation gives the concatenation of the filtered parts, so relative order is preserved |
| Seqs.FilterKeepsAll | src/components/Timeline.jsx:131-135 | a filter that every element passes returns its input unchanged |
| Seqs.FilterSnoc | src/components/Timeline.jsx:180-181 | filtering a list with one element appended gives the filtered list, plus that element when it passes |
| TimelineColor.HashStep | src/components/Timeline.jsx:26 | one loop step gives, modulo 2^32, the code unit plus 31 times the 32-bit image of the previous hash |
| TimelineColor.NameHash | src/components/Timeline.jsx:24-27 | the hash of the empty name is 0 and that of a one-unit name is its code unit |
| TimelineColor.ColorIndex | src/components/Timeline.jsx:28-29 | the palette index lies in [0, 6), and the empty name, whose hash stays 0, gets index 0 |
| TimelineColor.ColorFor | src/components/Timeline.jsx:14-29 | generateColor's result is always one of the six palette colours, and the empty name gets the first (red) |
| TimelineColor.GenerateColor | src/components/Timeline.jsx:14-30 | the loop over the name's code units returns exactly ColorFor(name), a palette colour determined by the code units alone |
| TimelineColor.HashCode31 | src/components/Timeline.jsx:24-27 | the reference 31-multiplier hash, wrapped after every step, is always a signed 32-bit value; the colour is computed from the unwrapped hash, not from this one |
| TimelineColor.NameHashWrapsToHashCode31 | src/components/Timeline.jsx:24-27 | the unwrapped shift-and-subtract hash, taken modulo 2^32, equals the 31-multiplier hash: each step is code + 31·hash modulo 2^32 |
| TimelineColor.NameHashMagnitude | src/components/Timeline.jsx:24-27 | after n code units the hash has magnitude at most n·(2^31 + 0xFFFF) |
| TimelineColor.NameHashIsExactInDoubles | src/components/Timeline.jsx:24-28 | for names of up to 4,000,000 code units every hash value, plus one more step, stays below 2^53, so double arithmetic is exact |
| TimelineTooltip.Next | src/components/Timeline.jsx:44-48 | hover events never change the lock, and change nothing while it is set; while unlocked, the tooltip is rendered (`Visible`, line 48: either flag set) exactly after a mouse-enter; a click flips the lock and leaves showTooltip alone |
| TimelineTooltip.LockedIgnoresHover | src/components/Timeline.jsx:44-48 | while the tooltip is locked, any sequence of mouse-enter and mouse-leave events leaves both flags unchanged and the tooltip visible |
| TimelineTooltip.ClicksToggleLock | src/components/Timeline.jsx:44-46 | after any sequence of events the lock is flipped exactly when the number of clicks is odd; hover never changes it |
| TimelineTooltip.UnlockedFollowsPointer | src/components/Timeline.jsx:44-48 | while unlocked and with no click, the tooltip is visible exactly when the last hover event was a mouse-enter, and it stays unlocked |
| TimelineTooltip.EntryTooltip.constructor | src/components/Timeline.jsx:33-34 | both flags start false, so the tooltip starts hidden |
| TimelineTooltip.EntryTooltip.OnMouseEnter | src/components/Timeline.jsx:44 | mouse-enter sets showTooltip when unlocked and changes nothing when locked |
| TimelineTooltip.EntryTooltip.OnMouseLeave | src/components/Timeline.jsx:45 | mouse-leave clears showTooltip when unlocked and changes nothing when locked |
| TimelineTooltip.EntryTooltip.OnClick | src/components/Timeline.jsx:46 | a click flips isTooltipLocked, leaves showTooltip alone, and a locked tooltip is visible |
| Timeline.Years | src/components/Timeline.jsx:139 | the years are 26 consecutive years, from 1999 to 2024 |
| Timeline.YearsSpan | src/components/Timeline.jsx:139 | a year is drawn exactly when it lies between 1999 and 2024 |
| Timeline.HasAddButton | src/components/Timeline.jsx:168 | a year offers the add button exactly when it is not the last year, 2024 |
| Timeline.Differs | src/components/Timeline.jsx:131-135 | the field-by-field comparison keeps an entry exactly when it differs from the target |
| Timeline.Without | src/components/Timeline.jsx:130-135 | deletion removes every copy of the target triple, keeps every other entry with its multiplicity, and adds nothing |
| Timeline.EntriesOfYear | src/components/Timeline.jsx:180-181 | each year's displayed list holds only entries of that year, with every such entry kept as often as it is stored |
| Timeline.DeleteAbsentIsNoOp | src/components/Timeline.jsx:130-136 | deleting a triple that is not present leaves the entries unchanged |
| Timeline.DeleteKeepsOrder | src/components/Timeline.jsx:131-135 | deletion from a concatenation deletes from each part, so survivors keep their order |
| Timeline.AddThenDeleteRestores | src/components/Timeline.jsx:125-136 | appending a triple that was not present and then deleting it restores the original list |
| Timeline.AppendShowsInItsYear | src/components/Timeline.jsx:180-181 | an appended entry shows last in its own year's list, and every other year's list is unchanged |
| Timeline.CachingAddsOnlyItsKey | src/components/Timeline.jsx:119-123 | caching a colour under a name makes the truthiness lookup of the colour object (`HasColor`, line 119: an own key or a name every plain object inherits) succeed for that name and leaves it unchanged for every other name, so the cache only gains keys |
| Timeline.BuildColorCache | src/components/Timeline.jsx:88-95 | the load effect's colour map has a key for exactly the distinct submitters not inherited by `{}`, each mapped to generateColor of the key |
| Timeline.TimelineView.UserColor | src/components/Timeline.jsx:190 | in a valid state, the colour handed to the dot of a stored submitter without an inherited name is generateColor of that name |
| Timeline.TimelineView.constructor | src/components/Timeline.jsx:72-101 | on mount the entries are the saved list when there is one and empty otherwise; the colour map has a key for exactly their submitters other than the names a plain object inherits; the slot then equals the entries |
| Timeline.TimelineView.HandleAddClick | src/components/Timeline.jsx:103-107 | opening the form selects the year, shows the form and clears both fields; entries, colours and slot are unchanged |
| Timeline.TimelineView.HandleCloseForm | src/components/Timeline.jsx:109-113 | closing hides the form, clears the year and both fields; entries, colours and slot are unchanged |
| Timeline.TimelineView.EditContent | src/components/Timeline.jsx:219 | typing in the text area replaces only the draft's content, and the class invariant is kept |
| Timeline.TimelineView.EditSubmitter | src/components/Timeline.jsx:231 | typing in the name field replaces only the draft's submitter, and the class invariant is kept |
| Timeline.TimelineView.HandleSubmit | src/components/Timeline.jsx:115-128 | with content and submitter both truthy (`Truthy`: non-empty, line 117), exactly one entry with the selected year is appended at the end, a colour is cached when the lookup is falsy (`HasColor`, line 119), existing colours are kept, and the form closes; otherwise nothing changes; the slot keeps mirroring the entries |
| Timeline.TimelineView.HandleDelete | src/components/Timeline.jsx:130-137 | entries become the order-preserving filter without the target; colours, form and draft are unchanged; the slot keeps mirroring the entries |
| Timeline.TimelineView.Displayed | src/components/Timeline.jsx:180-182 | every entry drawn for a year is a stored entry of that year |
| BookListTimeline.Years | src/components/BookTimeline.jsx:46 | the years are 12 consecutive years, from 1999 to 2010 |
| BookListTimeline.YearsSpan | src/components/BookTimeline.jsx:46 | a year is listed, with its add button, exactly when it lies between 1999 and 2010 |
| BookListTimeline.BooksOfYear | src/components/BookTimeline.jsx:63-64 | each year's list holds only books of that year, every such book kept as often as it is stored |
| BookListTimeline.AppendShowsInItsYear | src/components/BookTimeline.jsx:63-64 | after an append the selected year's list grows by exactly the new book at its end, and other years' lists are unchanged |
| BookListTimeline.YearListsKeepOrder | src/components/BookTimeline.jsx:63-64 | the per-year filter of a concatenation is the concatenation of the per-year filters, so stored order is kept |
| BookListTimeline.BookListView.constructor | src/components/BookTimeline.jsx:4-24 | on mount the books are the saved list when the slot holds one and empty otherwise, and the slot then equals the books |
| BookListTimeline.BookListView.HandleAddClick | src/components/BookTimeline.jsx:26-30 | selects the year, opens the form and clears the fields; books and slot are unchanged |
| BookListTimeline.BookListView.HandleCloseForm | src/components/BookTimeline.jsx:32-36 | closes the form, clears the year and the fields; books and slot are unchanged |
| BookListTimeline.BookListView.EditTitle | src/components/BookTimeline.jsx:94 | typing replaces only the draft title, and the class invariant is kept |
| BookListTimeline.BookListView.EditAuthor | src/components/BookTimeline.jsx:103 | typing replaces only the draft author, and the class invariant is kept |
| BookListTimeline.BookListView.EditSubmitter | src/components/BookTimeline.jsx:112 | typing replaces only the draft submitter, and the class invariant is kept |
| BookListTimeline.BookListView.HandleSubmit | src/components/BookTimeline.jsx:38-44 | with title, author and submitter all truthy (`Complete`, line 40), the book with the selected year is appended at the end and the form closes; otherwise books are unchanged and the form stays open with its contents intact; the slot keeps mirroring the books |
| BookListTimeline.BookListView.Displayed | src/components/BookTimeline.jsx:63-71 | every book shown under a year is a stored book of that year |
| BookMapTimeline.Years | src/BookTimeline.jsx:5-7 | the years are 27 consecutive years, from 1999 to 2025 |
| BookMapTimeline.YearsSpan | src/BookTimeline.jsx:5-7 | a year is shown exactly when it lies between 1999 and 2025 |
| BookMapTimeline.AuthorHash | src/BookTimeline.jsx:28 | the sum of the author's code units is 0 for the empty author and at most 0xFFFF per code unit |
| BookMapTimeline.AuthorColor | src/BookTimeline.jsx:18-29 | the author colour is always one of the seven palette entries, and the empty author gets bg-blue-500 |
| BookMapTimeline.AuthorHashAppend | src/BookTimeline.jsx:28 | the additive hash of a concatenation is the sum of the parts' hashes |
| BookMapTimeline.AuthorHashIgnoresOrder | src/BookTimeline.jsx:28 | authors with the same code units, counted with multiplicity, have the same hash |
| BookMapTimeline.AnagramsShareColor | src/BookTimeline.jsx:28-29 | any permutation of an author's characters gets the same colour |
| BookMapTimeline.AddBook | src/BookTimeline.jsx:35-38 | the new map appends the book at the end of the year's list, creating the list if absent (`BooksIn`, line 37: a missing key gives the empty list); every other year's list is untouched and no other key appears |
| BookMapTimeline.GroupedIsPerYearFilter | src/BookTimeline.jsx:35-38 | the map built by the successful submissions holds, for every year, exactly the books submitted for that year in submission order |
| BookMapTimeline.GroupedBooksFilled | src/BookTimeline.jsx:34-38 | every book reachable through the map passed the submit guard |
| BookMapTimeline.RecordSubmission | src/BookTimeline.jsx:34-38 | one more guarded submission extends the grouped map by AddBook and keeps every logged book complete |
| BookMapTimeline.BookMapView.constructor | src/BookTimeline.jsx:9-15 | the map starts empty, no form is open and the fields are empty |
| BookMapTimeline.BookMapView.Shown | src/BookTimeline.jsx:69 | in a valid state every book shown under a year (`BooksIn`: nothing for a year without a key) has non-empty title, author and name |
| BookMapTimeline.BookMapView.OpenForm | src/BookTimeline.jsx:61 | the add button opens that year's form and leaves the fields as typed, and the class invariant is kept |
| BookMapTimeline.BookMapView.CloseForm | src/BookTimeline.jsx:90 | the close button closes the form and leaves the fields as typed, and the class invariant is kept |
| BookMapTimeline.BookMapView.EditTitle | src/BookTimeline.jsx:100 | typing replaces only the form's title, and the class invariant is kept |
| BookMapTimeline.BookMapView.EditAuthor | src/BookTimeline.jsx:110 | typing replaces only the form's author, and the class invariant is kept |
| BookMapTimeline.BookMapView.EditName | src/BookTimeline.jsx:120 | typing replaces only the form's name, and the class invariant is kept |
| BookMapTimeline.BookMapView.HandleSubmit | src/BookTimeline.jsx:32-42 | with title, author and name all truthy (`Filled`, line 34), the book with id `now` is appended to the year's list, the fields reset and the form closes; otherwise nothing changes |

## Left out

- Rendering: JSX, CSS classes, icons, the dark-mode theme context and its toggle (src/components/Timeline.jsx:4-11, 251-260). These are presentation only.
- React scheduling: effect timing, batching and stale closures. Each handler is one atomic transition. On mount the save effect first writes the empty list and then the loaded one; only the final state is modelled.
- React keys: a dot's tooltip state is keyed by its index within the year, so after a deletion it attaches to whichever entry takes that index. This is reconciliation behaviour, not modelled.
- Local storage and JSON: the slot is an abstract `Option` of a list. Malformed stored text makes `JSON.parse` throw on mount; a slot holding one is not representable. Storage write failures are not modelled either.
- `Date.now()`: it is the parameter `now`. Ids are neither deterministic nor unique, and nothing in the model relies on them.
- The dot offset `index / (totalEntries + 1) * 100` (src/components/Timeline.jsx:37) is floating-point layout.
- The HTML `required` attribute on the inputs of src/BookTimeline.jsx lets the browser block an empty submit before the handler runs. Only the handler's own guard is modelled.
- `e.preventDefault()` in the submit handlers is browser event plumbing.
- vite.config.js is build configuration with no logic.
- TimelineColor.NameHash: the hash is an unbounded integer. It is proved to agree with JavaScript's double arithmetic only for names of up to 4,000,000 code units; longer names fall outside the range proved exact.
- BookMapTimeline.AuthorHash: the sum is an unbounded integer. By its bound of 0xFFFF per code unit, it agrees with JavaScript's double sum for any author of at most 2^37 code units, the range where the sum stays below 2^53.
- Timeline.TimelineView.UserColor: for a submitter named after an inherited `Object.prototype` member, the source hands the dot that member (a function) as its colour. The model returns `None` there.
