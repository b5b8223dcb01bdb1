/**
 * The records every backend stores (types/index.ts), the argument objects of the
 * storage contract, and the facts about two tables that all three backends share:
 * keyed by id, which notes belong to a notebook, which notes match a search, and
 * what it means for a result list to hold exactly some records, newest first.
 */
module Records {
  import opened Wrappers
  import opened Text
  import opened Ordering

  /** A record identity (a UUID string). */
  type Id = string

  /** A point in time in milliseconds since the epoch: `Date.now()`, or what a `Date` holds. */
  type Instant = int

  datatype Notebook = Notebook(id: Id, name: string, createdAt: Instant, updatedAt: Instant)

  datatype Note = Note(
    id: Id,
    notebookId: Id,
    title: string,
    content: string,
    createdAt: Instant,
    updatedAt: Instant)

  /** `CreateNotebookDTO`. */
  datatype CreateNotebookDto = CreateNotebookDto(name: string)

  /** `UpdateNotebookDTO`: a key that is `None` is absent from the object. */
  datatype UpdateNotebookDto = UpdateNotebookDto(name: Option<string>)

  /** `CreateNoteDTO`: content may be omitted. */
  datatype CreateNoteDto = CreateNoteDto(notebookId: Id, title: string, content: Option<string>)

  /** `UpdateNoteDTO`: every key may be omitted. */
  datatype UpdateNoteDto = UpdateNoteDto(title: Option<string>, content: Option<string>, notebookId: Option<Id>)

  /** What a storage call can throw. */
  datatype StorageError =
    | ConstraintError(key: Id)                    // a primary key that is already taken
    | ForeignKeyViolation(key: Id)                // a note that names no stored notebook
    | Aborted                                     // a statement or a commit failed inside a transaction
    | PostgrestError(code: string, message: string)
    | Failure(message: string)                    // an `Error` thrown with a fixed message

  /** The title the list gives a new note, and shows for a note whose title is empty. */
  const UntitledNote := "Untitled Note"

  /** `data.content || ""`: omitted and empty content both become "", any other content is kept. */
  function ContentOrEmpty(content: Option<string>): (r: string)
    ensures r == "" <==> (content.None? || content.value == "")
    ensures content.Some? ==> r == content.value
  {
    if content.Some? && content.value != "" then content.value else ""
  }

  // ---------------------------------------------------------------------------
  // Search

  /**
   * The search test of the document store: the query folded by `toLowerCase()` occurs in the
   * folded title or the folded content.
   */
  predicate Matches(n: Note, q: string) {
    Contains(Fold(n.title), Fold(q)) || Contains(Fold(n.content), Fold(q))
  }

  /** The empty query matches every note: `"".includes` holds of any text. */
  lemma EmptyQueryMatchesAll(n: Note)
    ensures Matches(n, "")
  {
    ContainsEmpty(Fold(n.title));
  }

  // ---------------------------------------------------------------------------
  // Tables

  /** Every notebook is stored under its own id. */
  predicate NotebooksKeyed(t: map<Id, Notebook>) {
    forall id :: id in t ==> t[id].id == id
  }

  /** Every note is stored under its own id. */
  predicate NotesKeyed(t: map<Id, Note>) {
    forall id :: id in t ==> t[id].id == id
  }

  /** The ids of the notes that belong to notebook nb. */
  function NotesOf(t: map<Id, Note>, nb: Id): set<Id> {
    set id | id in t && t[id].notebookId == nb
  }

  /** The ids of the notes that match query q. */
  function MatchingNotes(t: map<Id, Note>, q: string): set<Id> {
    set id | id in t && Matches(t[id], q)
  }

  /** The notes table after removing every note of notebook nb (the cascade's first statement). */
  function NotesOutside(t: map<Id, Note>, nb: Id): (r: map<Id, Note>)
    ensures forall id :: id in r <==> id in t && t[id].notebookId != nb
    ensures forall id :: id in r ==> r[id] == t[id]
    ensures NotesOf(r, nb) == {}
  {
    map id | id in t && t[id].notebookId != nb :: t[id]
  }

  /** Every note belongs to a stored notebook. */
  predicate NoOrphans(notebooks: map<Id, Notebook>, notes: map<Id, Note>) {
    forall id :: id in notes ==> notes[id].notebookId in notebooks
  }

  /** Removing a notebook together with its notes leaves no note without its notebook. */
  lemma CascadeKeepsNoOrphans(notebooks: map<Id, Notebook>, notes: map<Id, Note>, nb: Id)
    requires NoOrphans(notebooks, notes)
    ensures NoOrphans(notebooks - {nb}, NotesOutside(notes, nb))
  {
  }

  /** Every record was created no later than its last update, which is no later than `now`. */
  predicate TimesWithin(notebooks: map<Id, Notebook>, notes: map<Id, Note>, now: Instant) {
    && (forall id :: id in notebooks ==> notebooks[id].createdAt <= notebooks[id].updatedAt <= now)
    && (forall id :: id in notes ==> notes[id].createdAt <= notes[id].updatedAt <= now)
  }

  function NotebookStamps(t: map<Id, Notebook>): map<Id, Instant> {
    map id | id in t :: t[id].updatedAt
  }

  function NoteStamps(t: map<Id, Note>): map<Id, Instant> {
    map id | id in t :: t[id].updatedAt
  }

  // ---------------------------------------------------------------------------
  // Result lists

  /** r holds exactly the notebooks of t whose ids are in keep, each once, as stored. */
  predicate ListsNotebooks(r: seq<Notebook>, t: map<Id, Notebook>, keep: set<Id>) {
    && (forall i :: 0 <= i < |r| ==> r[i].id in keep && r[i].id in t && t[r[i].id] == r[i])
    && (forall id :: id in keep && id in t ==> t[id] in r)
    && (forall i, j :: 0 <= i < j < |r| ==> r[i].id != r[j].id)
  }

  /** No two notes of r share an id. */
  predicate UniqueNoteIds(r: seq<Note>) {
    forall i, j :: 0 <= i < j < |r| ==> r[i].id != r[j].id
  }

  /** r holds exactly the notes of t whose ids are in keep, each once, as stored. */
  predicate ListsNotes(r: seq<Note>, t: map<Id, Note>, keep: set<Id>) {
    && (forall i :: 0 <= i < |r| ==> r[i].id in keep && r[i].id in t && t[r[i].id] == r[i])
    && (forall id :: id in keep && id in t ==> t[id] in r)
    && UniqueNoteIds(r)
  }

  predicate NotebooksNewestFirst(r: seq<Notebook>) {
    forall i, j :: 0 <= i < j < |r| ==> r[i].updatedAt >= r[j].updatedAt
  }

  predicate NotesNewestFirst(r: seq<Note>) {
    forall i, j :: 0 <= i < j < |r| ==> r[i].updatedAt >= r[j].updatedAt
  }

  /** The notebooks of t at keys ks, in the order of ks. */
  function PickNotebooks(t: map<Id, Notebook>, ks: seq<Id>): (r: seq<Notebook>)
    requires forall i :: 0 <= i < |ks| ==> ks[i] in t
    ensures |r| == |ks| && forall i :: 0 <= i < |ks| ==> r[i] == t[ks[i]]
  {
    if ks == [] then [] else [t[ks[0]]] + PickNotebooks(t, ks[1..])
  }

  /** The notes of t at keys ks, in the order of ks. */
  function PickNotes(t: map<Id, Note>, ks: seq<Id>): (r: seq<Note>)
    requires forall i :: 0 <= i < |ks| ==> ks[i] in t
    ensures |r| == |ks| && forall i :: 0 <= i < |ks| ==> r[i] == t[ks[i]]
  {
    if ks == [] then [] else [t[ks[0]]] + PickNotes(t, ks[1..])
  }

  /** Reading the rows of an ordered selection of notebooks lists them exactly, newest first. */
  lemma PickNotebooksOrdered(t: map<Id, Notebook>, ks: seq<Id>, keep: set<Id>)
    requires NotebooksKeyed(t) && keep <= t.Keys
    requires OrderedSelection(ks, keep, NotebookStamps(t))
    ensures ListsNotebooks(PickNotebooks(t, ks), t, keep)
    ensures NotebooksNewestFirst(PickNotebooks(t, ks))
  {
    var r := PickNotebooks(t, ks);
    forall id | id in keep && id in t ensures t[id] in r {
      var i :| 0 <= i < |ks| && ks[i] == id;
      assert r[i] == t[id];
    }
  }

  /** Reading the rows of an enumeration of notes lists them exactly. */
  lemma PickNotesLists(t: map<Id, Note>, ks: seq<Id>, keep: set<Id>)
    requires NotesKeyed(t) && keep <= t.Keys
    requires Enumerates(ks, keep)
    ensures ListsNotes(PickNotes(t, ks), t, keep)
  {
    var r := PickNotes(t, ks);
    forall id | id in keep && id in t ensures t[id] in r {
      var i :| 0 <= i < |ks| && ks[i] == id;
      assert r[i] == t[id];
    }
  }

  /** Reading the rows of an ordered selection of notes lists them exactly, newest first. */
  lemma PickNotesOrdered(t: map<Id, Note>, ks: seq<Id>, keep: set<Id>)
    requires NotesKeyed(t) && keep <= t.Keys
    requires OrderedSelection(ks, keep, NoteStamps(t))
    ensures ListsNotes(PickNotes(t, ks), t, keep)
    ensures NotesNewestFirst(PickNotes(t, ks))
  {
    PickNotesLists(t, ks, keep);
  }

  /** r can be obtained from s by deleting elements: r's elements occur in s in the same order. */
  predicate Subsequence<T(==)>(r: seq<T>, s: seq<T>)
    decreases |s|
  {
    r == [] || (s != [] && ((r[0] == s[0] && Subsequence(r[1..], s[1..])) || Subsequence(r, s[1..])))
  }

  /** The notes of s, in order, that match q (JavaScript's `filter`): a subsequence of s. */
  function FilterMatching(s: seq<Note>, q: string): (r: seq<Note>)
    ensures Subsequence(r, s)
    ensures forall i :: 0 <= i < |r| ==> r[i] in s && Matches(r[i], q)
    ensures forall i :: 0 <= i < |s| && Matches(s[i], q) ==> s[i] in r
    ensures |r| <= |s|
  {
    if s == [] then []
    else if Matches(s[0], q) then [s[0]] + FilterMatching(s[1..], q)
    else FilterMatching(s[1..], q)
  }

  /** Filtering keeps every matching note as often as s holds it, and no other. */
  lemma {:induction false} FilterCounts(s: seq<Note>, q: string)
    ensures forall n :: multiset(FilterMatching(s, q))[n] == if Matches(n, q) then multiset(s)[n] else 0
  {
    if s != [] {
      assert s == [s[0]] + s[1..];
      FilterCounts(s[1..], q);
    }
  }

  /** Filtering keeps the order of s: the filter of a concatenation concatenates the filters. */
  lemma {:induction false} FilterKeepsOrder(a: seq<Note>, b: seq<Note>, q: string)
    ensures FilterMatching(a + b, q) == FilterMatching(a, q) + FilterMatching(b, q)
  {
    if a == [] {
      assert a + b == b;
    } else {
      assert (a + b)[0] == a[0] && (a + b)[1..] == a[1..] + b;
      FilterKeepsOrder(a[1..], b, q);
    }
  }

  /** Filtering a list that holds every note once keeps each matching note once. */
  lemma {:induction false} FilterDistinct(s: seq<Note>, q: string)
    requires UniqueNoteIds(s)
    ensures UniqueNoteIds(FilterMatching(s, q))
  {
    if s != [] {
      assert UniqueNoteIds(s[1..]);
      FilterDistinct(s[1..], q);
      var rest := FilterMatching(s[1..], q);
      forall i | 0 <= i < |rest| ensures rest[i].id != s[0].id {
        var k :| 0 <= k < |s[1..]| && s[1..][k] == rest[i];
        assert s[k + 1] == rest[i];
      }
      if Matches(s[0], q) {
        var r := FilterMatching(s, q);
        assert r == [s[0]] + rest;
        assert forall i :: 0 < i < |r| ==> r[i] == rest[i - 1];
      }
    }
  }

  /** Filtering a listing of a whole table lists exactly the matching notes. */
  lemma FilterLists(s: seq<Note>, t: map<Id, Note>, q: string)
    requires NotesKeyed(t) && ListsNotes(s, t, t.Keys)
    ensures ListsNotes(FilterMatching(s, q), t, MatchingNotes(t, q))
  {
    FilterDistinct(s, q);
    var r := FilterMatching(s, q);
    forall id | id in MatchingNotes(t, q) && id in t ensures t[id] in r {
      var i :| 0 <= i < |s| && s[i] == t[id];
    }
  }
}
