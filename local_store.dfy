/**
 * The browser backend of lib/storage-unified.ts: two Dexie tables in IndexedDB,
 * `notebooks` and `notes`, keyed by id. Every `new Date()` reading and every
 * `crypto.randomUUID()` is a parameter; an aborted transaction is an input too.
 */
module LocalStore {
  import opened Wrappers
  import opened Ordering
  import opened Records

  /** `{...data, updatedAt}` applied to a notebook: a present name replaces the stored one. */
  function SpreadNotebook(nb: Notebook, d: UpdateNotebookDto, t: Instant): (r: Notebook)
    ensures r.id == nb.id && r.createdAt == nb.createdAt && r.updatedAt == t
    ensures d.name.None? ==> r.name == nb.name
  {
    nb.(name := d.name.GetOr(nb.name), updatedAt := t)
  }

  /**
   * `{...data, updatedAt}` applied to a note: every key present in the update object
   * replaces the stored field, the notebook included; the id and createdAt never change.
   */
  function SpreadNote(n: Note, d: UpdateNoteDto, t: Instant): (r: Note)
    ensures r.id == n.id && r.createdAt == n.createdAt && r.updatedAt == t
    ensures d.title.None? ==> r.title == n.title
    ensures d.content.None? ==> r.content == n.content
    ensures d.notebookId.None? ==> r.notebookId == n.notebookId
  {
    n.(title := d.title.GetOr(n.title),
       content := d.content.GetOr(n.content),
       notebookId := d.notebookId.GetOr(n.notebookId),
       updatedAt := t)
  }

  /** Applying the same update twice at the same instant is the same as applying it once. */
  lemma SpreadNoteIdempotent(n: Note, d: UpdateNoteDto, t: Instant)
    ensures SpreadNote(SpreadNote(n, d, t), d, t) == SpreadNote(n, d, t)
  {
  }

  /** Every key of the update object ends up in the stored note. */
  lemma SpreadNoteWrites(n: Note, d: UpdateNoteDto, t: Instant)
    ensures d.title.Some? ==> SpreadNote(n, d, t).title == d.title.value
    ensures d.content.Some? ==> SpreadNote(n, d, t).content == d.content.value
    ensures d.notebookId.Some? ==> SpreadNote(n, d, t).notebookId == d.notebookId.value
  {
  }

  /** The IndexedDB database `NotesDatabase` (lib/db.ts) with the clock of the page. */
  class Database {
    var notebooks: map<Id, Notebook>
    var notes: map<Id, Note>
    /** The latest `new Date()` reading so far. */
    var clock: Instant

    ghost predicate Valid()
      reads this
    {
      NotebooksKeyed(notebooks) && NotesKeyed(notes) && TimesWithin(notebooks, notes, clock)
    }

    constructor (now: Instant)
      ensures Valid()
      ensures notebooks == map[] && notes == map[] && clock == now
    {
      notebooks := map[];
      notes := map[];
      clock := now;
    }

    /**
     * `createNotebook`: a record with a fresh id and two clock readings, added with `add`,
     * which rejects a key that is already taken.
     */
    method CreateNotebook(data: CreateNotebookDto, id: Id, t1: Instant, t2: Instant)
      returns (r: Result<Notebook, StorageError>)
      requires Valid() && clock <= t1 <= t2
      modifies this
      ensures Valid() && clock == t2 && notes == old(notes)
      ensures id in old(notebooks) ==> r == Err(ConstraintError(id)) && notebooks == old(notebooks)
      ensures id !in old(notebooks) ==>
        && r == Ok(Notebook(id, data.name, t1, t2))
        && notebooks == old(notebooks)[id := r.value]
    {
      clock := t2;
      if id in notebooks {
        return Err(ConstraintError(id));
      }
      var nb := Notebook(id, data.name, t1, t2);
      notebooks := notebooks[id := nb];
      return Ok(nb);
    }

    /** `getAllNotebooks`: `orderBy("updatedAt").reverse()`, every notebook once, newest first. */
    method GetAllNotebooks() returns (r: seq<Notebook>)
      requires Valid()
      ensures ListsNotebooks(r, notebooks, notebooks.Keys)
      ensures NotebooksNewestFirst(r)
    {
      ghost var sorted := Arrange(notebooks.Keys, NotebookStamps(notebooks));
      var ks :| OrderedSelection(ks, notebooks.Keys, NotebookStamps(notebooks));
      PickNotebooksOrdered(notebooks, ks, notebooks.Keys);
      r := PickNotebooks(notebooks, ks);
    }

    /** `getNotebook`: the stored notebook, or `undefined`. */
    method GetNotebook(id: Id) returns (r: Option<Notebook>)
      requires Valid()
      ensures r.Some? <==> id in notebooks
      ensures r.Some? ==> r.value == notebooks[id] && r.value.id == id
    {
      if id in notebooks {
        r := Some(notebooks[id]);
      } else {
        r := None;
      }
    }

    /** `updateNotebook`: Dexie's `update` of a missing key changes nothing and does not fail. */
    method UpdateNotebook(id: Id, data: UpdateNotebookDto, t: Instant)
      requires Valid() && clock <= t
      modifies this
      ensures Valid() && clock == t && notes == old(notes)
      ensures id in old(notebooks) ==> notebooks == old(notebooks)[id := SpreadNotebook(old(notebooks)[id], data, t)]
      ensures id !in old(notebooks) ==> notebooks == old(notebooks)
      ensures id in notebooks ==> forall k :: k in notebooks ==> notebooks[k].updatedAt <= notebooks[id].updatedAt
    {
      clock := t;
      if id in notebooks {
        notebooks := notebooks[id := SpreadNotebook(notebooks[id], data, t)];
      }
    }

    /**
     * `deleteNotebook`: inside one read-write transaction, delete the notebook's notes,
     * then the notebook. When the transaction aborts, neither table changes.
     */
    method DeleteNotebook(id: Id, aborts: bool) returns (r: Result<Unit, StorageError>)
      requires Valid()
      modifies this
      ensures Valid() && clock == old(clock)
      ensures aborts ==> r == Err(Aborted) && notebooks == old(notebooks) && notes == old(notes)
      ensures !aborts ==> r == Ok(Unit) && notebooks == old(notebooks) - {id} && notes == NotesOutside(old(notes), id)
    {
      if aborts {
        return Err(Aborted);
      }
      notes := NotesOutside(notes, id);
      notebooks := notebooks - {id};
      return Ok(Unit);
    }

    /** `createNote`: omitted or empty content is stored as "". Nothing checks that the notebook exists. */
    method CreateNote(data: CreateNoteDto, id: Id, t1: Instant, t2: Instant)
      returns (r: Result<Note, StorageError>)
      requires Valid() && clock <= t1 <= t2
      modifies this
      ensures Valid() && clock == t2 && notebooks == old(notebooks)
      ensures id in old(notes) ==> r == Err(ConstraintError(id)) && notes == old(notes)
      ensures id !in old(notes) ==>
        && r == Ok(Note(id, data.notebookId, data.title, ContentOrEmpty(data.content), t1, t2))
        && notes == old(notes)[id := r.value]
    {
      clock := t2;
      if id in notes {
        return Err(ConstraintError(id));
      }
      var n := Note(id, data.notebookId, data.title, ContentOrEmpty(data.content), t1, t2);
      notes := notes[id := n];
      return Ok(n);
    }

    /** `getNotesByNotebook`: the notebook's notes, `reverse().sortBy("updatedAt")`, newest first. */
    method GetNotesByNotebook(nb: Id) returns (r: seq<Note>)
      requires Valid()
      ensures ListsNotes(r, notes, NotesOf(notes, nb))
      ensures NotesNewestFirst(r)
      ensures forall i :: 0 <= i < |r| ==> r[i].notebookId == nb
    {
      ghost var sorted := Arrange(NotesOf(notes, nb), NoteStamps(notes));
      var ks :| OrderedSelection(ks, NotesOf(notes, nb), NoteStamps(notes));
      PickNotesOrdered(notes, ks, NotesOf(notes, nb));
      r := PickNotes(notes, ks);
    }

    /** `getNote`: the stored note, or `undefined`. */
    method GetNote(id: Id) returns (r: Option<Note>)
      requires Valid()
      ensures r.Some? <==> id in notes
      ensures r.Some? ==> r.value == notes[id] && r.value.id == id
    {
      if id in notes {
        r := Some(notes[id]);
      } else {
        r := None;
      }
    }

    /**
     * `updateNote`: the spread of the update object, so a present `notebookId` moves the
     * note. The updated note becomes the newest of the table; a missing id changes nothing.
     */
    method UpdateNote(id: Id, data: UpdateNoteDto, t: Instant)
      requires Valid() && clock <= t
      modifies this
      ensures Valid() && clock == t && notebooks == old(notebooks)
      ensures id in old(notes) ==> notes == old(notes)[id := SpreadNote(old(notes)[id], data, t)]
      ensures id !in old(notes) ==> notes == old(notes)
      ensures id in notes ==> forall k :: k in notes ==> notes[k].updatedAt <= notes[id].updatedAt
    {
      clock := t;
      if id in notes {
        notes := notes[id := SpreadNote(notes[id], data, t)];
      }
    }

    /** `deleteNote`: deleting a missing key is not an error. */
    method DeleteNote(id: Id)
      requires Valid()
      modifies this
      ensures Valid() && clock == old(clock)
      ensures notes == old(notes) - {id} && notebooks == old(notebooks)
    {
      notes := notes - {id};
    }

    /**
     * `searchNotes`: read the whole table, then keep the notes whose folded title or content
     * contains the folded query. The result is in table order, not sorted by date, and the
     * empty query keeps every note.
     */
    method SearchNotes(q: string) returns (r: seq<Note>)
      requires Valid()
      ensures ListsNotes(r, notes, MatchingNotes(notes, q))
      ensures forall i :: 0 <= i < |r| ==> Matches(r[i], q)
    {
      ghost var sorted := Arrange(notes.Keys, NoteStamps(notes));
      var all :| Enumerates(all, notes.Keys);
      PickNotesLists(notes, all, notes.Keys);
      var rows := PickNotes(notes, all);
      FilterLists(rows, notes, q);
      r := FilterMatching(rows, q);
    }
  }

  /** With the empty query the document store's search selects every note. */
  lemma EmptySearchSelectsAll(notes: map<Id, Note>)
    ensures MatchingNotes(notes, "") == notes.Keys
  {
    forall id | id in notes ensures id in MatchingNotes(notes, "") {
      EmptyQueryMatchesAll(notes[id]);
    }
  }
}
