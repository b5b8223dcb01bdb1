/**
 * The desktop backend of electron/main.ts: the `db:*` IPC handlers over a SQLite file
 * (better-sqlite3), and the `app://` protocol handler that serves the exported pages.
 * better-sqlite3 enforces foreign keys, so every note names a stored notebook.
 */
module DesktopStore {
  import opened Wrappers
  import opened Text
  import opened Ordering
  import opened Records

  /** `SET name = COALESCE(?, name), updatedAt = ?`: an absent name keeps the stored one. */
  function CoalesceNotebook(nb: Notebook, name: Option<string>, t: Instant): (r: Notebook)
    ensures r.id == nb.id && r.createdAt == nb.createdAt && r.updatedAt == t
    ensures r.name == (if name.Some? then name.value else nb.name)
  {
    nb.(name := name.GetOr(nb.name), updatedAt := t)
  }

  /**
   * `SET title = COALESCE(?, title), content = COALESCE(?, content), updatedAt = ?`:
   * the handler binds only title and content, so a note never changes notebook.
   */
  function CoalesceNote(n: Note, d: UpdateNoteDto, t: Instant): (r: Note)
    ensures r.id == n.id && r.notebookId == n.notebookId && r.createdAt == n.createdAt && r.updatedAt == t
    ensures r.title == (if d.title.Some? then d.title.value else n.title)
    ensures r.content == (if d.content.Some? then d.content.value else n.content)
  {
    n.(title := d.title.GetOr(n.title), content := d.content.GetOr(n.content), updatedAt := t)
  }

  /**
   * `LOWER(title) LIKE ? OR LOWER(content) LIKE ?` with the parameter `%query.toLowerCase()%`:
   * the query is folded by JavaScript, the columns by SQLite.
   */
  predicate SqlMatches(n: Note, q: string) {
    var p := "%" + Fold(q) + "%";
    Like(Lower(n.title), p) || Like(Lower(n.content), p)
  }

  /** The notes whose title or content is LIKE the search pattern. */
  function LikeNotes(t: map<Id, Note>, q: string): set<Id> {
    set id | id in t && SqlMatches(t[id], q)
  }

  /**
   * For a query free of '%' and '_', the SQL search is a substring test of the JavaScript-folded
   * query in the SQLite-folded title or content.
   */
  lemma SqlMatchesFolded(n: Note, q: string)
    requires NoWildcards(q)
    ensures SqlMatches(n, q) <==> Contains(Lower(n.title), Fold(q)) || Contains(Lower(n.content), Fold(q))
  {
    FoldKeepsPattern(q);
    LikeSubstring(Lower(n.title), Fold(q));
    LikeSubstring(Lower(n.content), Fold(q));
    LowerIdempotent(n.title);
    LowerIdempotent(n.content);
    LowerOfFold(q);
  }

  /** The note's texts hold no capital that SQLite's `LOWER()` leaves alone and `toLowerCase()` folds. */
  predicate AsciiCased(n: Note) {
    AsciiCapitalsOnly(n.title) && AsciiCapitalsOnly(n.content)
  }

  /**
   * For a query free of '%' and '_' and a note without non-ASCII capitals, the SQL search selects
   * exactly what the substring search selects.
   */
  lemma SqlMatchesIsSubstring(n: Note, q: string)
    requires NoWildcards(q) && AsciiCased(n)
    ensures SqlMatches(n, q) <==> Matches(n, q)
  {
    SqlMatchesFolded(n, q);
    FoldsAgree(n.title);
    FoldsAgree(n.content);
  }

  /** So, for such a query over such notes, both backends select the same notes. */
  lemma LikeNotesAgree(t: map<Id, Note>, q: string)
    requires NoWildcards(q) && forall id :: id in t ==> AsciiCased(t[id])
    ensures LikeNotes(t, q) == MatchingNotes(t, q)
  {
    forall id | id in t ensures SqlMatches(t[id], q) <==> Matches(t[id], q) {
      SqlMatchesIsSubstring(t[id], q);
    }
  }

  /** The query "_" is a wildcard here: it selects a note titled "a" that the substring search rejects. */
  lemma UnderscoreQueryDiverges(n: Note)
    requires n.title == "a" && n.content == ""
    ensures SqlMatches(n, "_") && !Matches(n, "_")
  {
    UnderscoreIsWildcard();
    assert Lower("a") == "a" && Fold("a") == "a";
    assert Fold("_") == "_";
    assert "%" + "_" + "%" == "%_%";
    assert !Contains("", "_");
  }

  /**
   * A capital outside ASCII defeats the SQL search: a note titled "\u00C9lan" is not found by its
   * own title, because `LOWER()` keeps the capital that `toLowerCase()` folded in the query,
   * while the substring search finds it.
   */
  lemma AccentedCapitalDiverges(n: Note)
    requires n.title == "\U{C9}lan" && n.content == ""
    ensures !SqlMatches(n, n.title) && Matches(n, n.title)
  {
    SqlMatchesFolded(n, n.title);
    assert Lower(n.title) == n.title;
    assert Fold(n.title) == "\U{E9}lan";
    ContainsIffOccurs(n.title, "\U{E9}lan");
    assert n.title[0..4] == n.title;
    ContainsIffOccurs("", "\U{E9}lan");
    assert Fold(n.title) <= Fold(n.title);
  }

  /** The SQLite file `notes.db` in the user-data directory, with the main process's clock. */
  class SqliteDatabase {
    var notebooks: map<Id, Notebook>
    var notes: map<Id, Note>
    /** The latest `Date.now()` reading so far. */
    var clock: Instant

    ghost predicate Valid()
      reads this
    {
      && NotebooksKeyed(notebooks) && NotesKeyed(notes)
      && TimesWithin(notebooks, notes, clock)
      && NoOrphans(notebooks, notes)
    }

    /** `initDatabase`: the `CREATE TABLE IF NOT EXISTS` statements on a new file. */
    constructor (now: Instant)
      ensures Valid()
      ensures notebooks == map[] && notes == map[] && clock == now
    {
      notebooks := map[];
      notes := map[];
      clock := now;
    }

    /** `db:createNotebook`: INSERT with a fresh id and two `Date.now()` readings. */
    method CreateNotebook(data: CreateNotebookDto, id: Id, t1: Instant, t2: Instant)
      returns (r: Result<Notebook, StorageError>)
      requires Valid() && clock <= t1 <= t2
      modifies this
      ensures Valid() && clock == t2 && notes == old(notes)
      ensures id in old(notebooks) ==> r == Err(ConstraintError(id)) && notebooks == old(notebooks)
      ensures id !in old(notebooks) ==>
        && r == Ok(Notebook(id, data.name, t1, t2))
        && notebooks == old(notebooks)[id := r.value]
    {
      clock := t2;
      if id in notebooks {
        return Err(ConstraintError(id));
      }
      var nb := Notebook(id, data.name, t1, t2);
      notebooks := notebooks[id := nb];
      return Ok(nb);
    }

    /** `db:getAllNotebooks`: `ORDER BY updatedAt DESC`. */
    method GetAllNotebooks() returns (r: seq<Notebook>)
      requires Valid()
      ensures ListsNotebooks(r, notebooks, notebooks.Keys)
      ensures NotebooksNewestFirst(r)
    {
      ghost var sorted := Arrange(notebooks.Keys, NotebookStamps(notebooks));
      var ks :| OrderedSelection(ks, notebooks.Keys, NotebookStamps(notebooks));
      PickNotebooksOrdered(notebooks, ks, notebooks.Keys);
      r := PickNotebooks(notebooks, ks);
    }

    /** `db:getNotebook`: the row, or `undefined` when there is none. */
    method GetNotebook(id: Id) returns (r: Option<Notebook>)
      requires Valid()
      ensures r.Some? <==> id in notebooks
      ensures r.Some? ==> r.value == notebooks[id] && r.value.id == id
    {
      if id in notebooks {
        r := Some(notebooks[id]);
      } else {
        r := None;
      }
    }

    /** `db:updateNotebook`: an UPDATE that matches no row changes nothing. */
    method UpdateNotebook(id: Id, data: UpdateNotebookDto, t: Instant)
      requires Valid() && clock <= t
      modifies this
      ensures Valid() && clock == t && notes == old(notes)
      ensures id in old(notebooks) ==> notebooks == old(notebooks)[id := CoalesceNotebook(old(notebooks)[id], data.name, t)]
      ensures id !in old(notebooks) ==> notebooks == old(notebooks)
      ensures id in notebooks ==> forall k :: k in notebooks ==> notebooks[k].updatedAt <= notebooks[id].updatedAt
    {
      clock := t;
      if id in notebooks {
        notebooks := notebooks[id := CoalesceNotebook(notebooks[id], data.name, t)];
      }
    }

    /**
     * `db:deleteNotebook`: BEGIN, delete the notebook's notes, delete the notebook, COMMIT.
     * When a statement or the commit fails, ROLLBACK restores both tables and the error is rethrown.
     */
    method DeleteNotebook(id: Id, fails: bool) returns (r: Result<Unit, StorageError>)
      requires Valid()
      modifies this
      ensures Valid() && clock == old(clock)
      ensures fails ==> r == Err(Aborted) && notebooks == old(notebooks) && notes == old(notes)
      ensures !fails ==> r == Ok(Unit) && notebooks == old(notebooks) - {id} && notes == NotesOutside(old(notes), id)
    {
      var savedNotebooks, savedNotes := notebooks, notes;
      notes := NotesOutside(notes, id);
      notebooks := notebooks - {id};
      CascadeKeepsNoOrphans(savedNotebooks, savedNotes, id);
      if fails {
        notebooks, notes := savedNotebooks, savedNotes;
        return Err(Aborted);
      }
      return Ok(Unit);
    }

    /**
     * `db:createNote`: omitted or empty content is stored as "". The foreign key rejects a
     * note whose notebook is not stored.
     */
    method CreateNote(data: CreateNoteDto, id: Id, t1: Instant, t2: Instant)
      returns (r: Result<Note, StorageError>)
      requires Valid() && clock <= t1 <= t2
      modifies this
      ensures Valid() && clock == t2 && notebooks == old(notebooks)
      ensures r.Err? ==> notes == old(notes)
      ensures r.Err? <==> id in old(notes) || data.notebookId !in old(notebooks)
      ensures id in old(notes) ==> r == Err(ConstraintError(id))
      ensures id !in old(notes) && data.notebookId !in old(notebooks) ==> r == Err(ForeignKeyViolation(data.notebookId))
      ensures r.Ok? ==>
        && r.value == Note(id, data.notebookId, data.title, ContentOrEmpty(data.content), t1, t2)
        && notes == old(notes)[id := r.value]
    {
      clock := t2;
      if id in notes {
        return Err(ConstraintError(id));
      }
      if data.notebookId !in notebooks {
        return Err(ForeignKeyViolation(data.notebookId));
      }
      var n := Note(id, data.notebookId, data.title, ContentOrEmpty(data.content), t1, t2);
      notes := notes[id := n];
      return Ok(n);
    }

    /** `db:getNotesByNotebook`: `WHERE notebookId = ? ORDER BY updatedAt DESC`. */
    method GetNotesByNotebook(nb: Id) returns (r: seq<Note>)
      requires Valid()
      ensures ListsNotes(r, notes, NotesOf(notes, nb))
      ensures NotesNewestFirst(r)
      ensures forall i :: 0 <= i < |r| ==> r[i].notebookId == nb
    {
      ghost var sorted := Arrange(NotesOf(notes, nb), NoteStamps(notes));
      var ks :| OrderedSelection(ks, NotesOf(notes, nb), NoteStamps(notes));
      PickNotesOrdered(notes, ks, NotesOf(notes, nb));
      r := PickNotes(notes, ks);
    }

    /** `db:getNote`: the row, or `undefined` when there is none. */
    method GetNote(id: Id) returns (r: Option<Note>)
      requires Valid()
      ensures r.Some? <==> id in notes
      ensures r.Some? ==> r.value == notes[id] && r.value.id == id
    {
      if id in notes {
        r := Some(notes[id]);
      } else {
        r := None;
      }
    }

    /** `db:updateNote`: title and content through COALESCE; the note becomes the newest. */
    method UpdateNote(id: Id, data: UpdateNoteDto, t: Instant)
      requires Valid() && clock <= t
      modifies this
      ensures Valid() && clock == t && notebooks == old(notebooks)
      ensures id in old(notes) ==> notes == old(notes)[id := CoalesceNote(old(notes)[id], data, t)]
      ensures id !in old(notes) ==> notes == old(notes)
      ensures id in notes ==> forall k :: k in notes ==> notes[k].updatedAt <= notes[id].updatedAt
    {
      clock := t;
      if id in notes {
        notes := notes[id := CoalesceNote(notes[id], data, t)];
      }
    }

    /** `db:deleteNote`. */
    method DeleteNote(id: Id)
      requires Valid()
      modifies this
      ensures Valid() && clock == old(clock)
      ensures notes == old(notes) - {id} && notebooks == old(notebooks)
    {
      notes := notes - {id};
    }

    /** `db:searchNotes`: the LIKE search, `ORDER BY updatedAt DESC`. */
    method SearchNotes(q: string) returns (r: seq<Note>)
      requires Valid()
      ensures ListsNotes(r, notes, LikeNotes(notes, q))
      ensures NotesNewestFirst(r)
      ensures NoWildcards(q) && (forall id :: id in notes ==> AsciiCased(notes[id])) ==>
        ListsNotes(r, notes, MatchingNotes(notes, q))
    {
      ghost var sorted := Arrange(LikeNotes(notes, q), NoteStamps(notes));
      var ks :| OrderedSelection(ks, LikeNotes(notes, q), NoteStamps(notes));
      PickNotesOrdered(notes, ks, LikeNotes(notes, q));
      r := PickNotes(notes, ks);
      if NoWildcards(q) && forall id :: id in notes ==> AsciiCased(notes[id]) {
        LikeNotesAgree(notes, q);
      }
    }
  }

  // ---------------------------------------------------------------------------
  // The app:// protocol

  /** The content types the protocol handler knows, by lower-cased extension. */
  const MimeTypes: map<string, string> := map[
    ".html" := "text/html",
    ".css" := "text/css",
    ".js" := "text/javascript",
    ".json" := "application/json",
    ".png" := "image/png",
    ".jpg" := "image/jpeg",
    ".svg" := "image/svg+xml",
    ".woff" := "font/woff",
    ".woff2" := "font/woff2"
  ]

  const DefaultContentType := "application/octet-stream"

  /** `mimeTypes[ext.toLowerCase()] || "application/octet-stream"`. */
  function ContentType(ext: string): (r: string)
    ensures Fold(ext) in MimeTypes ==> r == MimeTypes[Fold(ext)]
    ensures Fold(ext) !in MimeTypes ==> r == DefaultContentType
  {
    if Fold(ext) in MimeTypes then MimeTypes[Fold(ext)] else DefaultContentType
  }

  /** The lookup ignores the case of the extension. */
  lemma ContentTypeIgnoresCase(ext: string)
    ensures ContentType(Fold(ext)) == ContentType(ext)
  {
    FoldIdempotent(ext);
  }

  /** The default is returned exactly for the extensions that are not in the table. */
  lemma ContentTypeDefault(ext: string)
    ensures ContentType(ext) == DefaultContentType <==> Fold(ext) !in MimeTypes
  {
    assert DefaultContentType !in MimeTypes.Values;
  }

  datatype Body = Bytes(data: seq<bv8>) | Plain(text: string)

  datatype Response = Response(status: int, contentType: Option<string>, body: Body)

  /**
   * The answer of the `app` protocol handler: the file's bytes with the content type of its
   * extension, or 404 "Not found" when reading the file failed. The 404 sets no content type
   * (None); the Fetch `Response` then reports `text/plain;charset=UTF-8` for its text body.
   */
  function ServeAsset(ext: string, file: Option<seq<bv8>>): (r: Response)
    ensures file.Some? ==> r.status == 200 && r.body == Bytes(file.value) && r.contentType == Some(ContentType(ext))
    ensures file.None? ==> r.status == 404 && r.body == Plain("Not found") && r.contentType.None?
  {
    match file
    case Some(data) => Response(200, Some(ContentType(ext)), Bytes(data))
    case None => Response(404, None, Plain("Not found"))
  }
}
