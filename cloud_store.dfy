/**
 * The hosted backend of lib/supabase-storage.ts: the `notebooks` and `notes` tables of a
 * Supabase (PostgREST) project, reached through supabase-js, and the `note-images` bucket.
 * The server assigns ids and creation times; the client stamps updates with its own clock,
 * so no ordering between the two clocks is assumed. Every request may fail remotely:
 * that outcome is a parameter, and a failed request changes nothing.
 */
module CloudStore {
  import opened Wrappers
  import opened Text
  import opened Ordering
  import opened Records

  /** A row of `notebooks` (types/supabase.ts), with timestamps read as instants. */
  datatype NotebookRow = NotebookRow(id: Id, name: string, color: string, created_at: Instant, updated_at: Instant)

  /** A row of `notes`. */
  datatype NoteRow = NoteRow(
    id: Id,
    notebook_id: Id,
    title: string,
    content: string,
    created_at: Instant,
    updated_at: Instant)

  /** The colour every notebook is created with. */
  const DefaultColor := "#3b82f6"

  /** The PostgREST code for "`.single()` found no row (or several)". */
  const NoSingleRow := "PGRST116"

  /** The PostgREST code for a filter it cannot parse. */
  const BadFilter := "PGRST100"

  // ---------------------------------------------------------------------------
  // Rows and records

  /** The object literal that turns a notebook row into a `Notebook`: the colour is dropped. */
  function NotebookOf(row: NotebookRow): (nb: Notebook)
    ensures nb.id == row.id && nb.name == row.name
    ensures nb.createdAt == row.created_at && nb.updatedAt == row.updated_at
  {
    Notebook(row.id, row.name, row.created_at, row.updated_at)
  }

  /** The object literal that turns a note row into a `Note`. */
  function NoteOf(row: NoteRow): (n: Note)
    ensures n.id == row.id && n.notebookId == row.notebook_id
    ensures n.title == row.title && n.content == row.content
    ensures n.createdAt == row.created_at && n.updatedAt == row.updated_at
  {
    Note(row.id, row.notebook_id, row.title, row.content, row.created_at, row.updated_at)
  }

  /** The row a note is read from. */
  function RowOf(n: Note): NoteRow {
    NoteRow(n.id, n.notebookId, n.title, n.content, n.createdAt, n.updatedAt)
  }

  /** Reading a row loses nothing: rows and notes are in one-to-one correspondence. */
  lemma NoteRowRoundTrip(n: Note, row: NoteRow)
    ensures NoteOf(RowOf(n)) == n
    ensures RowOf(NoteOf(row)) == row
    ensures NoteOf(row) == n <==> row == RowOf(n)
  {
  }

  /** What the client sees of the notebooks table. */
  function NotebooksView(rows: map<Id, NotebookRow>): (t: map<Id, Notebook>)
    ensures t.Keys == rows.Keys
    ensures forall id :: id in rows ==> t[id] == NotebookOf(rows[id])
  {
    map id | id in rows :: NotebookOf(rows[id])
  }

  /** What the client sees of the notes table. */
  function NotesView(rows: map<Id, NoteRow>): (t: map<Id, Note>)
    ensures t.Keys == rows.Keys
    ensures forall id :: id in rows ==> t[id] == NoteOf(rows[id])
  {
    map id | id in rows :: NoteOf(rows[id])
  }

  // ---------------------------------------------------------------------------
  // `.single()` and update payloads

  /**
   * The answer to a `.single()` read as the client hands it on: no row (`PGRST116`) is `null`,
   * any other error is thrown, a row is returned.
   */
  function SingleOrNull<T>(answer: Result<T, StorageError>): (r: Result<Option<T>, StorageError>)
    ensures answer.Ok? ==> r == Ok(Some(answer.value))
    ensures answer.Err? && answer.error.PostgrestError? && answer.error.code == NoSingleRow ==> r == Ok(None)
    ensures r.Err? <==> answer.Err? && !(answer.error.PostgrestError? && answer.error.code == NoSingleRow)
    ensures r.Err? ==> r.error == answer.error
  {
    match answer
    case Ok(v) => Ok(Some(v))
    case Err(e) => if e.PostgrestError? && e.code == NoSingleRow then Ok(None) else Err(e)
  }

  /** The body of a notebook update: `name` (dropped by JSON when undefined) and `updated_at`. */
  datatype NotebookPatch = NotebookPatch(name: Option<string>, updated_at: Instant)

  /** The body of a note update: only the fields given, and always `updated_at`. */
  datatype NotePatch = NotePatch(title: Option<string>, content: Option<string>, updated_at: Instant)

  function NotebookPayload(d: UpdateNotebookDto, now: Instant): NotebookPatch {
    NotebookPatch(d.name, now)
  }

  /** The note payload never carries a notebook: a note cannot be moved through this backend. */
  function NotePayload(d: UpdateNoteDto, now: Instant): NotePatch {
    NotePatch(d.title, d.content, now)
  }

  function PatchNotebook(row: NotebookRow, p: NotebookPatch): NotebookRow {
    row.(name := p.name.GetOr(row.name), updated_at := p.updated_at)
  }

  function PatchNote(row: NoteRow, p: NotePatch): NoteRow {
    row.(title := p.title.GetOr(row.title), content := p.content.GetOr(row.content), updated_at := p.updated_at)
  }

  /**
   * An update through this backend as the client sees it: the given fields replaced, the
   * update instant stamped, and the id, notebook and creation time untouched.
   */
  lemma PatchNoteEffect(row: NoteRow, d: UpdateNoteDto, now: Instant)
    ensures var n := NoteOf(PatchNote(row, NotePayload(d, now)));
      && n.id == row.id && n.notebookId == row.notebook_id && n.createdAt == row.created_at
      && n.updatedAt == now
      && n.title == (if d.title.Some? then d.title.value else row.title)
      && n.content == (if d.content.Some? then d.content.value else row.content)
  {
  }

  /** A notebook update keeps the colour and everything but the name and `updated_at`. */
  lemma PatchNotebookEffect(row: NotebookRow, d: UpdateNotebookDto, now: Instant)
    ensures var r := PatchNotebook(row, NotebookPayload(d, now));
      && r.id == row.id && r.color == row.color && r.created_at == row.created_at
      && r.updated_at == now
      && r.name == (if d.name.Some? then d.name.value else row.name)
  {
  }

  // ---------------------------------------------------------------------------
  // The search filter

  const TitleILike := "title.ilike."
  const ContentILike := "content.ilike."

  /** The argument of `.or(...)`: `title.ilike.%q%,content.ilike.%q%`, with the query spliced in as is. */
  function SearchFilter(q: string): string {
    TitleILike + "%" + q + "%" + "," + ContentILike + "%" + q + "%"
  }

  datatype Column = TitleColumn | ContentColumn

  /** One condition of a PostgREST `or` filter: `column.ilike.pattern`. */
  datatype Condition = ILikeOn(column: Column, pattern: string)

  /** How the server reads one comma-separated piece of the filter. */
  function ParseCondition(s: string): (r: Option<Condition>)
    ensures r.Some? ==> |r.value.pattern| <= |s| && r.value.pattern == s[|s| - |r.value.pattern|..]
  {
    if TitleILike <= s then Some(ILikeOn(TitleColumn, s[|TitleILike|..]))
    else if ContentILike <= s then Some(ILikeOn(ContentColumn, s[|ContentILike|..]))
    else None
  }

  /** Every piece must be a condition; one that is not makes the server reject the request. */
  function ParseConditions(parts: seq<string>): (r: Option<seq<Condition>>)
    ensures r.Some? ==> |r.value| == |parts|
    ensures r.Some? ==> forall i :: 0 <= i < |parts| ==> ParseCondition(parts[i]) == Some(r.value[i])
  {
    if parts == [] then Some([])
    else match (ParseCondition(parts[0]), ParseConditions(parts[1..]))
      case (Some(c), Some(cs)) => Some([c] + cs)
      case _ => None
  }

  /**
   * The server's reading of the request parameter `or=(f)`, simplified to ILIKE conditions on the
   * two text columns: a ')' in f closes the list early and leaves text the parser cannot read;
   * otherwise the pieces between commas, each parsed as a condition.
   */
  function ParseOrFilter(f: string): (r: Result<seq<Condition>, StorageError>)
    ensures r.Err? ==> r.error == PostgrestError(BadFilter, "failed to parse logic tree")
    ensures ')' in f ==> r.Err?
  {
    if ')' in f then Err(PostgrestError(BadFilter, "failed to parse logic tree"))
    else match ParseConditions(Split(f, ','))
      case Some(cs) => Ok(cs)
      case None => Err(PostgrestError(BadFilter, "failed to parse logic tree"))
  }

  /** The two conditions the search means to send. */
  function IntendedConditions(q: string): seq<Condition> {
    [ILikeOn(TitleColumn, "%" + q + "%"), ILikeOn(ContentColumn, "%" + q + "%")]
  }

  /** The filter is read back as intended exactly when the query holds no comma and no ')'. */
  lemma SearchFilterReadsBack(q: string)
    ensures ParseOrFilter(SearchFilter(q)) == Ok(IntendedConditions(q)) <==> ',' !in q && ')' !in q
  {
    var a := TitleILike + "%" + q + "%";
    var b := ContentILike + "%" + q + "%";
    var single: seq<string> := [b];
    var both: seq<string> := [a, b];
    assert both[1..] == single;
    assert SearchFilter(q) == Join(both, ',');
    if ',' !in q && ')' !in q {
      assert ',' !in a && ',' !in b;
      assert ')' !in SearchFilter(q);
      SplitJoin(both, ',');
      assert a[|TitleILike|..] == "%" + q + "%";
      assert b[|ContentILike|..] == "%" + q + "%";
      assert !(TitleILike <= b) by { assert b[0] != TitleILike[0]; }
      var ca, cb := ILikeOn(TitleColumn, "%" + q + "%"), ILikeOn(ContentColumn, "%" + q + "%");
      assert ParseCondition(a) == Some(ca);
      assert ParseCondition(b) == Some(cb);
      assert single[1..] == [];
      assert ParseConditions(single[1..]) == Some([]);
      assert [cb] + [] == [cb];
      assert ParseConditions(single) == Some([cb]);
      assert [ca] + [cb] == [ca, cb];
      assert ParseConditions(both) == Some([ca, cb]);
    } else if ')' in q {
      ParenBreaksFilter(q);
    } else {
      CommaBreaksFilter(q);
    }
  }

  /** Every pattern the server reads lies inside one comma-free piece, so it holds no comma. */
  lemma ParsedPatternsCommaFree(f: string)
    ensures var r := ParseOrFilter(f);
      r.Ok? ==> forall i :: 0 <= i < |r.value| ==> ',' !in r.value[i].pattern
  {
    var parts := Split(f, ',');
    var r := ParseOrFilter(f);
    if r.Ok? {
      forall i | 0 <= i < |r.value| ensures ',' !in r.value[i].pattern {
        var part := parts[i];
        var p := r.value[i].pattern;
        assert ParseCondition(part) == Some(r.value[i]);
        forall k | 0 <= k < |p| ensures p[k] == part[|part| - |p| + k] {
        }
      }
    }
  }

  /** A comma in the query splits its condition in two, so the intended conditions cannot come back. */
  lemma CommaBreaksFilter(q: string)
    requires ',' in q
    ensures ParseOrFilter(SearchFilter(q)) != Ok(IntendedConditions(q))
  {
    ParsedPatternsCommaFree(SearchFilter(q));
    var k :| 0 <= k < |q| && q[k] == ',';
    assert IntendedConditions(q)[0].pattern[k + 1] == ',';
  }

  /** A ')' in the query ends the `or` list early, so the server rejects the whole search. */
  lemma ParenBreaksFilter(q: string)
    requires ')' in q
    ensures ParseOrFilter(SearchFilter(q)).Err?
  {
    assert ')' in SearchFilter(q);
  }

  /** A note satisfies some condition of the list (ILIKE on the named column). */
  predicate AnyCondition(row: NoteRow, cs: seq<Condition>) {
    exists i :: 0 <= i < |cs| && Holds(row, cs[i])
  }

  /** PostgREST reads '*' in a LIKE or ILIKE pattern as '%'. */
  function Starred(p: string): (r: string)
    ensures |r| == |p|
    ensures forall i :: 0 <= i < |p| ==> r[i] == if p[i] == '*' then '%' else p[i]
  {
    if p == [] then [] else [if p[0] == '*' then '%' else p[0]] + Starred(p[1..])
  }

  /** The row satisfies the condition: ILIKE on the named column, '*' standing for '%'. */
  predicate Holds(row: NoteRow, c: Condition) {
    match c.column
    case TitleColumn => ILike(row.title, Starred(c.pattern))
    case ContentColumn => ILike(row.content, Starred(c.pattern))
  }

  /** The ids of the rows that satisfy some condition. */
  function FilteredNotes(rows: map<Id, NoteRow>, cs: seq<Condition>): set<Id> {
    set id | id in rows && AnyCondition(rows[id], cs)
  }

  /**
   * A query in which neither the filter syntax nor the pattern syntax sees a special character:
   * no '%', '_', backslash or '*', no ',' and no ')'.
   */
  predicate PlainQuery(q: string) {
    Literal(q) && '*' !in q && ',' !in q && ')' !in q
  }

  /** For a plain query, the filter selects exactly the notes that match. */
  lemma SearchSelectsMatches(rows: map<Id, NoteRow>, q: string)
    requires PlainQuery(q)
    ensures FilteredNotes(rows, IntendedConditions(q)) == MatchingNotes(NotesView(rows), q)
  {
    var cs := IntendedConditions(q);
    var p := "%" + q + "%";
    assert Starred(p) == p by {
      assert forall i :: 0 <= i < |p| ==> p[i] != '*';
    }
    forall id | id in rows
      ensures AnyCondition(rows[id], cs) <==> Matches(NoteOf(rows[id]), q)
    {
      var row := rows[id];
      ILikeSubstring(row.title, q);
      ILikeSubstring(row.content, q);
      assert Holds(row, cs[0]) <==> Contains(Fold(row.title), Fold(q));
      assert Holds(row, cs[1]) <==> Contains(Fold(row.content), Fold(q));
    }
  }

  /** The query "*" is read back as sent, yet PostgREST turns it into `%%%`, which every note satisfies. */
  lemma StarSelectsEveryNote(rows: map<Id, NoteRow>)
    ensures ParseOrFilter(SearchFilter("*")) == Ok(IntendedConditions("*"))
    ensures FilteredNotes(rows, IntendedConditions("*")) == rows.Keys
  {
    SearchFilterReadsBack("*");
    var cs := IntendedConditions("*");
    assert cs[0] == ILikeOn(TitleColumn, "%*%");
    forall id | id in rows ensures AnyCondition(rows[id], cs) {
      StarPatternHolds(rows[id].title);
      assert Holds(rows[id], cs[0]);
    }
  }

  /** The pattern `%*%` holds of every text. */
  lemma StarPatternHolds(s: string)
    ensures ILike(s, Starred("%*%"))
  {
    var p := Starred("%*%");
    assert p == "%%%";
    assert Fold(p) == p;
    assert p[1..] == "%%" && p[1..][1..] == "%";
    PgLikeAnyRun(Fold(s));
  }

  /** So the cloud search for "*" selects a note titled "a", which the substring search rejects. */
  lemma StarQueryDiverges(row: NoteRow)
    requires row.title == "a" && row.content == ""
    ensures AnyCondition(row, IntendedConditions("*")) && !Matches(NoteOf(row), "*")
  {
    var rows := map[row.id := row];
    StarSelectsEveryNote(rows);
    assert row.id in FilteredNotes(rows, IntendedConditions("*"));
    assert Fold("a") == "a" && Fold("*") == "*" && Fold("") == "";
    ContainsIffOccurs("a", "*");
    ContainsIffOccurs("", "*");
  }

  /**
   * A backslash in the query escapes the next character: the search for "a\\b" is read back as
   * sent and selects a note titled "ab", which the substring search rejects.
   */
  lemma BackslashQueryDiverges(row: NoteRow)
    requires row.title == "ab" && row.content == ""
    ensures ParseOrFilter(SearchFilter("a\\b")) == Ok(IntendedConditions("a\\b"))
    ensures AnyCondition(row, IntendedConditions("a\\b")) && !Matches(NoteOf(row), "a\\b")
  {
    SearchFilterReadsBack("a\\b");
    var cs := IntendedConditions("a\\b");
    assert cs[0] == ILikeOn(TitleColumn, "%a\\b%");
    BackslashPatternHolds();
    assert Holds(row, cs[0]);
    BackslashNotContained(NoteOf(row));
  }

  /** A note titled "ab" with no content does not contain "a\\b". */
  lemma BackslashNotContained(n: Note)
    requires n.title == "ab" && n.content == ""
    ensures !Matches(n, "a\\b")
  {
    BackslashEscapes();
    assert Fold("ab") == "ab" && Fold("a\\b") == "a\\b" && Fold("") == "";
    ContainsIffOccurs("", "a\\b");
  }

  /** The pattern `%a\\b%` holds of the text "ab". */
  lemma BackslashPatternHolds()
    ensures ILike("ab", Starred("%a\\b%"))
  {
    var p := Starred("%a\\b%");
    assert p == "%a\\b%";
    assert Fold("ab") == "ab" && Fold(p) == p;
    BackslashEscapes();
  }

  // ---------------------------------------------------------------------------
  // Images

  const Bucket := "note-images"
  const PublicPrefix := "/storage/v1/object/public/" + Bucket + "/"

  /** A parsed URL: origin and pathname. */
  datatype Url = Url(origin: string, pathname: string)

  /** `file.name.split('.').pop()`: the text after the last dot, or the whole name when it has none. */
  function Extension(name: string): (ext: string)
    ensures '.' !in ext
    ensures '.' !in name ==> ext == name
    ensures '.' in name ==> |ext| < |name| && name == name[..|name| - |ext| - 1] + "." + ext
  {
    var ext := LastSegment(name, '.');
    assert '.' in name ==> |ext| < |name| && name == name[..|name| - |ext| - 1] + "." + ext by {
      if '.' in name {
        assert name[|name| - |ext| - 1] == '.';
        assert name[..|name| - |ext| - 1] + [name[|name| - |ext| - 1]] + name[|name| - |ext|..] == name;
      }
    }
    ext
  }

  /** `${crypto.randomUUID()}.${fileExt}`: the object key of an upload. */
  function ObjectKey(uuid: string, name: string): (key: string)
    ensures key == uuid + "." + Extension(name)
    ensures '/' !in uuid && '/' !in name ==> '/' !in key
  {
    var key := uuid + "." + Extension(name);
    assert '/' !in name ==> '/' !in Extension(name) by {
      var ext := LastSegment(name, '.');
      forall k | 0 <= k < |ext| ensures ext[k] == name[|name| - |ext| + k] {
      }
    }
    key
  }

  /** `getPublicUrl(key)`: the object's address under the project origin. */
  function PublicUrl(origin: string, key: string): Url {
    Url(origin, PublicPrefix + key)
  }

  /** `deleteImage`'s reading of a URL: the last '/'-separated piece of its pathname. */
  function ImageKey(url: Url): (key: string)
    ensures '/' !in key
  {
    LastSegment(url.pathname, '/')
  }

  /** The key read back from a public URL is the key uploaded, when the key holds no '/'. */
  lemma ImageKeyRoundTrip(origin: string, key: string)
    requires '/' !in key
    ensures ImageKey(PublicUrl(origin, key)) == key
  {
    var s := PublicPrefix + key;
    var r := LastSegment(s, '/');
    assert s[|s| - |key| - 1] == '/';
    forall j | |s| - |r| <= j < |s| ensures s[j] != '/' {
      assert s[j] == r[j - (|s| - |r|)];
    }
    forall j | |s| - |key| <= j < |s| ensures s[j] != '/' {
      assert s[j] == key[j - (|s| - |key|)];
    }
    assert |r| == |key|;
  }

  // ---------------------------------------------------------------------------
  // The project

  /** The Supabase project: its two tables, its image bucket and its origin. */
  class Project {
    var notebookRows: map<Id, NotebookRow>
    var noteRows: map<Id, NoteRow>
    var objects: set<string>
    const origin: string

    /**
     * Rows are stored under their own ids and every note names a stored notebook: the
     * foreign key the delete relies on to cascade.
     */
    ghost predicate Valid()
      reads this
    {
      && (forall id :: id in notebookRows ==> notebookRows[id].id == id)
      && (forall id :: id in noteRows ==> noteRows[id].id == id)
      && (forall id :: id in noteRows ==> noteRows[id].notebook_id in notebookRows)
    }

    constructor (origin: string)
      ensures Valid()
      ensures notebookRows == map[] && noteRows == map[] && objects == {} && this.origin == origin
    {
      notebookRows := map[];
      noteRows := map[];
      objects := {};
      this.origin := origin;
    }

    /**
     * `createNotebook`: insert `{name, color}`; the server picks the id and both timestamps
     * (`now`), and `.select().single()` returns the new row.
     */
    method CreateNotebook(data: CreateNotebookDto, id: Id, now: Instant, failure: Option<StorageError>)
      returns (r: Result<Notebook, StorageError>)
      requires Valid()
      modifies this
      ensures Valid() && noteRows == old(noteRows) && objects == old(objects)
      ensures failure.Some? ==> r == Err(failure.value)
      ensures failure.None? && id in old(notebookRows) ==> r == Err(ConstraintError(id))
      ensures r.Err? ==> notebookRows == old(notebookRows)
      ensures failure.None? && id !in old(notebookRows) ==>
        && r == Ok(Notebook(id, data.name, now, now))
        && notebookRows == old(notebookRows)[id := NotebookRow(id, data.name, DefaultColor, now, now)]
    {
      if failure.Some? {
        return Err(failure.value);
      }
      if id in notebookRows {
        return Err(ConstraintError(id));
      }
      var row := NotebookRow(id, data.name, DefaultColor, now, now);
      notebookRows := notebookRows[id := row];
      return Ok(NotebookOf(row));
    }

    /** `getAllNotebooks`: `order('updated_at', { ascending: false })`. */
    method GetAllNotebooks(failure: Option<StorageError>) returns (r: Result<seq<Notebook>, StorageError>)
      requires Valid()
      ensures failure.Some? ==> r == Err(failure.value)
      ensures failure.None? ==> r.Ok?
      ensures r.Ok? ==> ListsNotebooks(r.value, NotebooksView(notebookRows), notebookRows.Keys)
      ensures r.Ok? ==> NotebooksNewestFirst(r.value)
    {
      if failure.Some? {
        return Err(failure.value);
      }
      var view := NotebooksView(notebookRows);
      ghost var sorted := Arrange(view.Keys, NotebookStamps(view));
      var ks :| OrderedSelection(ks, view.Keys, NotebookStamps(view));
      PickNotebooksOrdered(view, ks, view.Keys);
      return Ok(PickNotebooks(view, ks));
    }

    /** `getNotebook`: `.eq('id', id).single()`, with "no row" read as `null`. */
    method GetNotebook(id: Id, failure: Option<StorageError>) returns (r: Result<Option<Notebook>, StorageError>)
      requires Valid()
      ensures failure.None? ==> r.Ok? && (r.value.Some? <==> id in notebookRows)
      ensures failure.None? && id in notebookRows ==> r.value.value == NotebookOf(notebookRows[id])
      ensures failure.Some? ==> r == SingleOrNull<Notebook>(Err(failure.value))
    {
      var answer: Result<Notebook, StorageError>;
      if failure.Some? {
        answer := Err(failure.value);
      } else if id in notebookRows {
        answer := Ok(NotebookOf(notebookRows[id]));
      } else {
        answer := Err(PostgrestError(NoSingleRow, "JSON object requested, multiple (or no) rows returned"));
      }
      r := SingleOrNull(answer);
    }

    /** `updateNotebook`: PATCH the row with `{name, updated_at}`; no matching row is not an error. */
    method UpdateNotebook(id: Id, data: UpdateNotebookDto, now: Instant, failure: Option<StorageError>)
      returns (r: Result<Unit, StorageError>)
      requires Valid()
      modifies this
      ensures Valid() && noteRows == old(noteRows) && objects == old(objects)
      ensures failure.Some? ==> r == Err(failure.value) && notebookRows == old(notebookRows)
      ensures failure.None? ==> r == Ok(Unit)
      ensures failure.None? && id in old(notebookRows) ==>
        notebookRows == old(notebookRows)[id := PatchNotebook(old(notebookRows)[id], NotebookPayload(data, now))]
      ensures id !in old(notebookRows) ==> notebookRows == old(notebookRows)
    {
      if failure.Some? {
        return Err(failure.value);
      }
      if id in notebookRows {
        notebookRows := notebookRows[id := PatchNotebook(notebookRows[id], NotebookPayload(data, now))];
      }
      return Ok(Unit);
    }

    /** `deleteNotebook`: delete the row; the foreign key's ON DELETE CASCADE removes its notes. */
    method DeleteNotebook(id: Id, failure: Option<StorageError>) returns (r: Result<Unit, StorageError>)
      requires Valid()
      modifies this
      ensures Valid() && objects == old(objects)
      ensures failure.Some? ==> r == Err(failure.value) && notebookRows == old(notebookRows) && noteRows == old(noteRows)
      ensures failure.None? ==> r == Ok(Unit) && notebookRows == old(notebookRows) - {id}
      ensures failure.None? ==> NotesView(noteRows) == NotesOutside(NotesView(old(noteRows)), id)
    {
      if failure.Some? {
        return Err(failure.value);
      }
      noteRows := map k | k in noteRows && noteRows[k].notebook_id != id :: noteRows[k];
      notebookRows := notebookRows - {id};
      return Ok(Unit);
    }

    /** `createNote`: insert `{notebook_id, title, content || ''}`; the foreign key checks the notebook. */
    method CreateNote(data: CreateNoteDto, id: Id, now: Instant, failure: Option<StorageError>)
      returns (r: Result<Note, StorageError>)
      requires Valid()
      modifies this
      ensures Valid() && notebookRows == old(notebookRows) && objects == old(objects)
      ensures r.Err? ==> noteRows == old(noteRows)
      ensures failure.Some? ==> r == Err(failure.value)
      ensures failure.None? ==> (r.Err? <==> id in old(noteRows) || data.notebookId !in old(notebookRows))
      ensures failure.None? && id in old(noteRows) ==> r == Err(ConstraintError(id))
      ensures failure.None? && id !in old(noteRows) && data.notebookId !in old(notebookRows) ==>
        r == Err(ForeignKeyViolation(data.notebookId))
      ensures r.Ok? ==>
        && r.value == Note(id, data.notebookId, data.title, ContentOrEmpty(data.content), now, now)
        && noteRows == old(noteRows)[id := RowOf(r.value)]
    {
      if failure.Some? {
        return Err(failure.value);
      }
      if id in noteRows {
        return Err(ConstraintError(id));
      }
      if data.notebookId !in notebookRows {
        return Err(ForeignKeyViolation(data.notebookId));
      }
      var row := NoteRow(id, data.notebookId, data.title, ContentOrEmpty(data.content), now, now);
      noteRows := noteRows[id := row];
      return Ok(NoteOf(row));
    }

    /** `getNotesByNotebook`: `.eq('notebook_id', notebookId)`, newest first. */
    method GetNotesByNotebook(nb: Id, failure: Option<StorageError>) returns (r: Result<seq<Note>, StorageError>)
      requires Valid()
      ensures failure.Some? ==> r == Err(failure.value)
      ensures failure.None? ==> r.Ok?
      ensures r.Ok? ==> ListsNotes(r.value, NotesView(noteRows), NotesOf(NotesView(noteRows), nb))
      ensures r.Ok? ==> NotesNewestFirst(r.value)
    {
      if failure.Some? {
        return Err(failure.value);
      }
      var view := NotesView(noteRows);
      ghost var sorted := Arrange(NotesOf(view, nb), NoteStamps(view));
      var ks :| OrderedSelection(ks, NotesOf(view, nb), NoteStamps(view));
      PickNotesOrdered(view, ks, NotesOf(view, nb));
      return Ok(PickNotes(view, ks));
    }

    /** `getNote`: `.eq('id', id).single()`, with "no row" read as `null`. */
    method GetNote(id: Id, failure: Option<StorageError>) returns (r: Result<Option<Note>, StorageError>)
      requires Valid()
      ensures failure.None? ==> r.Ok? && (r.value.Some? <==> id in noteRows)
      ensures failure.None? && id in noteRows ==> r.value.value == NoteOf(noteRows[id])
      ensures failure.Some? ==> r == SingleOrNull<Note>(Err(failure.value))
    {
      var answer: Result<Note, StorageError>;
      if failure.Some? {
        answer := Err(failure.value);
      } else if id in noteRows {
        answer := Ok(NoteOf(noteRows[id]));
      } else {
        answer := Err(PostgrestError(NoSingleRow, "JSON object requested, multiple (or no) rows returned"));
      }
      r := SingleOrNull(answer);
    }

    /** `updateNote`: PATCH the row with the given fields and `updated_at`. */
    method UpdateNote(id: Id, data: UpdateNoteDto, now: Instant, failure: Option<StorageError>)
      returns (r: Result<Unit, StorageError>)
      requires Valid()
      modifies this
      ensures Valid() && notebookRows == old(notebookRows) && objects == old(objects)
      ensures failure.Some? ==> r == Err(failure.value) && noteRows == old(noteRows)
      ensures failure.None? ==> r == Ok(Unit)
      ensures failure.None? && id in old(noteRows) ==>
        noteRows == old(noteRows)[id := PatchNote(old(noteRows)[id], NotePayload(data, now))]
      ensures id !in old(noteRows) ==> noteRows == old(noteRows)
    {
      if failure.Some? {
        return Err(failure.value);
      }
      if id in noteRows {
        noteRows := noteRows[id := PatchNote(noteRows[id], NotePayload(data, now))];
      }
      return Ok(Unit);
    }

    /** `deleteNote`. */
    method DeleteNote(id: Id, failure: Option<StorageError>) returns (r: Result<Unit, StorageError>)
      requires Valid()
      modifies this
      ensures Valid() && notebookRows == old(notebookRows) && objects == old(objects)
      ensures failure.Some? ==> r == Err(failure.value) && noteRows == old(noteRows)
      ensures failure.None? ==> r == Ok(Unit) && noteRows == old(noteRows) - {id}
    {
      if failure.Some? {
        return Err(failure.value);
      }
      noteRows := noteRows - {id};
      return Ok(Unit);
    }

    /**
     * `searchNotes`: the `or` filter built from the raw query, newest first. A plain query
     * finds exactly the notes whose folded title or content contains it; a query with a ')' is
     * rejected, one with a comma is read as other conditions or rejected, and '*', '%', '_' and
     * the backslash act as pattern syntax.
     */
    method SearchNotes(q: string, failure: Option<StorageError>) returns (r: Result<seq<Note>, StorageError>)
      requires Valid()
      ensures failure.Some? ==> r == Err(failure.value)
      ensures failure.None? ==> (r.Ok? <==> ParseOrFilter(SearchFilter(q)).Ok?)
      ensures r.Ok? ==> NotesNewestFirst(r.value)
      ensures r.Ok? ==>
        ListsNotes(r.value, NotesView(noteRows), FilteredNotes(noteRows, ParseOrFilter(SearchFilter(q)).value))
      ensures failure.None? && PlainQuery(q) ==>
        r.Ok? && ListsNotes(r.value, NotesView(noteRows), MatchingNotes(NotesView(noteRows), q))
    {
      if failure.Some? {
        return Err(failure.value);
      }
      var parsed := ParseOrFilter(SearchFilter(q));
      if parsed.Err? {
        if ',' !in q && ')' !in q {
          SearchFilterReadsBack(q);
        }
        return Err(parsed.error);
      }
      var view := NotesView(noteRows);
      var keep := FilteredNotes(noteRows, parsed.value);
      ghost var sorted := Arrange(keep, NoteStamps(view));
      var ks :| OrderedSelection(ks, keep, NoteStamps(view));
      PickNotesOrdered(view, ks, keep);
      r := Ok(PickNotes(view, ks));
      if PlainQuery(q) {
        SearchFilterReadsBack(q);
        SearchSelectsMatches(noteRows, q);
      }
    }

    /**
     * `uploadImage`: store the file under `uuid.ext` (`upsert: false`, so a taken key is an
     * error) and return its public URL.
     */
    method UploadImage(name: string, uuid: string, failure: Option<StorageError>) returns (r: Result<Url, StorageError>)
      requires Valid()
      modifies this
      ensures Valid() && notebookRows == old(notebookRows) && noteRows == old(noteRows)
      ensures failure.Some? ==> r == Err(failure.value)
      ensures failure.None? ==> (r.Ok? <==> ObjectKey(uuid, name) !in old(objects))
      ensures r.Err? ==> objects == old(objects)
      ensures r.Ok? ==>
        && objects == old(objects) + {ObjectKey(uuid, name)}
        && r.value == PublicUrl(origin, ObjectKey(uuid, name))
    {
      if failure.Some? {
        return Err(failure.value);
      }
      var key := ObjectKey(uuid, name);
      if key in objects {
        return Err(Failure("The resource already exists"));
      }
      objects := objects + {key};
      return Ok(PublicUrl(origin, key));
    }

    /** `deleteImage`: remove the object named by the last piece of the URL's pathname. */
    method DeleteImage(url: Url, failure: Option<StorageError>) returns (r: Result<Unit, StorageError>)
      requires Valid()
      modifies this
      ensures Valid() && notebookRows == old(notebookRows) && noteRows == old(noteRows)
      ensures failure.Some? ==> r == Err(failure.value) && objects == old(objects)
      ensures failure.None? ==> r == Ok(Unit) && objects == old(objects) - {ImageKey(url)}
    {
      if failure.Some? {
        return Err(failure.value);
      }
      objects := objects - {ImageKey(url)};
      return Ok(Unit);
    }
  }

  /** Deleting by the URL an upload returned removes exactly the uploaded object. */
  lemma UploadThenDelete(origin: string, uuid: string, name: string, objects: set<string>)
    requires '/' !in uuid && '/' !in name
    ensures var key := ObjectKey(uuid, name);
      ImageKey(PublicUrl(origin, key)) == key && (objects + {key}) - {ImageKey(PublicUrl(origin, key))} == objects - {key}
  {
    ImageKeyRoundTrip(origin, ObjectKey(uuid, name));
  }
}
