/**
 * How the three backends compare on the same call: the storage contract promises the
 * same behaviour from each, and these lemmas say where that holds and where it does not.
 */
module Agreement {
  import opened Wrappers
  import opened Text
  import opened Records
  import LocalStore
  import DesktopStore
  import CloudStore

  /** An update that does not name a notebook has the same effect on every backend. */
  lemma NoteUpdatesAgree(n: Note, d: UpdateNoteDto, t: Instant)
    requires d.notebookId.None?
    ensures LocalStore.SpreadNote(n, d, t) == DesktopStore.CoalesceNote(n, d, t)
    ensures CloudStore.NoteOf(CloudStore.PatchNote(CloudStore.RowOf(n), CloudStore.NotePayload(d, t)))
      == DesktopStore.CoalesceNote(n, d, t)
  {
  }

  /**
   * An update that names another notebook moves the note in the browser store only: SQLite
   * binds title and content alone, and the hosted payload leaves the notebook out.
   */
  lemma OnlyTheBrowserStoreMovesNotes(n: Note, d: UpdateNoteDto, t: Instant)
    requires d.notebookId.Some? && d.notebookId.value != n.notebookId
    ensures LocalStore.SpreadNote(n, d, t).notebookId == d.notebookId.value
    ensures DesktopStore.CoalesceNote(n, d, t).notebookId == n.notebookId
    ensures CloudStore.NoteOf(CloudStore.PatchNote(CloudStore.RowOf(n), CloudStore.NotePayload(d, t))).notebookId
      == n.notebookId
  {
  }

  /** Renaming a notebook has the same effect on every backend, colour aside. */
  lemma NotebookUpdatesAgree(row: CloudStore.NotebookRow, d: UpdateNotebookDto, t: Instant)
    ensures var nb := CloudStore.NotebookOf(row);
      && LocalStore.SpreadNotebook(nb, d, t) == DesktopStore.CoalesceNotebook(nb, d.name, t)
      && CloudStore.NotebookOf(CloudStore.PatchNotebook(row, CloudStore.NotebookPayload(d, t)))
        == DesktopStore.CoalesceNotebook(nb, d.name, t)
  {
  }

  /**
   * For a plain query, the substring scan and the PostgREST ILIKE filter select the same notes,
   * and SQL LIKE selects them too when no note holds a capital outside ASCII.
   */
  lemma SearchesAgree(rows: map<Id, CloudStore.NoteRow>, q: string)
    requires CloudStore.PlainQuery(q)
    ensures var t := CloudStore.NotesView(rows);
      && CloudStore.FilteredNotes(rows, CloudStore.IntendedConditions(q)) == MatchingNotes(t, q)
      && CloudStore.ParseOrFilter(CloudStore.SearchFilter(q)) == Ok(CloudStore.IntendedConditions(q))
      && ((forall id :: id in t ==> DesktopStore.AsciiCased(t[id])) ==> DesktopStore.LikeNotes(t, q) == MatchingNotes(t, q))
  {
    var t := CloudStore.NotesView(rows);
    if forall id :: id in t ==> DesktopStore.AsciiCased(t[id]) {
      DesktopStore.LikeNotesAgree(t, q);
    }
    CloudStore.SearchSelectsMatches(rows, q);
    CloudStore.SearchFilterReadsBack(q);
  }
}
