/**
 * The note list's handlers (components/note/NoteList.tsx). Its writes go through the hooks to
 * lib/storage, the unified layer; they are modelled on the browser store. The answer of the
 * `confirm` dialog and the fresh id and clock readings are parameters.
 */
module NoteList {
  import opened Wrappers
  import opened Records
  import LocalStore
  import AppStore

  /** What `handleCreateNote` asks the store to create. */
  function NewNoteData(notebookId: Id): (d: CreateNoteDto)
    ensures d.notebookId == notebookId && d.title == UntitledNote
    ensures ContentOrEmpty(d.content) == ""
  {
    CreateNoteDto(notebookId, UntitledNote, Some(""))
  }

  /**
   * `handleCreateNote`: nothing without an active notebook; otherwise an untitled, empty note
   * in that notebook, which then becomes the active note. A failed create leaves the
   * selection as it was. The result is None when nothing was attempted.
   */
  method HandleCreateNote(db: LocalStore.Database, store: AppStore.Store, id: Id, t1: Instant, t2: Instant)
    returns (r: Option<Result<Note, StorageError>>)
    requires db.Valid() && db.clock <= t1 <= t2
    modifies db, store
    ensures db.Valid()
    ensures !AppStore.Present(old(store.activeNotebookId)) ==>
      r.None? && unchanged(db) && unchanged(store)
    ensures AppStore.Present(old(store.activeNotebookId)) ==> r.Some?
    ensures r.Some? && r.value.Ok? ==>
      && r.value.value == Note(id, old(store.activeNotebookId).value, UntitledNote, "", t1, t2)
      && db.notes == old(db.notes)[id := r.value.value]
      && store.Current() == AppStore.SelectNote(old(store.Current()), Some(id))
    ensures r.Some? && r.value.Err? ==> db.notes == old(db.notes) && unchanged(store)
    ensures db.notebooks == old(db.notebooks)
  {
    if !AppStore.Present(store.activeNotebookId) {
      return None;
    }
    var created := db.CreateNote(NewNoteData(store.activeNotebookId.value), id, t1, t2);
    if created.Ok? {
      store.SetActiveNote(Some(created.value.id));
    }
    return Some(created);
  }

  /**
   * `handleDeleteNote`: only after the user confirms; the note is deleted and the active note
   * cleared exactly when it was the deleted one.
   */
  method HandleDeleteNote(db: LocalStore.Database, store: AppStore.Store, id: Id, confirmed: bool)
    requires db.Valid()
    modifies db, store
    ensures db.Valid()
    ensures !confirmed ==> unchanged(db) && unchanged(store)
    ensures confirmed ==> db.notes == old(db.notes) - {id} && db.notebooks == old(db.notebooks)
    ensures confirmed && old(store.activeNoteId) == Some(id) ==>
      store.Current() == AppStore.SelectNote(old(store.Current()), None)
    ensures !(confirmed && old(store.activeNoteId) == Some(id)) ==> unchanged(store)
  {
    if confirmed {
      db.DeleteNote(id);
      if store.activeNoteId == Some(id) {
        store.SetActiveNote(None);
      }
    }
  }
}
