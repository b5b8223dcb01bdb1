/**
 * The notebook list (components/notebook/NotebookList.tsx): its own dialog state, the
 * auto-selection effect and the handlers, which write through the hooks to lib/storage and
 * are modelled on the browser store. The `confirm` answer, fresh ids, clock readings and the
 * outcome of the delete transaction are parameters.
 */
module NotebookList {
  import opened Wrappers
  import opened Records
  import LocalStore
  import AppStore
  import NotebookForm

  /** The notebook whose edit dialog is open: its id and name, as the item's edit button records them. */
  datatype EditTarget = EditTarget(id: Id, name: string)

  /** The newest notebook of a table: listed first by `orderBy("updatedAt").reverse()`. */
  predicate IsNewest(t: map<Id, Notebook>, id: Id) {
    id in t && forall k :: k in t ==> t[k].updatedAt <= t[id].updatedAt
  }

  /** The head of a complete, newest-first listing is a newest notebook. */
  lemma HeadOfListingIsNewest(r: seq<Notebook>, t: map<Id, Notebook>)
    requires ListsNotebooks(r, t, t.Keys) && NotebooksNewestFirst(r) && |r| > 0
    ensures IsNewest(t, r[0].id)
  {
    forall k | k in t ensures t[k].updatedAt <= t[r[0].id].updatedAt {
      assert t[k] in r;
      var j :| 0 <= j < |r| && r[j] == t[k];
      assert j == 0 || r[0].updatedAt >= r[j].updatedAt;
    }
  }

  class Pane {
    var isCreateOpen: bool
    var editingNotebook: Option<EditTarget>
    /**
     * The edit dialog. It is mounted with the pane, when no notebook is being edited, so its
     * name state starts from `initialName` "" and later values of that prop never reach it.
     */
    var editForm: NotebookForm.Form

    constructor ()
      ensures !isCreateOpen && editingNotebook.None?
      ensures fresh(editForm) && editForm.name == "" && !editForm.isSubmitting && !editForm.open
    {
      isCreateOpen, editingNotebook := false, None;
      editForm := new NotebookForm.Form("", false);
    }

    /**
     * The effect over the live list: with notebooks present and no active notebook, the
     * first listed, that is a most recently updated one, becomes active.
     */
    method AutoSelect(db: LocalStore.Database, store: AppStore.Store)
      requires db.Valid()
      modifies store
      ensures (db.notebooks == map[] || AppStore.Present(old(store.activeNotebookId))) ==> unchanged(store)
      ensures db.notebooks != map[] && !AppStore.Present(old(store.activeNotebookId)) ==>
        && store.activeNotebookId.Some?
        && IsNewest(db.notebooks, store.activeNotebookId.value)
        && store.activeNoteId.None?
    {
      var notebooks := db.GetAllNotebooks();
      if |notebooks| > 0 && !AppStore.Present(store.activeNotebookId) {
        HeadOfListingIsNewest(notebooks, db.notebooks);
        store.SetActiveNotebook(Some(notebooks[0].id));
      }
    }

    /** Clicking a notebook makes it active, which clears the active note. */
    method Click(store: AppStore.Store, id: Id)
      modifies store
      ensures store.Current() == AppStore.SelectNotebook(old(store.Current()), Some(id))
    {
      store.SetActiveNotebook(Some(id));
    }

    /**
     * The item's edit button opens the edit dialog on that notebook. The dialog's text field
     * keeps whatever name it held before (at first ""), not the notebook's name.
     */
    method StartEdit(nb: Notebook)
      modifies this, editForm
      ensures editingNotebook == Some(EditTarget(nb.id, nb.name)) && isCreateOpen == old(isCreateOpen)
      ensures editForm == old(editForm) && editForm.open
      ensures editForm.name == old(editForm.name) && editForm.isSubmitting == old(editForm.isSubmitting)
    {
      editingNotebook := Some(EditTarget(nb.id, nb.name));
      editForm.open := true;
    }

    /**
     * `handleCreate`: create the notebook and make it active. A failure propagates to the
     * form and leaves the selection alone.
     */
    method HandleCreate(db: LocalStore.Database, store: AppStore.Store, name: string, id: Id, t1: Instant, t2: Instant)
      returns (r: Result<Notebook, StorageError>)
      requires db.Valid() && db.clock <= t1 <= t2
      modifies db, store
      ensures db.Valid() && db.notes == old(db.notes)
      ensures id in old(db.notebooks) ==> r.Err? && db.notebooks == old(db.notebooks) && unchanged(store)
      ensures id !in old(db.notebooks) ==>
        && r == Ok(Notebook(id, name, t1, t2))
        && db.notebooks == old(db.notebooks)[id := r.value]
        && store.Current() == AppStore.Selection(Some(id), None)
    {
      r := db.CreateNotebook(CreateNotebookDto(name), id, t1, t2);
      if r.Ok? {
        store.SetActiveNotebook(Some(r.value.id));
      }
    }

    /** `handleEdit`: nothing without an edit target; otherwise rename it and close the dialog. */
    method HandleEdit(db: LocalStore.Database, name: string, t: Instant)
      requires db.Valid() && db.clock <= t
      modifies this, db, editForm
      ensures db.Valid() && isCreateOpen == old(isCreateOpen)
      ensures editForm == old(editForm) && editForm.name == old(editForm.name)
      ensures editForm.isSubmitting == old(editForm.isSubmitting)
      ensures editForm.open == (old(editForm.open) && old(editingNotebook).None?)
      ensures old(editingNotebook).None? ==> unchanged(db) && editingNotebook.None?
      ensures old(editingNotebook).Some? ==>
        && editingNotebook.None?
        && var id := old(editingNotebook).value.id;
          && db.notes == old(db.notes)
          && (id in old(db.notebooks) ==>
              db.notebooks == old(db.notebooks)[id := LocalStore.SpreadNotebook(old(db.notebooks)[id], UpdateNotebookDto(Some(name)), t)])
          && (id !in old(db.notebooks) ==> db.notebooks == old(db.notebooks))
    {
      if editingNotebook.None? {
        return;
      }
      db.UpdateNotebook(editingNotebook.value.id, UpdateNotebookDto(Some(name)), t);
      editingNotebook := None;
      editForm.open := false;
    }

    /**
     * `handleDelete`: only after the user confirms; the cascade runs and, when it commits and
     * the deleted notebook was active, the selection is cleared (note included).
     */
    method HandleDelete(db: LocalStore.Database, store: AppStore.Store, id: Id, confirmed: bool, aborts: bool)
      requires db.Valid()
      modifies db, store
      ensures db.Valid()
      ensures !confirmed ==> unchanged(db) && unchanged(store)
      ensures confirmed && aborts ==>
        db.notebooks == old(db.notebooks) && db.notes == old(db.notes) && unchanged(store)
      ensures confirmed && !aborts ==>
        && db.notebooks == old(db.notebooks) - {id}
        && db.notes == NotesOutside(old(db.notes), id)
        && (old(store.activeNotebookId) == Some(id) ==> store.Current() == AppStore.Initial)
        && (old(store.activeNotebookId) != Some(id) ==> unchanged(store))
    {
      if confirmed {
        var r := db.DeleteNotebook(id, aborts);
        if r.Ok? && store.activeNotebookId == Some(id) {
          store.SetActiveNotebook(None);
        }
      }
    }
  }
}
