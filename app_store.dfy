/**
 * The selection store of store/store.ts: the active notebook and the active note, both
 * possibly null, set by two setters that replace the stored values.
 */
module AppStore {
  import opened Wrappers
  import opened Records

  /** The stored pair. */
  datatype Selection = Selection(notebook: Option<Id>, note: Option<Id>)

  /** Nothing selected, as the store starts. */
  const Initial := Selection(None, None)

  /** `setActiveNotebook(id)`: the notebook is replaced and the note always cleared. */
  function SelectNotebook(s: Selection, id: Option<Id>): (r: Selection)
    ensures r.notebook == id && r.note.None?
  {
    Selection(id, None)
  }

  /** `setActiveNote(id)`: the note is replaced and the notebook kept. */
  function SelectNote(s: Selection, id: Option<Id>): (r: Selection)
    ensures r.notebook == s.notebook && r.note == id
  {
    s.(note := id)
  }

  /** Choosing a notebook, then a note, selects both; the other order loses the note. */
  lemma SelectionOrderMatters(s: Selection, nb: Option<Id>, n: Option<Id>)
    ensures SelectNote(SelectNotebook(s, nb), n) == Selection(nb, n)
    ensures SelectNotebook(SelectNote(s, n), nb) == Selection(nb, None)
  {
  }

  /** Re-selecting the active notebook is not a no-op: it still clears the note. */
  lemma ReselectClearsNote(s: Selection)
    requires s.note.Some?
    ensures SelectNotebook(s, s.notebook) != s
  {
  }

  /** JavaScript truthiness of a nullable id: present and not the empty string. */
  predicate Present(id: Option<Id>) {
    id.Some? && id.value != ""
  }

  /** The store: two fields replaced by `set`. */
  class Store {
    var activeNotebookId: Option<Id>
    var activeNoteId: Option<Id>

    function Current(): Selection
      reads this
    {
      Selection(activeNotebookId, activeNoteId)
    }

    constructor ()
      ensures Current() == Initial
    {
      activeNotebookId, activeNoteId := None, None;
    }

    method SetActiveNotebook(id: Option<Id>)
      modifies this
      ensures Current() == SelectNotebook(old(Current()), id)
    {
      activeNotebookId, activeNoteId := id, None;
    }

    method SetActiveNote(id: Option<Id>)
      modifies this
      ensures Current() == SelectNote(old(Current()), id)
    {
      activeNoteId := id;
    }
  }
}
