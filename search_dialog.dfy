/**
 * The search dialog (components/search/SearchDialog.tsx). Changing the query re-runs an
 * effect: a blank query empties the results, any other schedules a search 300 ms later, and
 * the effect's cleanup cancels the search scheduled before. A fired search is in flight until
 * its answer comes back; answers are not matched against the query that asked for them. The
 * answers of the adapter's `searchNotes` are parameters.
 */
module SearchDialog {
  import opened Wrappers
  import opened Text
  import opened Records
  import AppStore

  /** The debounce delay of the query effect. */
  const SearchDelay := 300

  /** The dialog's state; `scheduled` is the query of the one search waiting for its timer. */
  datatype Search = Search(
    query: string,
    results: seq<Note>,
    loading: bool,
    scheduled: Option<string>,
    inFlight: seq<string>)

  const Closed := Search("", [], false, None, [])

  /** A scheduled search always carries the current query, which is not blank. */
  predicate Consistent(s: Search) {
    s.scheduled.Some? ==> s.scheduled.value == s.query && !IsBlank(s.query)
  }

  /**
   * `setQuery(q)` and the effect it triggers when q differs from the query: the previous
   * timer is cleared, then a blank query empties the results and any other is scheduled.
   */
  function Typed(s: Search, q: string): (r: Search)
    requires Consistent(s)
    ensures Consistent(r)
    ensures r.query == q && r.loading == s.loading && r.inFlight == s.inFlight
    ensures q == s.query ==> r == s
    ensures q != s.query && IsBlank(q) ==> r.results == [] && r.scheduled.None?
    ensures q != s.query && !IsBlank(q) ==> r.results == s.results && r.scheduled == Some(q)
  {
    if q == s.query then s
    else if IsBlank(q) then s.(query := q, results := [], scheduled := None)
    else s.(query := q, scheduled := Some(q))
  }

  /** The timer fires: `loading` is set and the query it captured is sent. */
  function Fire(s: Search): (r: Search)
    requires s.scheduled.Some?
    ensures Consistent(r) && r.loading && r.scheduled.None?
    ensures r.query == s.query && r.results == s.results
    ensures r.inFlight == s.inFlight + [s.scheduled.value]
  {
    s.(loading := true, inFlight := s.inFlight + [s.scheduled.value], scheduled := None)
  }

  /**
   * The i-th search in flight answers: its notes become the results, an error empties them,
   * and `loading` is cleared in every case.
   */
  function Answered(s: Search, i: nat, answer: Result<seq<Note>, StorageError>): (r: Search)
    requires i < |s.inFlight|
    ensures Consistent(s) ==> Consistent(r)
    ensures !r.loading && r.query == s.query && r.scheduled == s.scheduled
    ensures answer.Ok? ==> r.results == answer.value
    ensures answer.Err? ==> r.results == []
    ensures |r.inFlight| == |s.inFlight| - 1
  {
    s.(results := if answer.Ok? then answer.value else [],
       loading := false,
       inFlight := s.inFlight[..i] + s.inFlight[i + 1..])
  }

  /** A search goes out only for the query on screen when its timer fires, never a blank one. */
  lemma FiredSearchIsCurrent(s: Search)
    requires Consistent(s) && s.scheduled.Some?
    ensures Fire(s).inFlight[|Fire(s).inFlight| - 1] == s.query && !IsBlank(s.query)
  {
  }

  /**
   * A burst of typing sends at most one search: after any sequence of query changes, only
   * the last query can be waiting for its timer.
   */
  lemma BurstSchedulesLast(s: Search, qs: seq<string>)
    requires Consistent(s) && qs != [] && !IsBlank(qs[|qs| - 1])
    ensures TypedAll(s, qs).scheduled.Some? ==> TypedAll(s, qs).scheduled == Some(qs[|qs| - 1])
    ensures TypedAll(s, qs).inFlight == s.inFlight
  {
    TypedAllKeepsFlight(s, qs);
    var r := TypedAll(s, qs);
    assert r.query == qs[|qs| - 1] by { TypedAllQuery(s, qs); }
  }

  /** Typing the queries of qs one after another. */
  function TypedAll(s: Search, qs: seq<string>): (r: Search)
    requires Consistent(s)
    ensures Consistent(r)
    decreases |qs|
  {
    if qs == [] then s else TypedAll(Typed(s, qs[0]), qs[1..])
  }

  lemma {:induction false} TypedAllKeepsFlight(s: Search, qs: seq<string>)
    requires Consistent(s)
    ensures TypedAll(s, qs).inFlight == s.inFlight
    decreases |qs|
  {
    if qs != [] {
      TypedAllKeepsFlight(Typed(s, qs[0]), qs[1..]);
    }
  }

  lemma {:induction false} TypedAllQuery(s: Search, qs: seq<string>)
    requires Consistent(s) && qs != []
    ensures TypedAll(s, qs).query == qs[|qs| - 1]
    decreases |qs|
  {
    if |qs| > 1 {
      TypedAllQuery(Typed(s, qs[0]), qs[1..]);
      assert qs[1..][|qs[1..]| - 1] == qs[|qs| - 1];
    }
  }

  /**
   * Clearing the query does not cancel a search already sent: its answer still lands, so
   * the dialog lists notes under an empty query.
   */
  lemma ClearedQueryCanShowResults(s: Search, q: string, notes: seq<Note>)
    requires Consistent(s) && !IsBlank(q) && q != s.query && q != ""
    ensures var sent := Fire(Typed(s, q));
      var cleared := Typed(sent, "");
      var r := Answered(cleared, |cleared.inFlight| - 1, Ok(notes));
      r.query == "" && r.results == notes && !r.loading
  {
  }

  /** What the dialog body shows. */
  datatype Body = Body(searching: bool, noResults: bool, list: bool, prompt: bool)

  function BodyOf(s: Search): (b: Body)
    ensures b.searching <==> s.loading
    ensures b.noResults <==> !s.loading && s.query != "" && s.results == []
    ensures b.list <==> !s.loading && s.results != []
    ensures b.prompt <==> s.query == ""
  {
    Body(s.loading, !s.loading && s.query != "" && |s.results| == 0, !s.loading && |s.results| > 0, s.query == "")
  }

  /** With an answer landed after clearing, the prompt and a result list show together. */
  lemma PromptAndListTogether(s: Search, q: string, notes: seq<Note>)
    requires Consistent(s) && !IsBlank(q) && q != s.query && q != "" && notes != []
    ensures var cleared := Typed(Fire(Typed(s, q)), "");
      var b := BodyOf(Answered(cleared, |cleared.inFlight| - 1, Ok(notes)));
      b.prompt && b.list
  {
    ClearedQueryCanShowResults(s, q, notes);
  }

  /** The dialog as a component whose state setters update its fields in place. */
  class Dialog {
    var query: string
    var results: seq<Note>
    var loading: bool
    var scheduled: Option<string>
    var inFlight: seq<string>
    /** The parent's open flag, cleared through `onOpenChange(false)`. */
    var open: bool

    function Snapshot(): Search
      reads this
    {
      Search(query, results, loading, scheduled, inFlight)
    }

    constructor (open: bool)
      ensures Snapshot() == Closed && this.open == open
    {
      query, results, loading, scheduled, inFlight := "", [], false, None, [];
      this.open := open;
    }

    /** The input's `onChange` and the effect it triggers. */
    method ChangeQuery(q: string)
      requires Consistent(Snapshot())
      modifies this
      ensures Snapshot() == Typed(old(Snapshot()), q) && open == old(open)
    {
      if q != query {
        query := q;
        if IsBlank(q) {
          results := [];
          scheduled := None;
        } else {
          scheduled := Some(q);
        }
      }
    }

    /** The 300 ms timer fires and the search is sent. */
    method TimerFires() returns (sent: string)
      requires scheduled.Some?
      modifies this
      ensures Snapshot() == Fire(old(Snapshot())) && open == old(open)
      ensures sent == old(scheduled).value
    {
      sent := scheduled.value;
      loading := true;
      inFlight := inFlight + [sent];
      scheduled := None;
    }

    /** The i-th search in flight answers. */
    method SearchAnswered(i: nat, answer: Result<seq<Note>, StorageError>)
      requires i < |inFlight|
      modifies this
      ensures Snapshot() == Answered(old(Snapshot()), i, answer) && open == old(open)
    {
      if answer.Ok? {
        results := answer.value;
      } else {
        results := [];
      }
      loading := false;
      inFlight := inFlight[..i] + inFlight[i + 1..];
    }

    /**
     * `handleSelectNote`: the store ends on the note and its notebook, the dialog closes and
     * the query is reset.
     */
    method SelectNote(store: AppStore.Store, note: Note)
      requires Consistent(Snapshot())
      modifies this, store
      ensures store.Current() == AppStore.Selection(Some(note.notebookId), Some(note.id))
      ensures !open && Snapshot() == Typed(old(Snapshot()), "")
    {
      store.SetActiveNotebook(Some(note.notebookId));
      store.SetActiveNote(Some(note.id));
      open := false;
      ChangeQuery("");
    }
  }
}
