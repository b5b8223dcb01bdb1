/**
 * The note editor pane (components/layout/NoteEditor.tsx): the title and content being
 * edited, a debounced save per field, and the "Saving..." indicator. The pane keeps one
 * timer handle per field, shared by every note: a keystroke cancels the field's pending
 * save and schedules a new one, 1000 ms later, for the note active at that keystroke.
 * Timers are modelled as the queue of pending callbacks; firing one is a step, and the
 * outcome of the `updateNote` it sends is a parameter.
 */
module NoteEditor {
  import opened Wrappers
  import opened Records
  import AppStore

  /** The debounce delay of both fields. */
  const SaveDelay := 1000

  /** How long "Saving..." stays after a save succeeds. */
  const SavingLinger := 500

  datatype Field = TitleField | ContentField

  /** A callback waiting in the timer queue. */
  datatype Pending =
    | SaveField(noteId: Id, field: Field, value: string, due: Instant)
    | ClearSaving(due: Instant)

  /** An `updateNote(id, data)` request sent by the pane. */
  datatype Save = Save(noteId: Id, data: UpdateNoteDto)

  /** The pane's state, the timer queue and the requests sent so far. */
  datatype View = View(
    active: Option<Id>,
    title: string,
    content: string,
    isSaving: bool,
    titleTimer: Option<nat>,
    contentTimer: Option<nat>,
    timers: map<nat, Pending>,
    nextHandle: nat,
    saves: seq<Save>)

  /** The pane when it mounts: nothing typed, nothing pending. */
  function Mounted(active: Option<Id>): View {
    View(active, "", "", false, None, None, map[], 1, [])
  }

  /** The update object a field's save sends: only that field. */
  function SaveData(field: Field, value: string): (d: UpdateNoteDto)
    ensures d.notebookId.None?
    ensures field == TitleField ==> d.title == Some(value) && d.content.None?
    ensures field == ContentField ==> d.content == Some(value) && d.title.None?
  {
    match field
    case TitleField => UpdateNoteDto(Some(value), None, None)
    case ContentField => UpdateNoteDto(None, Some(value), None)
  }

  function TimerOf(v: View, field: Field): Option<nat> {
    if field == TitleField then v.titleTimer else v.contentTimer
  }

  /** Timer h holds a pending save of the field. */
  predicate IsPendingSave(v: View, field: Field, h: nat) {
    h in v.timers && v.timers[h].SaveField? && v.timers[h].field == field
  }

  /**
   * Handles are positive and below the next one, a field's only possible pending save is the
   * one its stored handle names (so at most one save per field is ever waiting), and a stored
   * handle still queued names a save of its field.
   */
  ghost predicate Consistent(v: View) {
    && v.nextHandle >= 1
    && (forall h :: h in v.timers ==> 1 <= h < v.nextHandle)
    && (v.titleTimer.Some? ==> 1 <= v.titleTimer.value < v.nextHandle)
    && (v.contentTimer.Some? ==> 1 <= v.contentTimer.value < v.nextHandle)
    && (forall h :: h in v.timers && v.timers[h].SaveField? ==> TimerOf(v, v.timers[h].field) == Some(h))
    && (v.titleTimer.Some? && v.titleTimer.value in v.timers ==> IsPendingSave(v, TitleField, v.titleTimer.value))
    && (v.contentTimer.Some? && v.contentTimer.value in v.timers ==> IsPendingSave(v, ContentField, v.contentTimer.value))
  }

  lemma MountedConsistent(active: Option<Id>)
    ensures Consistent(Mounted(active))
  {
  }

  /** At most one save per field waits in the queue of a consistent pane. */
  lemma OnePendingSavePerField(v: View, field: Field, h1: nat, h2: nat)
    requires Consistent(v) && IsPendingSave(v, field, h1) && IsPendingSave(v, field, h2)
    ensures h1 == h2
  {
    assert TimerOf(v, field) == Some(h1);
  }

  /**
   * `handleTitleChange` / `handleContentChange`: show the new value; when the active id is
   * present and non-empty (`if (activeNoteId)`), clear the field's stored timer and schedule a
   * save of this value for this note. The other field's save and the indicator's callbacks
   * stay queued.
   */
  function Retyped(v: View, field: Field, value: string, now: Instant): (r: View)
    requires Consistent(v)
    ensures Consistent(r)
    ensures r.active == v.active && r.isSaving == v.isSaving && r.saves == v.saves
    ensures field == TitleField ==> r.title == value && r.content == v.content
    ensures field == ContentField ==> r.content == value && r.title == v.title
    ensures !AppStore.Present(v.active) ==> r.timers == v.timers
    ensures AppStore.Present(v.active) ==>
      && TimerOf(r, field).Some?
      && IsPendingSave(r, field, TimerOf(r, field).value)
      && r.timers[TimerOf(r, field).value] == SaveField(v.active.value, field, value, now + SaveDelay)
      && (forall h :: h in r.timers && h != TimerOf(r, field).value ==> h in v.timers && r.timers[h] == v.timers[h])
    ensures forall g :: g != field ==> TimerOf(r, g) == TimerOf(v, g)
    ensures forall h :: h in v.timers && !IsPendingSave(v, field, h) ==> h in r.timers && r.timers[h] == v.timers[h]
  {
    var shown := if field == TitleField then v.(title := value) else v.(content := value);
    if !AppStore.Present(v.active) then shown
    else
      var cleared := if TimerOf(v, field).Some? then v.timers - {TimerOf(v, field).value} else v.timers;
      var h := v.nextHandle;
      var timers := cleared[h := SaveField(v.active.value, field, value, now + SaveDelay)];
      if field == TitleField then shown.(timers := timers, titleTimer := Some(h), nextHandle := h + 1)
      else shown.(timers := timers, contentTimer := Some(h), nextHandle := h + 1)
  }

  /**
   * A timer fires. A save sets "Saving...", sends the update for the note it captured and,
   * when that succeeds, schedules clearing the indicator 500 ms later (`done` is the moment
   * the request completes); when it fails the indicator is cleared at once. The clearing
   * callback only clears the indicator.
   */
  function Fired(v: View, h: nat, ok: bool, done: Instant): (r: View)
    requires Consistent(v) && h in v.timers
    ensures Consistent(r)
    ensures h !in r.timers && r.active == v.active && r.title == v.title && r.content == v.content
    ensures v.timers[h].SaveField? ==>
      r.saves == v.saves + [Save(v.timers[h].noteId, SaveData(v.timers[h].field, v.timers[h].value))]
    ensures v.timers[h].ClearSaving? ==> r.saves == v.saves && !r.isSaving
    ensures v.timers[h].SaveField? ==> r.isSaving == ok
    ensures forall k :: k in v.timers && k != h ==> k in r.timers && r.timers[k] == v.timers[k]
    ensures forall k :: k in r.timers && k !in v.timers ==> r.timers[k].ClearSaving?
    ensures forall f :: TimerOf(r, f) == TimerOf(v, f)
  {
    match v.timers[h]
    case SaveField(n, f, value, _) =>
      var sent := v.saves + [Save(n, SaveData(f, value))];
      if ok then
        v.(isSaving := true, saves := sent,
           timers := (v.timers - {h})[v.nextHandle := ClearSaving(done + SavingLinger)],
           nextHandle := v.nextHandle + 1)
      else v.(isSaving := false, saves := sent, timers := v.timers - {h})
    case ClearSaving(_) => v.(isSaving := false, timers := v.timers - {h})
  }

  /** The effect on `[note]`: show the loaded note's title and content, or empty fields. */
  function Loaded(v: View, note: Option<Note>): (r: View)
    ensures note.Some? ==> r.title == note.value.title && r.content == note.value.content
    ensures note.None? ==> r.title == "" && r.content == ""
    ensures r.active == v.active && r.timers == v.timers && r.saves == v.saves
    ensures Consistent(v) ==> Consistent(r)
  {
    match note
    case Some(n) => v.(title := n.title, content := n.content)
    case None => v.(title := "", content := "")
  }

  /** The store's active note changes; the pane's timers stay as they are. */
  function Selected(v: View, id: Option<Id>): (r: View)
    ensures r.active == id && r.timers == v.timers && r.saves == v.saves
    ensures r.title == v.title && r.content == v.content
    ensures Consistent(v) ==> Consistent(r)
  {
    v.(active := id)
  }

  /** Typing the values of xs one after another into a field. */
  function TypedAll(v: View, field: Field, xs: seq<string>, now: Instant): (r: View)
    requires Consistent(v)
    ensures Consistent(r)
    decreases |xs|
  {
    if xs == [] then v else TypedAll(Retyped(v, field, xs[0], now), field, xs[1..], now)
  }

  /**
   * Debounce: after a burst of keystrokes on the active note, the field's one pending save
   * carries the last value, and nothing has been sent meanwhile.
   */
  lemma {:induction false} BurstLeavesOneSave(v: View, field: Field, xs: seq<string>, now: Instant)
    requires Consistent(v) && AppStore.Present(v.active) && xs != []
    ensures var r := TypedAll(v, field, xs, now);
      && r.saves == v.saves && r.active == v.active
      && TimerOf(r, field).Some?
      && IsPendingSave(r, field, TimerOf(r, field).value)
      && r.timers[TimerOf(r, field).value] == SaveField(v.active.value, field, xs[|xs| - 1], now + SaveDelay)
    decreases |xs|
  {
    var w := Retyped(v, field, xs[0], now);
    if |xs| > 1 {
      BurstLeavesOneSave(w, field, xs[1..], now);
      assert xs[1..][|xs[1..]| - 1] == xs[|xs| - 1];
    }
  }

  /** When the burst's save fires, the last value, and only it, is sent for the note. */
  lemma BurstSendsLastValue(v: View, field: Field, xs: seq<string>, now: Instant, ok: bool, done: Instant)
    requires Consistent(v) && AppStore.Present(v.active) && xs != []
    ensures var r := TypedAll(v, field, xs, now);
      && TimerOf(r, field).Some?
      && TimerOf(r, field).value in r.timers
      && Fired(r, TimerOf(r, field).value, ok, done).saves
        == v.saves + [Save(v.active.value, SaveData(field, xs[|xs| - 1]))]
  {
    BurstLeavesOneSave(v, field, xs, now);
  }

  /**
   * A save goes to the note that was active at the keystroke, even when another note has
   * been selected before the timer fires.
   */
  lemma SaveTargetsNoteOfKeystroke(v: View, field: Field, x: string, now: Instant, b: Option<Id>, ok: bool, done: Instant)
    requires Consistent(v) && AppStore.Present(v.active)
    ensures var w := Selected(Retyped(v, field, x, now), b);
      && TimerOf(w, field).Some?
      && TimerOf(w, field).value in w.timers
      && Fired(w, TimerOf(w, field).value, ok, done).saves == v.saves + [Save(v.active.value, SaveData(field, x))]
  {
  }

  /**
   * The shared handle loses edits: a title typed on note a, then a title keystroke on note b
   * before the delay runs out, cancels a's pending save, so a's new title is never sent.
   */
  lemma EditOnOtherNoteCancelsSave(v: View, a: Id, b: Id, x: string, y: string, nb: Option<Note>, t1: Instant, t2: Instant)
    requires Consistent(v) && v.active == Some(a) && a != "" && b != "" && a != b
    ensures var r := Retyped(Loaded(Selected(Retyped(v, TitleField, x, t1), Some(b)), nb), TitleField, y, t2);
      && r.saves == v.saves
      && (forall h :: IsPendingSave(r, TitleField, h) ==> r.timers[h].noteId == b)
  {
    var w := Loaded(Selected(Retyped(v, TitleField, x, t1), Some(b)), nb);
    var r := Retyped(w, TitleField, y, t2);
    forall h | IsPendingSave(r, TitleField, h) ensures r.timers[h].noteId == b {
      OnePendingSavePerField(r, TitleField, h, TimerOf(r, TitleField).value);
    }
  }

  /** What the pane shows. */
  datatype Screen =
    | NoNoteSelected
    | Loading
    | Editing(title: string, content: string, saving: bool)

  /** The three renders: no active note, the note not loaded yet, the editor. */
  function ScreenOf(v: View, note: Option<Note>): (s: Screen)
    ensures s == NoNoteSelected <==> !AppStore.Present(v.active)
    ensures s == Loading <==> AppStore.Present(v.active) && note.None?
    ensures s.Editing? ==> s.title == v.title && s.content == v.content && s.saving == v.isSaving
  {
    if !AppStore.Present(v.active) then NoNoteSelected
    else if note.None? then Loading
    else Editing(v.title, v.content, v.isSaving)
  }

  /** The pane as a component whose state setters update its fields in place. */
  class Pane {
    var active: Option<Id>
    var title: string
    var content: string
    var isSaving: bool
    var titleTimer: Option<nat>
    var contentTimer: Option<nat>
    /** The runtime's timer queue, by handle. */
    var timers: map<nat, Pending>
    var nextHandle: nat
    /** The `updateNote` requests sent so far. */
    var saves: seq<Save>

    function Snapshot(): View
      reads this
    {
      View(active, title, content, isSaving, titleTimer, contentTimer, timers, nextHandle, saves)
    }

    ghost predicate Valid()
      reads this
    {
      Consistent(Snapshot())
    }

    constructor (active: Option<Id>)
      ensures Valid() && Snapshot() == Mounted(active)
    {
      this.active := active;
      title, content, isSaving := "", "", false;
      titleTimer, contentTimer := None, None;
      timers, nextHandle, saves := map[], 1, [];
    }

    /** Set the field, clear its stored timer, schedule the save. */
    method Change(field: Field, value: string, now: Instant)
      requires Valid()
      modifies this
      ensures Valid() && Snapshot() == Retyped(old(Snapshot()), field, value, now)
    {
      ghost var before := Snapshot();
      if field == TitleField {
        title := value;
      } else {
        content := value;
      }
      if AppStore.Present(active) {
        var stored := if field == TitleField then titleTimer else contentTimer;
        if stored.Some? {
          timers := timers - {stored.value};
        }
        var h := nextHandle;
        timers := timers[h := SaveField(active.value, field, value, now + SaveDelay)];
        if field == TitleField {
          titleTimer := Some(h);
        } else {
          contentTimer := Some(h);
        }
        nextHandle := h + 1;
      }
      assert Snapshot() == Retyped(before, field, value, now);
    }

    /** `handleTitleChange`. */
    method HandleTitleChange(newTitle: string, now: Instant)
      requires Valid()
      modifies this
      ensures Valid() && Snapshot() == Retyped(old(Snapshot()), TitleField, newTitle, now)
    {
      Change(TitleField, newTitle, now);
    }

    /** `handleContentChange`. */
    method HandleContentChange(newContent: string, now: Instant)
      requires Valid()
      modifies this
      ensures Valid() && Snapshot() == Retyped(old(Snapshot()), ContentField, newContent, now)
    {
      Change(ContentField, newContent, now);
    }

    /** The runtime runs the callback of timer h; `ok` is the outcome of the save it sends. */
    method RunTimer(h: nat, ok: bool, done: Instant)
      requires Valid() && h in timers
      modifies this
      ensures Valid() && Snapshot() == Fired(old(Snapshot()), h, ok, done)
    {
      ghost var before := Snapshot();
      match timers[h]
      case SaveField(n, f, value, _) =>
        isSaving := true;
        saves := saves + [Save(n, SaveData(f, value))];
        timers := timers - {h};
        if ok {
          timers := timers[nextHandle := ClearSaving(done + SavingLinger)];
          nextHandle := nextHandle + 1;
        } else {
          isSaving := false;
        }
      case ClearSaving(_) =>
        isSaving := false;
        timers := timers - {h};
      assert Snapshot() == Fired(before, h, ok, done);
    }

    /** The effect that runs when the loaded note changes. */
    method NoteChanged(note: Option<Note>)
      requires Valid()
      modifies this
      ensures Valid() && Snapshot() == Loaded(old(Snapshot()), note)
    {
      if note.Some? {
        title, content := note.value.title, note.value.content;
      } else {
        title, content := "", "";
      }
    }

    /** The store's active note changes. */
    method ActiveNoteChanged(id: Option<Id>)
      requires Valid()
      modifies this
      ensures Valid() && Snapshot() == Selected(old(Snapshot()), id)
    {
      active := id;
    }
  }
}
