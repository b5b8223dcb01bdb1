/**
 * The pure display rules of a note in the list (components/note/NoteItem.tsx): which form
 * `formatDate` picks for the last-edited time, and the title shown for an untitled note.
 * Times are epoch milliseconds; the locale-formatted strings themselves are not modelled.
 */
module NoteItem {
  import opened Records

  const MillisPerDay := 1000 * 60 * 60 * 24

  /** The four forms of `formatDate`. */
  datatype DateForm = TimeOfDay | Yesterday | Weekday | MonthAndDay

  /** `Math.abs(now - date)` in whole days, rounded down. */
  function DiffDays(now: Instant, date: Instant): (d: nat)
    ensures d * MillisPerDay <= Abs(now - date) < (d + 1) * MillisPerDay
  {
    Abs(now - date) / MillisPerDay
  }

  function Abs(x: int): nat {
    if x < 0 then -x else x
  }

  /** `formatDate(date)` at the moment `now`: the form is picked by whole days apart. */
  function FormOf(now: Instant, date: Instant): (f: DateForm)
    ensures f == TimeOfDay <==> Abs(now - date) < MillisPerDay
    ensures f == Yesterday <==> MillisPerDay <= Abs(now - date) < 2 * MillisPerDay
    ensures f == Weekday <==> 2 * MillisPerDay <= Abs(now - date) < 7 * MillisPerDay
    ensures f == MonthAndDay <==> 7 * MillisPerDay <= Abs(now - date)
  {
    var days := DiffDays(now, date);
    if days == 0 then TimeOfDay
    else if days == 1 then Yesterday
    else if days < 7 then Weekday
    else MonthAndDay
  }

  /** The order of the forms, from the closest to the farthest. */
  function Rank(f: DateForm): nat {
    match f
    case TimeOfDay => 0
    case Yesterday => 1
    case Weekday => 2
    case MonthAndDay => 3
  }

  /** A date in the future is treated like the date equally far in the past. */
  lemma FormIgnoresDirection(now: Instant, d: int)
    ensures FormOf(now, now + d) == FormOf(now, now - d)
  {
  }

  /** A date farther from now never gets a closer form. */
  lemma FormMonotone(now: Instant, a: Instant, b: Instant)
    requires Abs(now - a) <= Abs(now - b)
    ensures Rank(FormOf(now, a)) <= Rank(FormOf(now, b))
  {
  }

  /** The title shown for a note: its own, or "Untitled Note" when empty. */
  function DisplayTitle(title: string): (shown: string)
    ensures shown != ""
    ensures title != "" ==> shown == title
    ensures title == "" ==> shown == UntitledNote
  {
    if title == "" then UntitledNote else title
  }
}
