/** The per-row decisions the table printer makes about a to-do item: the
    "Completed In" label and whether the "Completed At" cell shows a time or
    the "..." placeholder.  Calendar fields are subtracted as raw integers,
    with no account of month, day or hour boundaries. */
module Render {
  import opened Todo

  /** The "Completed In" cell: empty, or a signed count of days, hours or minutes. */
  datatype Elapsed = NoLabel | Days(n: int) | Hours(n: int) | Minutes(n: int)

  /** The "Completed At" cell: the placeholder "...", or the completion time. */
  datatype Stamp = Placeholder | At(t: Timestamp)

  /** The label as the printer computes it.  A pending item gets none.  A done
      item is labelled in the coarsest calendar field that differs between
      its two timestamps, minutes when day and hour agree.  Hours and
      minutes count completion minus creation; days count creation minus
      completion. */
  function CompletedIn(it: Item): (r: Elapsed)
    ensures r.NoLabel? <==> !it.done
    ensures r.Days? <==> it.done && it.createdAt.day != it.completedAt.day
    ensures r.Hours? <==> it.done && it.createdAt.day == it.completedAt.day && it.createdAt.hour != it.completedAt.hour
    ensures r.Minutes? <==> it.done && it.createdAt.day == it.completedAt.day && it.createdAt.hour == it.completedAt.hour
    ensures r.Days? ==> r.n == it.createdAt.day - it.completedAt.day && r.n != 0
    ensures r.Hours? ==> r.n == it.completedAt.hour - it.createdAt.hour && r.n != 0
    ensures r.Minutes? ==> r.n == it.completedAt.minute - it.createdAt.minute
  {
    if !it.done then NoLabel
    else
      var dayDiff := it.createdAt.day - it.completedAt.day;
      if dayDiff != 0 then Days(dayDiff)
      else
        var hourDiff := it.createdAt.hour - it.completedAt.hour;
        if hourDiff != 0 then Hours(it.completedAt.hour - it.createdAt.hour)
        else Minutes(it.completedAt.minute - it.createdAt.minute)
  }

  /** The label with every unit counted as completion minus creation. */
  function CompletedInIntended(it: Item): (r: Elapsed)
  {
    if !it.done then NoLabel
    else if it.createdAt.day != it.completedAt.day then Days(it.completedAt.day - it.createdAt.day)
    else if it.createdAt.hour != it.completedAt.hour then Hours(it.completedAt.hour - it.createdAt.hour)
    else Minutes(it.completedAt.minute - it.createdAt.minute)
  }

  /** The "Completed At" cell shows "..." exactly when both timestamps fall in
      the same unix second, whether or not the item is done. */
  function CompletedAtCell(it: Item): (r: Stamp)
    ensures r.Placeholder? <==> it.createdAt.unix == it.completedAt.unix
    ensures r.At? ==> r.t == it.completedAt
  {
    if it.createdAt.unix == it.completedAt.unix then Placeholder else At(it.completedAt)
  }

  /** `b` is not earlier than `a`, comparing day, then hour, then minute. */
  predicate NotBefore(a: Timestamp, b: Timestamp) {
    a.day < b.day
    || (a.day == b.day && a.hour < b.hour)
    || (a.day == b.day && a.hour == b.hour && a.minute <= b.minute)
  }

  /** The magnitude a label shows, 0 for no label. */
  function Amount(e: Elapsed): int {
    if e.NoLabel? then 0 else e.n
  }

  /** The printed label and the intended one pick the same unit and agree on
      hours and minutes; only the day count has its sign flipped. */
  lemma WrittenFlipsOnlyDays(it: Item)
    ensures CompletedIn(it).Days? == CompletedInIntended(it).Days?
    ensures CompletedIn(it).Days? ==> CompletedIn(it).n == -CompletedInIntended(it).n
    ensures !CompletedIn(it).Days? ==> CompletedIn(it) == CompletedInIntended(it)
  {
  }

  /** As written: a task created on day 14 and completed the next day is
      labelled "-1 days". */
  lemma WrittenNextDayIsNegative()
    ensures CompletedIn(Item("t", true, Timestamp(0, 14, 9, 0), Timestamp(86400, 15, 9, 0))) == Days(-1)
  {
  }

  /** As written: completing on a later calendar day always gives a negative
      day count. */
  lemma WrittenLaterDayIsNegative(it: Item)
    requires it.done && it.createdAt.day < it.completedAt.day
    ensures CompletedIn(it).Days? && CompletedIn(it).n < 0
  {
  }

  /** Intended: a done item completed no earlier than it was created is never
      shown a negative amount, and a day or hour count is positive. */
  lemma IntendedNotNegative(it: Item)
    requires it.done && NotBefore(it.createdAt, it.completedAt)
    ensures Amount(CompletedInIntended(it)) >= 0
    ensures !CompletedInIntended(it).Minutes? ==> Amount(CompletedInIntended(it)) > 0
  {
  }

  /** Intended: the amount is negative exactly when completion is earlier
      than creation in the first field that differs. */
  lemma IntendedSignMatchesOrder(it: Item)
    requires it.done
    ensures Amount(CompletedInIntended(it)) < 0 <==> !NotBefore(it.createdAt, it.completedAt)
  {
  }

  /** A freshly added item whose two clock readings fall in one second shows
      "..." and no label. */
  lemma FreshItemRow(task: string, created: Timestamp, completed: Timestamp)
    requires created.unix == completed.unix
    ensures CompletedAtCell(Item(task, false, created, completed)) == Placeholder
    ensures CompletedIn(Item(task, false, created, completed)) == NoLabel
  {
  }

  /** The "Completed At" cell depends only on the two timestamps: flipping the
      done flag never changes whether "..." is shown. */
  lemma PlaceholderIndependentOfDone(it: Item)
    ensures CompletedAtCell(it) == CompletedAtCell(it.(done := !it.done))
  {
  }

  /** Two rows where "..." and pendingness disagree: an item completed in the
      second it was created shows "..." and a label; a pending item whose two
      clock readings straddle a second boundary shows a time and no label. */
  lemma PlaceholderExamples()
    ensures var quick := Item("a", true, Timestamp(5, 1, 2, 3), Timestamp(5, 1, 2, 3));
            CompletedAtCell(quick) == Placeholder && CompletedIn(quick) == Minutes(0)
    ensures var slow := Item("b", false, Timestamp(5, 1, 2, 3), Timestamp(6, 1, 2, 3));
            CompletedAtCell(slow) == At(Timestamp(6, 1, 2, 3)) && CompletedIn(slow) == NoLabel
  {
  }
}
