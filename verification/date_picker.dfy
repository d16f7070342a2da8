/** The booking calendar's `disabled` predicate
    (components/booking/date-picker.tsx): a day can be picked from today
    through sixty days ahead. Days are numbered consecutively (local
    midnight of each day), `today` being the day the page was loaded. */
module DatePicker {

  /** How far ahead a session can be booked, in days. */
  const WindowDays: nat := 60

  /** `isBefore(date, today) || date > maxDate` with `maxDate` sixty days
      after `today`, both at the start of their day. */
  predicate Disabled(today: int, day: int) {
    day < today || day > today + WindowDays
  }

  /** The days of `lo` up to `hi` (exclusive) that can be picked, in order. */
  function EnabledBetween(today: int, lo: int, hi: int): (days: seq<int>)
    ensures forall i :: 0 <= i < |days| ==> lo <= days[i] < hi && !Disabled(today, days[i])
    decreases hi - lo
  {
    if lo >= hi then []
    else if Disabled(today, lo) then EnabledBetween(today, lo + 1, hi)
    else [lo] + EnabledBetween(today, lo + 1, hi)
  }

  /** Every pickable day of the range is listed. */
  lemma {:induction false} EnabledBetweenComplete(today: int, lo: int, hi: int, day: int)
    requires lo <= day < hi && !Disabled(today, day)
    ensures day in EnabledBetween(today, lo, hi)
    decreases hi - lo
  {
    if day != lo {
      EnabledBetweenComplete(today, lo + 1, hi, day);
    }
  }

  /** The sixty-one days from `start` on, when the range lies inside the
      window. */
  lemma {:induction false} EnabledRun(today: int, start: int, hi: int)
    requires today <= start && hi <= today + 61 && start <= hi
    ensures EnabledBetween(today, start, hi) == seq(hi - start, i => start + i)
    decreases hi - start
  {
    if start < hi {
      EnabledRun(today, start + 1, hi);
      assert [start] + seq(hi - start - 1, i => start + 1 + i) == seq(hi - start, i => start + i);
    }
  }

  /** Days before the window contribute nothing. */
  lemma {:induction false} SkipBefore(today: int, lo: int, hi: int)
    requires lo <= today <= hi
    ensures EnabledBetween(today, lo, hi) == EnabledBetween(today, today, hi)
    decreases today - lo
  {
    if lo < today {
      SkipBefore(today, lo + 1, hi);
    }
  }

  /** Days after the window contribute nothing. */
  lemma {:induction false} SkipAfter(today: int, lo: int, hi: int)
    requires today + 61 <= lo
    ensures EnabledBetween(today, lo, hi) == []
    decreases hi - lo
  {
    if lo < hi {
      SkipAfter(today, lo + 1, hi);
    }
  }

  /** Splitting a range at `mid` splits the list of pickable days. */
  lemma {:induction false} EnabledBetweenSplit(today: int, lo: int, mid: int, hi: int)
    requires lo <= mid <= hi
    ensures EnabledBetween(today, lo, hi) == EnabledBetween(today, lo, mid) + EnabledBetween(today, mid, hi)
    decreases mid - lo
  {
    if lo < mid {
      EnabledBetweenSplit(today, lo + 1, mid, hi);
    }
  }

  /** However wide the calendar range around the window, the pickable days
      are exactly the sixty-one consecutive days from today. */
  lemma WindowIsSixtyOneDays(today: int, lo: int, hi: int)
    requires lo <= today && today + 61 <= hi
    ensures EnabledBetween(today, lo, hi) == seq(61, i => today + i)
    ensures |EnabledBetween(today, lo, hi)| == 61
  {
    SkipBefore(today, lo, hi);
    EnabledBetweenSplit(today, today, today + 61, hi);
    EnabledRun(today, today, today + 61);
    SkipAfter(today, today + 61, hi);
    assert EnabledBetween(today, today, today + 61) + [] == EnabledBetween(today, today, today + 61);
  }
}
