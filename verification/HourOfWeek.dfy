/** Hours counted from 1970-01-01T00:00 UTC, and their place in the week. */
module HourOfWeek {

  const WEEK := 168
  const HOUR := 3600 * 1_000_000

  /** A weekday, Monday being 0, and an hour of the day: the key of demand.py's dictionaries. */
  datatype Slot = Slot(weekday: int, hour: int)

  /** The epoch was a Thursday. */
  function SlotOf(h: int): (slot: Slot) {
    Slot((h / 24 + 3) % 7, h % 24)
  }

  /** The fifth of January 1970 was a Monday; from its midnight on, the week goes on day by day and hour by hour. */
  lemma MondayBeginsTheWeek(day: nat, h: nat)
    requires day < 7 && h < 24
    ensures var slot := SlotOf(4 * 24 + day * 24 + h); slot.weekday == day && slot.hour == h
  {
    assert (4 * 24 + day * 24 + h) / 24 == 4 + day;
  }

  /** Two hours share a slot exactly when whole weeks lie between them. */
  lemma SameSlot(a: int, b: int)
    ensures SlotOf(a) == SlotOf(b) <==> (a - b) % WEEK == 0
  {
    if SlotOf(a) == SlotOf(b) {
      SlotMeansWeeks(a, b);
    }
    if (a - b) % WEEK == 0 {
      WeeksMeanSlot(a, b);
    }
  }

  lemma SlotMeansWeeks(a: int, b: int)
    requires SlotOf(a) == SlotOf(b)
    ensures (a - b) % WEEK == 0
  {
    var da, db := a / 24, b / 24;
    var x, y := (da + 3) / 7, (db + 3) / 7;
    assert da + 3 == 7 * x + (da + 3) % 7 && db + 3 == 7 * y + (db + 3) % 7;
    assert a - b == WEEK * (x - y);
  }

  lemma WeeksMeanSlot(a: int, b: int)
    requires (a - b) % WEEK == 0
    ensures SlotOf(a) == SlotOf(b)
  {
    var k := (a - b) / WEEK;
    assert a - b == WEEK * k;
    assert a % 24 == b % 24;
    assert a / 24 - b / 24 == 7 * k;
    WholeWeeks(a / 24 + 3, b / 24 + 3, k);
  }

  lemma WholeWeeks(x: int, y: int, k: int)
    requires x - y == 7 * k
    ensures x % 7 == y % 7
  {
    assert x == 7 * (y / 7 + k) + y % 7;
  }

  /** How many hours from `first` up to, not including, `end` have the slot. */
  function Occurrences(first: int, end: int, slot: Slot): (n: nat)
    decreases end - first
  {
    if end <= first then 0
    else Occurrences(first, end - 1, slot) + (if SlotOf(end - 1) == slot then 1 else 0)
  }

  /** A closed form: the multiples of a week on either side. */
  lemma {:induction false} OccurrencesOf(first: int, end: int, h: int)
    requires first <= end
    ensures Occurrences(first, end, SlotOf(h)) == (end - 1 - h) / WEEK - (first - 1 - h) / WEEK
    decreases end - first
  {
    if first < end {
      OccurrencesOf(first, end - 1, h);
      SameSlot(end - 1, h);
      StepOver(end - 1 - h);
    }
  }

  lemma StepOver(x: int)
    ensures x / WEEK - (x - 1) / WEEK == if x % WEEK == 0 then 1 else 0
  {
    var q, r := x / WEEK, x % WEEK;
    assert x == WEEK * q + r;
    if r == 0 {
      Quotient(x - 1, q - 1, WEEK - 1);
    } else {
      Quotient(x - 1, q, r - 1);
    }
  }

  lemma Quotient(x: int, q: int, r: int)
    requires x == WEEK * q + r && 0 <= r < WEEK
    ensures x / WEEK == q
  {
  }

  /** With n whole hours, every hour of the week is counted n/168 times, rounded down or up. */
  lemma OccurrencesBalanced(first: int, end: int, h: int)
    requires first <= end
    ensures var n, k := end - first, Occurrences(first, end, SlotOf(h));
            k == n / WEEK || (k == n / WEEK + 1 && n % WEEK != 0)
  {
    OccurrencesOf(first, end, h);
    var y, n := first - 1 - h, end - first;
    var q, r, m, s := y / WEEK, y % WEEK, n / WEEK, n % WEEK;
    assert y + n == WEEK * (q + m) + (r + s);
    if r + s < WEEK {
      Quotient(y + n, q + m, r + s);
    } else {
      Quotient(y + n, q + m + 1, r + s - WEEK);
    }
  }

  /** Over k whole weeks every hour of the week comes k times. */
  lemma WeeksHoldEachSlot(first: int, k: nat, h: int)
    ensures Occurrences(first, first + WEEK * k, SlotOf(h)) == k
  {
    OccurrencesBalanced(first, first + WEEK * k, h);
    assert (WEEK * k) % WEEK == 0 && (WEEK * k) / WEEK == k;
  }

  /** The occurrences of the slots of hours `lo` up to, not including, `hi`. */
  function SumOfOccurrences(first: int, end: int, lo: int, hi: int): (n: nat)
    decreases hi - lo
  {
    if hi <= lo then 0 else SumOfOccurrences(first, end, lo, hi - 1) + Occurrences(first, end, SlotOf(hi - 1))
  }

  lemma {:induction false} SumNext(first: int, end: int, lo: int, hi: int)
    requires first < end
    ensures SumOfOccurrences(first, end, lo, hi)
            == SumOfOccurrences(first, end - 1, lo, hi) + Occurrences(lo, hi, SlotOf(end - 1))
    decreases hi - lo
  {
    if lo < hi {
      SumNext(first, end, lo, hi - 1);
    }
  }

  /** The counts of the 168 hours of a week add up to the number of hours counted. */
  lemma {:induction false} OccurrencesSum(first: int, end: int, monday: int)
    requires first <= end
    ensures SumOfOccurrences(first, end, monday, monday + WEEK) == end - first
    decreases end - first
  {
    if first < end {
      OccurrencesSum(first, end - 1, monday);
      SumNext(first, end, monday, monday + WEEK);
      WeeksHoldEachSlot(monday, 1, end - 1);
    } else {
      NothingCounted(first, monday, monday + WEEK);
    }
  }

  lemma {:induction false} NothingCounted(first: int, lo: int, hi: int)
    ensures SumOfOccurrences(first, first, lo, hi) == 0
    decreases hi - lo
  {
    if lo < hi {
      NothingCounted(first, lo, hi - 1);
    }
  }

  /** `_floor_hour`: the hour that holds the instant. */
  function FloorHour(t: int): (h: int)
    ensures h * HOUR <= t < (h + 1) * HOUR
  {
    t / HOUR
  }

  /** `_ceil_hour`: the first hour that starts no earlier. */
  function CeilHour(t: int): (h: int)
    ensures (h - 1) * HOUR < t <= h * HOUR
  {
    if t == FloorHour(t) * HOUR then FloorHour(t) else FloorHour(t) + 1
  }

  /** The hours that are counted as history are those that lie wholly between the two instants. */
  lemma WholeHours(earliest: int, observed: int, h: int)
    ensures CeilHour(earliest) <= h < FloorHour(observed) <==> earliest <= h * HOUR && (h + 1) * HOUR <= observed
  {
  }
}
