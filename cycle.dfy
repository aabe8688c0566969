/** The integer rules of the cycle tracker (script.js): the phase shown for today
    (`getCyclePhase`), the period / fertile / ovulation marks on the calendar and
    the predicted dates. Times are milliseconds since the epoch; the calendar's
    cells are local midnights, taken here as given millisecond values. */
module Cycle {
  import opened Text

  const DefaultCycleLength: int := 28

  function Abs(x: int): nat { if x < 0 then -x else x }

  /** JavaScript's `a % b`: the remainder of division truncated toward zero, so it
      takes the sign of `a` (Dafny's `%` is Euclidean). */
  function JsRem(a: int, b: int): (r: int)
    requires b != 0
    ensures a >= 0 ==> 0 <= r < Abs(b)
    ensures a < 0 ==> r <= 0 && 0 < r + Abs(b)
  {
    if a >= 0 then a % Abs(b) else -((-a) % Abs(b))
  }

  /** `parseInt(value) || 28`: `None` is `NaN`; a zero is replaced too, a negative
      number is kept. */
  function CycleLength(parsed: Option<int>): (n: int)
    ensures n != 0
    ensures parsed.Some? && parsed.value != 0 ==> n == parsed.value
    ensures parsed.None? || parsed.value == 0 ==> n == DefaultCycleLength
  {
    if parsed.Some? && parsed.value != 0 then parsed.value else DefaultCycleLength
  }

  /** The last-period field: empty, a text that is not a date, or a date. */
  datatype LastPeriod = NotSet | Invalid | At(ms: int)

  datatype Phase = Unknown | Menstruation | Follicular | Ovulation | Luteal

  /** Whole days from `t` to `now`: `Math.floor((now - t) / msPerDay)`. */
  function DaysBetween(t: int, now: int): (d: int)
    ensures d * DayMs <= now - t < (d + 1) * DayMs
  {
    (now - t) / DayMs
  }

  /** The phase for a day of the cycle, by the thresholds 5, 12 and 15. */
  function PhaseOfDay(day: int): Phase {
    if day <= 5 then Menstruation
    else if day <= 12 then Follicular
    else if day <= 15 then Ovulation
    else Luteal
  }

  /** `getCyclePhase()`. Only an empty field gives `unknown`; an invalid date makes
      the day count `NaN`, every comparison false and the answer `luteal`. */
  function CyclePhase(last: LastPeriod, now: int, parsedLength: Option<int>): (p: Phase)
    ensures p == Unknown <==> last == NotSet
    ensures last == Invalid ==> p == Luteal
  {
    match last
    case NotSet => Unknown
    case Invalid => Luteal
    case At(t) => PhaseOfDay(JsRem(DaysBetween(t, now), CycleLength(parsedLength)))
  }

  /** What the phase is, by where the day count falls. */
  lemma PhaseMeaning(t: int, now: int, parsedLength: Option<int>)
    ensures var day := JsRem(DaysBetween(t, now), CycleLength(parsedLength));
            var p := CyclePhase(At(t), now, parsedLength);
            && (p == Menstruation <==> day <= 5)
            && (p == Follicular <==> 5 < day <= 12)
            && (p == Ovulation <==> 12 < day <= 15)
            && (p == Luteal <==> 15 < day)
            && p != Unknown
  {
  }

  /** A last-period date in the future counts as menstruation: the day count is
      negative and so is its truncated remainder. */
  lemma FutureDateIsMenstruation(t: int, now: int, parsedLength: Option<int>)
    requires now < t
    ensures CyclePhase(At(t), now, parsedLength) == Menstruation
  {
    assert DaysBetween(t, now) < 0;
  }

  lemma {:induction false} MulAtLeast(k: int, n: int)
    requires k >= 1 && n > 0
    ensures k * n >= n
  {
    if k > 1 {
      assert k * n == (k - 1) * n + n;
      MulAtLeast(k - 1, n);
    }
  }

  /** Quotient and remainder are determined by `x == q * n + r` with `0 <= r < n`. */
  lemma RemUnique(x: int, n: int, q: int, r: int)
    requires n > 0 && 0 <= r < n && x == q * n + r
    ensures x % n == r
  {
    var q' := x / n;
    var r' := x % n;
    assert x == q' * n + r';
    if q' > q {
      assert (q' - q) * n == r - r';
      MulAtLeast(q' - q, n);
    } else if q' < q {
      assert (q - q') * n == r' - r;
      MulAtLeast(q - q', n);
    }
  }

  /** A day count one cycle later has the same remainder. */
  lemma RemShift(d: nat, n: int)
    requires n > 0
    ensures JsRem(d + n, n) == JsRem(d, n)
  {
    var q := d / n;
    assert d == q * n + d % n;
    assert d + n == (q + 1) * n + d % n;
    RemUnique(d + n, n, q + 1, d % n);
  }

  lemma DaysShift(t: int, now: int, n: int)
    ensures DaysBetween(t, now + n * DayMs) == DaysBetween(t, now) + n
  {
    var d := DaysBetween(t, now);
    assert (d + n) * DayMs <= now + n * DayMs - t < (d + n + 1) * DayMs;
  }

  /** Once the period has started, the phase repeats every cycle length. */
  lemma PhaseRepeats(t: int, now: int, parsedLength: Option<int>)
    requires t <= now && CycleLength(parsedLength) > 0
    ensures var n := CycleLength(parsedLength);
            CyclePhase(At(t), now + n * DayMs, parsedLength) == CyclePhase(At(t), now, parsedLength)
  {
    var n := CycleLength(parsedLength);
    DaysShift(t, now, n);
    RemShift(DaysBetween(t, now), n);
  }

  /** `cycleDay` for the calendar cell at `cell`: the day within the cycle, or -1
      before the last period or when the date is unreadable. */
  function CycleDay(last: LastPeriod, cell: int, parsedLength: Option<int>): (day: int)
    ensures -1 <= day
    ensures day >= 0 <==> last.At? && last.ms <= cell
  {
    match last
    case At(t) =>
      var d := DaysBetween(t, cell);
      assert d >= 0 ==> d * DayMs >= 0;
      if d >= 0 then JsRem(d, CycleLength(parsedLength)) else -1
    case _ => -1
  }

  datatype Marks = Marks(period: bool, fertile: bool, ovulation: bool)

  /** The three classes the calendar adds to a cell. No last period gives none. The
      ovulation day lies in the fertile window, no day is both a period day and a
      fertile day, and only days on or after the last period are marked. */
  function CalendarMarks(last: LastPeriod, cell: int, parsedLength: Option<int>): (m: Marks)
    ensures m.ovulation ==> m.fertile
    ensures !(m.period && m.fertile)
    ensures m.period || m.fertile ==> last.At? && last.ms <= cell
  {
    if last.NotSet? then Marks(false, false, false)
    else
      var day := CycleDay(last, cell, parsedLength);
      Marks(0 <= day < 5, 10 <= day <= 15, day == 14)
  }

  /** Days before the last period, and unreadable dates, carry no mark. */
  lemma NoMarksBefore(last: LastPeriod, cell: int, parsedLength: Option<int>)
    requires last.Invalid? || (last.At? && cell < last.ms)
    ensures CalendarMarks(last, cell, parsedLength) == Marks(false, false, false)
  {
    if last.At? {
      assert DaysBetween(last.ms, cell) < 0;
    }
  }

  /** The calendar repeats every cycle length after the last period. */
  lemma MarksRepeat(t: int, cell: int, parsedLength: Option<int>)
    requires t <= cell && CycleLength(parsedLength) > 0
    ensures var n := CycleLength(parsedLength);
            CalendarMarks(At(t), cell + n * DayMs, parsedLength) == CalendarMarks(At(t), cell, parsedLength)
  {
    var n := CycleLength(parsedLength);
    DaysShift(t, cell, n);
    RemShift(DaysBetween(t, cell), n);
  }

  /** `calculatePredictions()` for a readable last-period date: next period one
      cycle later, ovulation 14 days before it, fertile window from 5 days before
      ovulation to the day after. */
  datatype Predictions = Predictions(nextPeriod: int, ovulation: int, fertileStart: int, fertileEnd: int)

  function Predict(t: int, parsedLength: Option<int>): (p: Predictions)
    ensures p.nextPeriod - t == CycleLength(parsedLength) * DayMs
    ensures p.nextPeriod - p.ovulation == 14 * DayMs
    ensures p.ovulation - p.fertileStart == 5 * DayMs && p.fertileEnd - p.ovulation == DayMs
  {
    var next := t + CycleLength(parsedLength) * DayMs;
    var ovulation := next - 14 * DayMs;
    Predictions(next, ovulation, ovulation - 5 * DayMs, ovulation + DayMs)
  }

  /** The calendar marks the predicted next period as a period day. */
  lemma NextPeriodIsMarked(t: int, parsedLength: Option<int>)
    requires CycleLength(parsedLength) > 0
    ensures CalendarMarks(At(t), Predict(t, parsedLength).nextPeriod, parsedLength).period
  {
    var n := CycleLength(parsedLength);
    DaysShift(t, t, n);
    assert DaysBetween(t, t) == 0;
    RemUnique(n, n, 1, 0);
  }

  /** The predicted ovulation date gets the calendar's ovulation mark exactly when
      the cycle is 28 days long: the calendar counts day 14 from the start, the
      prediction counts 14 days back from the next period. */
  lemma PredictedOvulationMarkedIff(t: int, parsedLength: Option<int>)
    ensures (CalendarMarks(At(t), Predict(t, parsedLength).ovulation, parsedLength).ovulation
             <==> CycleLength(parsedLength) == 28)
  {
    var n := CycleLength(parsedLength);
    DaysShift(t, t, n - 14);
    assert DaysBetween(t, t) == 0;
    var d := n - 14;
    assert DaysBetween(t, Predict(t, parsedLength).ovulation) == d;
    if 0 <= d {
      RemUnique(d, n, 0, d);
    }
  }
}
