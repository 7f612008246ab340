/**
 * The three DST fixture generators of `main.py`. Each walks one civil day from
 * local midnight in `freqMin`-minute steps and emits one row per step, except that
 * the fall-back generator emits two rows for every step whose hour is 2.
 *
 * The process-wide pseudo-random source is an explicit, unbounded stream of draws
 * in [0, 1): `draw(i)` is the i-th call of `random.random()` since the seed, `pos`
 * the number of draws already taken, and every generator returns the position
 * after its last draw.
 */
module Generators {
  import opened Wrappers
  import opened Clock

  /** The zone name written in every row. */
  const TZ: string := "Europe/Paris"

  /** The local hour that the fall-back generator emits twice (fixed in the source). */
  const FoldHour: int := 2

  /** The range of `random.random()`. */
  type Unit = r: real | 0.0 <= r < 1.0

  /** A sample `base + span * draw`; its rendering to three decimals is not modelled. */
  datatype Reading = Reading(base: nat, span: nat, draw: Unit)

  /**
   * The value of a reading. The source computes it in floating point, where the
   * draw closest to 1 can round up to `base + span`, so only the closed range is
   * promised.
   */
  function Magnitude(r: Reading): (v: real)
    ensures r.base as real <= v <= r.base as real + r.span as real
  {
    var x := r.span as real * r.draw;
    assert 0.0 <= x <= r.span as real by {
      if r.span > 0 {
        assert r.span as real * r.draw < r.span as real * 1.0;
      }
    }
    r.base as real + x
  }

  /**
   * A generated row: five fields, or six when it carries a fold indicator. The
   * timestamp and the reading are kept as values; `Fields` renders a row to the
   * strings the source puts in its tuple.
   */
  datatype Row =
    | Plain(ts: Stamp, tz: string, siteId: string, metric: string, value: Reading)
    | Folded(ts: Stamp, tz: string, siteId: string, metric: string, value: Reading, fold: string)

  /** The arguments shared by the three generators. */
  datatype Day = Day(date: string, siteId: string, metric: string, freqMin: int)

  /** The minute of the day a row's timestamp denotes. */
  function Minute(r: Row): int {
    r.ts.minute
  }

  /** The fold indicator of a row, or "" for a row that has none. */
  function Fold(r: Row): string {
    if r.Folded? then r.fold else ""
  }

  /**
   * The tuple the source appends for a row: the `isoformat` timestamp, the zone,
   * the site, the metric, the reading rendered by `fmt` (`f"{val:.3f}"`), and the
   * fold indicator when there is one.
   */
  function Fields(r: Row, fmt: Reading -> string): (fields: seq<string>)
    ensures |fields| == if r.Folded? then 6 else 5
  {
    var common := [Iso(r.ts), r.tz, r.siteId, r.metric, fmt(r.value)];
    if r.Folded? then common + [r.fold] else common
  }

  /**
   * `int(24 * 60 / freq_min)`, the number of steps of the walk: truncating division
   * for a positive interval, and no step at all for a negative one.
   */
  function StepCount(freqMin: int): nat {
    if freqMin > 0 then MinutesPerDay / freqMin else 0
  }

  /**
   * The wall-clock minute reached after k steps of `t += timedelta(minutes=freq_min)`
   * from local midnight.
   */
  function StepTime(freqMin: int, k: nat): int {
    if k == 0 then 0 else StepTime(freqMin, k - 1) + freqMin
  }

  lemma MulLeq(a: int, b: int, c: int)
    requires a <= b && 0 <= c
    ensures a * c <= b * c
  {
  }

  /** Step k is at midnight + k * freqMin. */
  lemma {:induction false} StepTimeIsProduct(freqMin: int, k: nat)
    ensures StepTime(freqMin, k) == k * freqMin
  {
    if k > 0 {
      StepTimeIsProduct(freqMin, k - 1);
    }
  }

  /** Every step of the walk, and the interval after it, stay within the input date. */
  lemma StepOnDate(freqMin: int, k: nat)
    requires k < StepCount(freqMin)
    ensures 0 <= StepTime(freqMin, k) && StepTime(freqMin, k) + freqMin <= MinutesPerDay
  {
    var n := MinutesPerDay / freqMin;
    StepTimeIsProduct(freqMin, k);
    MulLeq(0, k, freqMin);
    MulLeq(k + 1, n, freqMin);
  }

  /** Later steps of the walk are later in the day. */
  lemma {:induction false} StepsIncrease(freqMin: int, k1: nat, k2: nat)
    requires k1 < k2 && freqMin > 0
    ensures StepTime(freqMin, k1) < StepTime(freqMin, k2)
  {
    if k1 < k2 - 1 {
      StepsIncrease(freqMin, k1, k2 - 1);
    }
  }

  // ---------------------------------------------------------------------------
  // Regular day

  /** Row k of a regular day: zone-aware timestamp, reading 50 + 10 * draw. */
  function RegularRow(d: Day, offset: int -> string, draw: nat -> Unit, pos: nat, k: nat): Row
    requires k < StepCount(d.freqMin)
  {
    StepOnDate(d.freqMin, k);
    var t := StepTime(d.freqMin, k);
    Plain(Aware(d.date, t, offset(t)), TZ, d.siteId, d.metric, Reading(50, 10, draw(pos + k)))
  }

  /** The rows of a regular day, one per step, step k taking the draw pos + k. */
  function RegularRows(d: Day, offset: int -> string, draw: nat -> Unit, pos: nat): seq<Row> {
    seq(StepCount(d.freqMin), k requires 0 <= k < StepCount(d.freqMin) => RegularRow(d, offset, draw, pos, k))
  }

  /**
   * `gen_regular_day`. `ok` is false exactly when the interval is zero, where the
   * source fails with a division by zero before drawing anything.
   */
  method GenRegularDay(date: string, siteId: string, metric: string, freqMin: int,
                       offset: int -> string, draw: nat -> Unit, pos: nat)
    returns (ok: bool, rows: seq<Row>, next: nat)
    ensures ok <==> freqMin != 0
    ensures !ok ==> rows == [] && next == pos
    ensures ok ==> rows == RegularRows(Day(date, siteId, metric, freqMin), offset, draw, pos)
    ensures ok ==> |rows| == StepCount(freqMin) && next == pos + |rows|
  {
    if freqMin == 0 {
      return false, [], pos;
    }
    var d := Day(date, siteId, metric, freqMin);
    var n := StepCount(freqMin);
    rows, next := [], pos;
    var t := 0;
    for i := 0 to n
      invariant t == StepTime(freqMin, i)
      invariant |rows| == i && next == pos + i
      invariant forall k :: 0 <= k < i ==> rows[k] == RegularRow(d, offset, draw, pos, k)
    {
      StepOnDate(freqMin, i);
      var v := draw(next);
      next := next + 1;
      var row := Plain(Aware(date, t, offset(t)), TZ, siteId, metric, Reading(50, 10, v));
      assert row == RegularRow(d, offset, draw, pos, i);
      rows := rows + [row];
      t := t + freqMin;
    }
    assert rows == RegularRows(d, offset, draw, pos);
    ok := true;
  }

  /**
   * The rendered timestamp of step k is on the input date, zone-aware, and denotes
   * local time midnight + k * freqMin.
   */
  lemma RegularRowTime(d: Day, offset: int -> string, draw: nat -> Unit, pos: nat, k: nat)
    requires IsIsoDate(d.date) && k < StepCount(d.freqMin)
    ensures var ts := Iso(RegularRow(d, offset, draw, pos, k).ts);
      |ts| >= 19 && ts[..10] == d.date && ts[10] == 'T' && ClockOf(ts) == Some(k * d.freqMin)
  {
    StepTimeIsProduct(d.freqMin, k);
    IsoRoundTrip(RegularRow(d, offset, draw, pos, k).ts);
  }

  /** The timestamps of a regular day strictly increase. */
  lemma RegularIncreasing(d: Day, offset: int -> string, draw: nat -> Unit, pos: nat, k1: nat, k2: nat)
    requires k1 < k2 < StepCount(d.freqMin)
    ensures Minute(RegularRow(d, offset, draw, pos, k1)) < Minute(RegularRow(d, offset, draw, pos, k2))
  {
    StepsIncrease(d.freqMin, k1, k2);
  }

  // ---------------------------------------------------------------------------
  // Spring-forward day

  /** Row k of a spring-forward day: zone-naive timestamp, reading 40 + 12 * draw. */
  function SpringRow(d: Day, draw: nat -> Unit, pos: nat, k: nat): Row
    requires k < StepCount(d.freqMin)
  {
    StepOnDate(d.freqMin, k);
    Plain(Naive(d.date, StepTime(d.freqMin, k)), TZ, d.siteId, d.metric, Reading(40, 12, draw(pos + k)))
  }

  /** The rows of a spring-forward day, one per step, step k taking the draw pos + k. */
  function SpringRows(d: Day, draw: nat -> Unit, pos: nat): seq<Row> {
    seq(StepCount(d.freqMin), k requires 0 <= k < StepCount(d.freqMin) => SpringRow(d, draw, pos, k))
  }

  /**
   * `gen_spring_forward_day`: the naive walk covers the whole day, including the
   * local hour that does not exist on that date.
   */
  method GenSpringForwardDay(date: string, siteId: string, metric: string, freqMin: int,
                             draw: nat -> Unit, pos: nat)
    returns (ok: bool, rows: seq<Row>, next: nat)
    ensures ok <==> freqMin != 0
    ensures !ok ==> rows == [] && next == pos
    ensures ok ==> rows == SpringRows(Day(date, siteId, metric, freqMin), draw, pos)
    ensures ok ==> |rows| == StepCount(freqMin) && next == pos + |rows|
  {
    if freqMin == 0 {
      return false, [], pos;
    }
    var d := Day(date, siteId, metric, freqMin);
    var n := StepCount(freqMin);
    rows, next := [], pos;
    var t := 0;
    for i := 0 to n
      invariant t == StepTime(freqMin, i)
      invariant |rows| == i && next == pos + i
      invariant forall k :: 0 <= k < i ==> rows[k] == SpringRow(d, draw, pos, k)
    {
      StepOnDate(freqMin, i);
      var v := draw(next);
      next := next + 1;
      var row := Plain(Naive(date, t), TZ, siteId, metric, Reading(40, 12, v));
      assert row == SpringRow(d, draw, pos, i);
      rows := rows + [row];
      t := t + freqMin;
    }
    assert rows == SpringRows(d, draw, pos);
    ok := true;
  }

  /**
   * The rendered timestamp of step k is on the input date, zone-naive, and denotes
   * local time midnight + k * freqMin.
   */
  lemma SpringRowTime(d: Day, draw: nat -> Unit, pos: nat, k: nat)
    requires IsIsoDate(d.date) && k < StepCount(d.freqMin)
    ensures var ts := Iso(SpringRow(d, draw, pos, k).ts);
      |ts| >= 19 && ts[..10] == d.date && ts[10] == ' ' && ClockOf(ts) == Some(k * d.freqMin)
  {
    StepTimeIsProduct(d.freqMin, k);
    IsoRoundTrip(SpringRow(d, draw, pos, k).ts);
  }

  /** The timestamps of a spring-forward day strictly increase. */
  lemma SpringIncreasing(d: Day, draw: nat -> Unit, pos: nat, k1: nat, k2: nat)
    requires k1 < k2 < StepCount(d.freqMin)
    ensures Minute(SpringRow(d, draw, pos, k1)) < Minute(SpringRow(d, draw, pos, k2))
  {
    StepsIncrease(d.freqMin, k1, k2);
  }

  /**
   * Every wall-clock time of the walk that falls in the missing hour is emitted
   * verbatim, at the row the walk reaches it: nothing is skipped or shifted.
   */
  lemma SpringKeepsMissingHour(d: Day, draw: nat -> Unit, pos: nat, m: int)
    requires IsIsoDate(d.date) && d.freqMin > 0
    requires Hour(m) == FoldHour && m % d.freqMin == 0
    ensures m / d.freqMin < StepCount(d.freqMin)
    ensures SpringRow(d, draw, pos, m / d.freqMin).ts == Naive(d.date, m)
    ensures Iso(SpringRow(d, draw, pos, m / d.freqMin).ts)[11..13] == "02"
  {
    var f := d.freqMin;
    var k := m / f;
    assert k * f == m;
    StepTimeIsProduct(f, k);
    if k >= StepCount(f) {
      MulLeq(MinutesPerDay / f + 1, k, f);
      assert false;
    }
    assert Iso(Naive(d.date, m))[11..13] == Pad2(m / 60);
  }

  // ---------------------------------------------------------------------------
  // Fall-back day: the schedule of the walk

  /**
   * What one row of the fall-back day carries besides its reading: the wall-clock
   * minute and the fold indicator.
   */
  datatype Slot = Slot(minute: int, fold: string)

  /**
   * The slots of the step at minute t: fold "0", followed, when the hour is the
   * repeated one, by fold "1" at the same minute.
   */
  function StepSlots(t: int): seq<Slot> {
    if Hour(t) == FoldHour then [Slot(t, "0"), Slot(t, "1")] else [Slot(t, "0")]
  }

  /** The slots of the first k steps of the fall-back walk, in emission order. */
  function FallBackSlots(freqMin: int, k: nat): seq<Slot> {
    if k == 0 then [] else FallBackSlots(freqMin, k - 1) + StepSlots(StepTime(freqMin, k - 1))
  }

  /** The number of steps among the first k whose hour is the repeated one. */
  function FoldSteps(freqMin: int, k: nat): (c: nat)
    ensures c <= k
  {
    if k == 0 then 0
    else FoldSteps(freqMin, k - 1) + (if Hour(StepTime(freqMin, k - 1)) == FoldHour then 1 else 0)
  }

  /** The walk emits one slot per step plus one per step in the repeated hour. */
  lemma {:induction false} FallBackLength(freqMin: int, k: nat)
    ensures |FallBackSlots(freqMin, k)| == k + FoldSteps(freqMin, k)
  {
    if k > 0 {
      FallBackLength(freqMin, k - 1);
    }
  }

  /** Every slot of a walk within the day lies on the date and has fold "0" or "1". */
  lemma {:induction false} FallBackSlotsInRange(freqMin: int, k: nat)
    requires k <= StepCount(freqMin)
    ensures forall i :: 0 <= i < |FallBackSlots(freqMin, k)| ==>
      && 0 <= FallBackSlots(freqMin, k)[i].minute < MinutesPerDay
      && (FallBackSlots(freqMin, k)[i].fold == "0" || FallBackSlots(freqMin, k)[i].fold == "1")
  {
    if k > 0 {
      FallBackSlotsInRange(freqMin, k - 1);
      StepOnDate(freqMin, k - 1);
    }
  }

  /** The slots of fewer steps are a prefix of the slots of more steps. */
  lemma {:induction false} FallBackPrefix(freqMin: int, k1: nat, k2: nat)
    requires k1 <= k2
    ensures FallBackSlots(freqMin, k1) <= FallBackSlots(freqMin, k2)
  {
    if k1 < k2 {
      FallBackPrefix(freqMin, k1, k2 - 1);
    }
  }

  /**
   * Step s of the walk starts at slot s + FoldSteps(s): there, in every longer walk,
   * are its fold "0" slot and, when its hour is the repeated one, its fold "1" slot.
   */
  lemma FallBackStepAt(freqMin: int, k: nat, s: nat)
    requires s < k
    ensures var j, slots := s + FoldSteps(freqMin, s), FallBackSlots(freqMin, k);
      && j < |slots| && slots[j] == Slot(StepTime(freqMin, s), "0")
      && (Hour(StepTime(freqMin, s)) == FoldHour ==> j + 1 < |slots| && slots[j + 1] == Slot(StepTime(freqMin, s), "1"))
  {
    FallBackLength(freqMin, s);
    FallBackPrefix(freqMin, s + 1, k);
    var upTo := FallBackSlots(freqMin, s + 1);
    assert upTo == FallBackSlots(freqMin, s) + StepSlots(StepTime(freqMin, s));
    assert upTo[s + FoldSteps(freqMin, s)] == Slot(StepTime(freqMin, s), "0");
  }

  /** Minutes never go backwards. */
  predicate NonDecreasing(slots: seq<Slot>) {
    forall i :: 0 < i < |slots| ==> slots[i - 1].minute <= slots[i].minute
  }

  /** Slots i - 1 and i share a minute exactly when slot i has fold "1". */
  predicate TwinAt(slots: seq<Slot>, i: int)
    requires 0 < i < |slots|
  {
    slots[i - 1].minute == slots[i].minute <==> slots[i].fold == "1"
  }

  /** A fold "1" slot at i lies in the repeated hour, right after a fold "0" slot. */
  predicate SecondAt(slots: seq<Slot>, i: int)
    requires 0 <= i < |slots|
  {
    slots[i].fold == "1" ==> 0 < i && slots[i - 1].fold == "0" && Hour(slots[i].minute) == FoldHour
  }

  /** A fold "0" slot at i in the repeated hour is followed by its fold "1" twin. */
  predicate PairedAt(slots: seq<Slot>, i: int)
    requires 0 <= i < |slots|
  {
    slots[i].fold == "0" && Hour(slots[i].minute) == FoldHour ==>
      i + 1 < |slots| && slots[i + 1].minute == slots[i].minute && slots[i + 1].fold == "1"
  }

  /** The three conditions at slot i. */
  predicate FoldsAt(slots: seq<Slot>, i: int)
    requires 0 <= i < |slots|
  {
    (0 < i ==> TwinAt(slots, i)) && SecondAt(slots, i) && PairedAt(slots, i)
  }

  /**
   * The fold column disambiguates the repeated hour: equal neighbouring minutes are
   * exactly the fold "1" slots, each of which follows its fold "0" twin in hour 2,
   * and every fold "0" slot of hour 2 has such a twin.
   */
  predicate FoldsConsistent(slots: seq<Slot>) {
    forall i :: 0 <= i < |slots| ==> FoldsAt(slots, i)
  }

  /** Two non-decreasing runs make one when the second starts no earlier than the first ends. */
  lemma NonDecreasingAppend(a: seq<Slot>, b: seq<Slot>)
    requires NonDecreasing(a) && NonDecreasing(b)
    requires |a| > 0 && |b| > 0 ==> a[|a| - 1].minute <= b[0].minute
    ensures NonDecreasing(a + b)
  {
    var ab := a + b;
    forall i | 0 < i < |ab|
      ensures ab[i - 1].minute <= ab[i].minute
    {
      if i > |a| {
        assert ab[i - 1] == b[i - 1 - |a|] && ab[i] == b[i - |a|];
      }
    }
  }

  /** Two consistent runs make one when the second does not repeat the first's last minute. */
  lemma FoldsAppend(a: seq<Slot>, b: seq<Slot>)
    requires FoldsConsistent(a) && FoldsConsistent(b)
    requires |a| > 0 && |b| > 0 ==> a[|a| - 1].minute != b[0].minute
    ensures FoldsConsistent(a + b)
  {
    var ab := a + b;
    if |b| > 0 {
      assert FoldsAt(b, 0);
    }
    forall i | 0 <= i < |ab|
      ensures FoldsAt(ab, i)
    {
      if i < |a| {
        assert FoldsAt(a, i);
      } else {
        assert FoldsAt(b, i - |a|);
        if i > |a| {
          assert ab[i - 1] == b[i - 1 - |a|];
        }
        if i + 1 < |ab| {
          assert ab[i + 1] == b[i + 1 - |a|];
        }
      }
    }
  }

  /** The slots of one step all carry its minute, and are consistent on their own. */
  lemma StepSlotsFacts(t: int)
    ensures 0 < |StepSlots(t)| && StepSlots(t)[0].minute == t && StepSlots(t)[|StepSlots(t)| - 1].minute == t
    ensures NonDecreasing(StepSlots(t)) && FoldsConsistent(StepSlots(t))
  {
    assert FoldsAt(StepSlots(t), 0);
    if |StepSlots(t)| == 2 {
      assert FoldsAt(StepSlots(t), 1);
    }
  }

  /** After k > 0 steps, the last slot lies before the minute of step k. */
  lemma FallBackBoundary(freqMin: int, k: nat)
    requires 0 < k && freqMin > 0
    ensures |FallBackSlots(freqMin, k)| > 0
    ensures FallBackSlots(freqMin, k)[|FallBackSlots(freqMin, k)| - 1].minute < StepTime(freqMin, k)
  {
    StepSlotsFacts(StepTime(freqMin, k - 1));
    StepsIncrease(freqMin, k - 1, k);
  }

  /** The minutes of a fall-back walk never go backwards. */
  lemma {:induction false} FallBackNonDecreasing(freqMin: int, k: nat)
    requires freqMin > 0
    ensures NonDecreasing(FallBackSlots(freqMin, k))
  {
    if k > 0 {
      StepSlotsFacts(StepTime(freqMin, k - 1));
      FallBackNonDecreasing(freqMin, k - 1);
      if k > 1 {
        FallBackBoundary(freqMin, k - 1);
      }
      NonDecreasingAppend(FallBackSlots(freqMin, k - 1), StepSlots(StepTime(freqMin, k - 1)));
    }
  }

  /** The fold column of a fall-back walk is consistent. */
  lemma {:induction false} FallBackFolds(freqMin: int, k: nat)
    requires freqMin > 0
    ensures FoldsConsistent(FallBackSlots(freqMin, k))
  {
    if k > 0 {
      StepSlotsFacts(StepTime(freqMin, k - 1));
      FallBackFolds(freqMin, k - 1);
      if k > 1 {
        FallBackBoundary(freqMin, k - 1);
      }
      FoldsAppend(FallBackSlots(freqMin, k - 1), StepSlots(StepTime(freqMin, k - 1)));
    }
  }

  // ---------------------------------------------------------------------------
  // Fall-back day: the rows

  /** A fall-back row at minute t with fold indicator `fold`: reading 60 + 8 * v. */
  function FallRow(d: Day, t: int, v: Unit, fold: string): (r: Row)
    requires 0 <= t < MinutesPerDay
  {
    Folded(Naive(d.date, t), TZ, d.siteId, d.metric, Reading(60, 8, v), fold)
  }

  /**
   * The rows of the first k steps of the fall-back walk: the row for slot i takes
   * the i-th draw of the call, draw(pos + i), as every row draws exactly once.
   */
  function FallBackRows(d: Day, draw: nat -> Unit, pos: nat, k: nat): seq<Row>
    requires k <= StepCount(d.freqMin)
  {
    var slots := FallBackSlots(d.freqMin, k);
    FallBackSlotsInRange(d.freqMin, k);
    seq(|slots|, i requires 0 <= i < |slots| => FallRow(d, slots[i].minute, draw(pos + i), slots[i].fold))
  }

  /** The minute and fold indicator of every row. */
  function SlotsOf(rows: seq<Row>): seq<Slot> {
    seq(|rows|, i requires 0 <= i < |rows| => Slot(Minute(rows[i]), Fold(rows[i])))
  }

  /**
   * The rows of a fall-back walk follow its schedule: every row is a fold row on
   * the input date with the constant fields, the row at position i takes the i-th
   * draw, and its minute and fold indicator are those of slot i.
   */
  lemma FallBackRowsWellFormed(d: Day, draw: nat -> Unit, pos: nat, k: nat)
    requires k <= StepCount(d.freqMin)
    ensures SlotsOf(FallBackRows(d, draw, pos, k)) == FallBackSlots(d.freqMin, k)
    ensures forall i :: 0 <= i < |FallBackRows(d, draw, pos, k)| ==>
      var r := FallBackRows(d, draw, pos, k)[i];
      && r.Folded? && r.tz == TZ && r.siteId == d.siteId && r.metric == d.metric
      && r.value == Reading(60, 8, draw(pos + i))
      && r.ts == Naive(d.date, Minute(r))
      && (r.fold == "0" || r.fold == "1")
  {
    FallBackSlotsInRange(d.freqMin, k);
  }

  /**
   * The rows one step at minute t contributes, its first draw being draw(at): two rows
   * at the same timestamp, fold "0" then "1", when the hour is the repeated one, and
   * one row with fold "0" otherwise.
   */
  function StepRows(d: Day, t: int, draw: nat -> Unit, at: nat): seq<Row>
    requires 0 <= t < MinutesPerDay
  {
    if Hour(t) == FoldHour then [FallRow(d, t, draw(at), "0"), FallRow(d, t, draw(at + 1), "1")]
    else [FallRow(d, t, draw(at), "0")]
  }

  /** One more step appends that step's rows, its first draw following the earlier ones. */
  lemma FallBackRowsNext(d: Day, draw: nat -> Unit, pos: nat, k: nat)
    requires k < StepCount(d.freqMin)
    ensures 0 <= StepTime(d.freqMin, k) < MinutesPerDay
    ensures FallBackRows(d, draw, pos, k + 1)
      == FallBackRows(d, draw, pos, k) + StepRows(d, StepTime(d.freqMin, k), draw, pos + |FallBackRows(d, draw, pos, k)|)
  {
    StepOnDate(d.freqMin, k);
    var t := StepTime(d.freqMin, k);
    var before, after := FallBackRows(d, draw, pos, k), FallBackRows(d, draw, pos, k + 1);
    var step := StepRows(d, t, draw, pos + |before|);
    assert FallBackSlots(d.freqMin, k + 1) == FallBackSlots(d.freqMin, k) + StepSlots(t);
    forall i | 0 <= i < |after|
      ensures after[i] == (before + step)[i]
    {
      if i >= |before| {
        assert FallBackSlots(d.freqMin, k + 1)[i] == StepSlots(t)[i - |before|];
      }
    }
  }

  /** Appending two elements one after the other appends the pair. */
  lemma AppendPair<T>(s: seq<T>, a: T, b: T)
    ensures s + [a] + [b] == s + [a, b]
  {
    assert (s + [a] + [b])[|s| + 1] == b;
  }

  /**
   * The body of the `gen_fall_back_day` loop for the step at minute t: draw a value
   * and emit it with fold "0"; in hour 2, draw a second value for a fold "1" row at
   * the same timestamp.
   */
  method FallBackStep(d: Day, draw: nat -> Unit, pos: nat, i: nat, t: int, rows: seq<Row>, next: nat)
    returns (rows': seq<Row>, next': nat)
    requires i < StepCount(d.freqMin) && t == StepTime(d.freqMin, i)
    requires rows == FallBackRows(d, draw, pos, i) && next == pos + |rows|
    ensures rows' == FallBackRows(d, draw, pos, i + 1) && next' == pos + |rows'|
  {
    FallBackRowsNext(d, draw, pos, i);
    var v := draw(next);
    next' := next + 1;
    if Hour(t) == FoldHour {
      rows' := rows + [FallRow(d, t, v, "0")];
      var v2 := draw(next');
      next' := next' + 1;
      rows' := rows' + [FallRow(d, t, v2, "1")];
      AppendPair(rows, FallRow(d, t, v, "0"), FallRow(d, t, v2, "1"));
    } else {
      rows' := rows + [FallRow(d, t, v, "0")];
    }
  }

  /**
   * `gen_fall_back_day`: one step per interval of the day, each emitting one row,
   * or two rows in hour 2; `ok` is false exactly when the interval is zero.
   */
  method GenFallBackDay(date: string, siteId: string, metric: string, freqMin: int,
                        draw: nat -> Unit, pos: nat)
    returns (ok: bool, rows: seq<Row>, next: nat)
    ensures ok <==> freqMin != 0
    ensures !ok ==> rows == [] && next == pos
    ensures ok ==> rows == FallBackRows(Day(date, siteId, metric, freqMin), draw, pos, StepCount(freqMin))
    ensures ok ==> next == pos + |rows|
  {
    if freqMin == 0 {
      return false, [], pos;
    }
    var d := Day(date, siteId, metric, freqMin);
    var n := StepCount(freqMin);
    rows, next := [], pos;
    var t := 0;
    for i := 0 to n
      invariant t == StepTime(freqMin, i)
      invariant rows == FallBackRows(d, draw, pos, i) && next == pos + |rows|
    {
      rows, next := FallBackStep(d, draw, pos, i, t, rows, next);
      t := t + freqMin;
    }
    ok := true;
  }

  /**
   * The rows `gen_fall_back_day` returns, read as (minute, fold) pairs, never go
   * backwards in time and carry a consistent fold column.
   */
  lemma FallBackDayOrdered(d: Day, draw: nat -> Unit, pos: nat)
    requires d.freqMin > 0
    ensures NonDecreasing(SlotsOf(FallBackRows(d, draw, pos, StepCount(d.freqMin))))
    ensures FoldsConsistent(SlotsOf(FallBackRows(d, draw, pos, StepCount(d.freqMin))))
  {
    FallBackRowsWellFormed(d, draw, pos, StepCount(d.freqMin));
    FallBackNonDecreasing(d.freqMin, StepCount(d.freqMin));
    FallBackFolds(d.freqMin, StepCount(d.freqMin));
  }

  // ---------------------------------------------------------------------------
  // How many rows the fall-back day has

  /** The smallest j with j * f >= c. */
  function CeilDiv(c: nat, f: int): int
    requires f > 0
  {
    (c + f - 1) / f
  }

  /** `CeilDiv(c, f)` is the least number of steps whose product with f reaches c. */
  lemma CeilDivLeast(c: nat, f: int, j: nat)
    requires f > 0
    ensures j * f >= c <==> j >= CeilDiv(c, f)
  {
    var q := CeilDiv(c, f);
    assert q * f <= c + f - 1 < (q + 1) * f;
    assert q * f >= c;
    if j >= q {
      MulLeq(q, j, f);
    } else {
      MulLeq(j, q - 1, f);
    }
  }

  function Min(a: int, b: int): int {
    if a <= b then a else b
  }

  /**
   * Among the first k steps, those in the repeated hour are the ones from
   * CeilDiv(120, f) up to, not including, CeilDiv(180, f).
   */
  lemma {:induction false} FoldStepsClosedForm(freqMin: int, k: nat)
    requires freqMin > 0
    ensures FoldSteps(freqMin, k)
      == Min(k, CeilDiv((FoldHour + 1) * 60, freqMin)) - Min(k, CeilDiv(FoldHour * 60, freqMin))
  {
    var lo, hi := CeilDiv(FoldHour * 60, freqMin), CeilDiv((FoldHour + 1) * 60, freqMin);
    CeilDivLeast((FoldHour + 1) * 60, freqMin, hi);
    CeilDivLeast(FoldHour * 60, freqMin, hi);
    assert lo <= hi;
    if k > 0 {
      FoldStepsClosedForm(freqMin, k - 1);
      StepTimeIsProduct(freqMin, k - 1);
      CeilDivLeast(FoldHour * 60, freqMin, k - 1);
      CeilDivLeast((FoldHour + 1) * 60, freqMin, k - 1);
      assert Hour(StepTime(freqMin, k - 1)) == FoldHour <==> lo <= k - 1 < hi;
    }
  }

  /** The number of rows `gen_fall_back_day` returns for a positive interval. */
  lemma FallBackCount(d: Day, draw: nat -> Unit, pos: nat)
    requires d.freqMin > 0
    ensures |FallBackRows(d, draw, pos, StepCount(d.freqMin))|
      == StepCount(d.freqMin)
       + Min(StepCount(d.freqMin), CeilDiv((FoldHour + 1) * 60, d.freqMin))
       - Min(StepCount(d.freqMin), CeilDiv(FoldHour * 60, d.freqMin))
  {
    FallBackLength(d.freqMin, StepCount(d.freqMin));
    FoldStepsClosedForm(d.freqMin, StepCount(d.freqMin));
  }

  /** For an interval that divides the hour, the repeated hour adds 60 / f rows. */
  lemma FallBackCountDividingHour(d: Day, draw: nat -> Unit, pos: nat)
    requires d.freqMin > 0 && 60 % d.freqMin == 0
    ensures |FallBackRows(d, draw, pos, StepCount(d.freqMin))| == MinutesPerDay / d.freqMin + 60 / d.freqMin
  {
    var f, q := d.freqMin, 60 / d.freqMin;
    assert q * f == 60;
    assert (2 * q) * f == FoldHour * 60 && (3 * q) * f == (FoldHour + 1) * 60 && (24 * q) * f == MinutesPerDay;
    ExactDiv(2 * q, f);
    ExactDiv(3 * q, f);
    ExactDiv(24 * q, f);
    FallBackCount(d, draw, pos);
  }

  /** Dividing an exact multiple of f by f, rounding up or down, gives the factor back. */
  lemma ExactDiv(m: nat, f: int)
    requires f > 0
    ensures (m * f) / f == m && (m * f + f - 1) / f == m
  {
    DivUnique(m * f, f, m, 0);
    DivUnique(m * f + f - 1, f, m, f - 1);
  }

  /** Division by f is determined by any quotient-remainder split with 0 <= r < f. */
  lemma DivUnique(a: int, f: int, q: int, r: int)
    requires f > 0 && 0 <= r < f && a == q * f + r
    ensures a / f == q
  {
    var q', r' := a / f, a % f;
    assert a == q' * f + r';
    if q' < q {
      MulLeq(q' + 1, q, f);
    } else if q < q' {
      MulLeq(q + 1, q', f);
    }
  }

  /** The fixture interval: 96 steps, four of them in the repeated hour, 100 rows. */
  lemma FallBackCountQuarterHour(d: Day, draw: nat -> Unit, pos: nat)
    requires d.freqMin == 15
    ensures StepCount(d.freqMin) == 96
    ensures |FallBackRows(d, draw, pos, StepCount(d.freqMin))| == 100
  {
    FallBackCountDividingHour(d, draw, pos);
  }

  /**
   * Dividing the hour is not necessary for the documented count: at 7 minutes the
   * steps from 02:06 to 02:55 are the eight in the repeated hour, and at 50 minutes
   * only 02:30 is, so both days have `1440 / f + 60 / f` rows.
   */
  lemma FallBackCountOtherIntervals(d: Day, draw: nat -> Unit, pos: nat)
    requires d.freqMin == 7 || d.freqMin == 50
    ensures 60 % d.freqMin != 0
    ensures |FallBackRows(d, draw, pos, StepCount(d.freqMin))| == MinutesPerDay / d.freqMin + 60 / d.freqMin
  {
    FallBackCount(d, draw, pos);
  }

  /**
   * An interval that divides the day but not the hour: at 40 minutes the steps at
   * 02:00 and 02:40 both fall in the repeated hour, so the day has 36 + 2 rows,
   * not the 36 + 60 / 40 the divides-the-hour count would give.
   */
  lemma FallBackCountFortyMinutes(d: Day, draw: nat -> Unit, pos: nat)
    requires d.freqMin == 40
    ensures |FallBackRows(d, draw, pos, StepCount(d.freqMin))| == 38
    ensures |FallBackRows(d, draw, pos, StepCount(d.freqMin))| != MinutesPerDay / d.freqMin + 60 / d.freqMin
  {
    FallBackCount(d, draw, pos);
  }
}
