/** Concrete shifts of calendar dates (src/analytics/shifts.py): the weekday's
    base shifts followed by the overlay shifts of the exceptions that apply,
    and the productive-hour totals over a date range. Dates are day numbers
    (day 0 is 1970-01-01, a Thursday); clock times are minutes of the day. */
module Shifts {
  import opened Wrappers
  import opened Types
  import Seqs

  /** Python `date.weekday()`: Monday is 0, Sunday is 6. */
  function Weekday(d: int): (w: int)
    ensures 0 <= w < 7
  {
    (d + 3) % 7
  }

  /** Weekdays repeat every seven days; 1970-01-01 was a Thursday. */
  lemma WeekdayPeriodic(d: int)
    ensures Weekday(d + 7) == Weekday(d)
    ensures Weekday(d + 1) == (Weekday(d) + 1) % 7
    ensures Weekday(0) == 3
  {
    var q := (d + 3) / 7;
    var r := (d + 3) % 7;
    assert d + 3 == 7 * q + r;
    assert d + 10 == 7 * (q + 1) + r;
    if r == 6 {
      assert d + 4 == 7 * (q + 1);
    } else {
      assert d + 4 == 7 * q + (r + 1);
    }
  }

  /** Key of `add_shifts_by_weekday` for a weekday. */
  function DayName(w: int): string
    requires 0 <= w < 7
  {
    ["Mon", "Tue", "Wed", "Thu", "Fri", "Sat", "Sun"][w]
  }

  /** One shift of an exception; `shiftType` is `None` when the key is absent. */
  datatype OverlaySpec = OverlaySpec(name: string, start: MinuteOfDay, end: MinuteOfDay, shiftType: Option<ShiftType>)

  /** The exception's `type` with its dates; any other type is `OtherKind`. */
  datatype ExceptionKind = DateOverlay(date: int) | RangeOverlay(from: int, to: int) | OtherKind

  datatype ShiftException = ShiftException(
    kind: ExceptionKind,
    addShifts: Option<seq<OverlaySpec>>,
    addShiftsByWeekday: Option<map<string, seq<OverlaySpec>>>)

  datatype ShiftInstance = ShiftInstance(
    date: int,
    name: string,
    start: MinuteOfDay,
    end: MinuteOfDay,
    shiftType: ShiftType,
    productiveHours: real)

  datatype ShiftSchedule = ShiftSchedule(weekly: WeeklySchedule, exceptions: seq<ShiftException>)

  /** `ShiftInstance.duration_hours`: the same midnight-wrapping rule as
      `ShiftConfig.duration_hours`. */
  function InstanceDurationHours(s: ShiftInstance): (h: real)
    ensures 0.0 < h <= 24.0
    ensures h == DurationHours(ShiftConfig(s.name, s.start, s.end, s.shiftType))
  {
    var m := if s.end <= s.start then s.end + 1440 - s.start else s.end - s.start;
    m as real / 60.0
  }

  /** `_exception_applies`. */
  predicate ExceptionApplies(e: ShiftException, d: int)
  {
    match e.kind
    case DateOverlay(day) => day == d
    case RangeOverlay(from, to) => from <= d <= to
    case OtherKind => false
  }

  /** `_get_exception_shifts`: `add_shifts` wins over `add_shifts_by_weekday`;
      a weekday the map does not name adds nothing. */
  function ExceptionShifts(e: ShiftException, weekday: int): (r: seq<OverlaySpec>)
    requires 0 <= weekday < 7
    ensures e.addShifts.Some? ==> r == e.addShifts.value
    ensures e.addShifts.None? && e.addShiftsByWeekday.Some? && DayName(weekday) !in e.addShiftsByWeekday.value ==> r == []
    ensures e.addShifts.None? && e.addShiftsByWeekday.None? ==> r == []
  {
    if e.addShifts.Some? then e.addShifts.value
    else if e.addShiftsByWeekday.Some? then
      var m := e.addShiftsByWeekday.value;
      if DayName(weekday) in m then m[DayName(weekday)] else []
    else []
  }

  function BaseInstance(d: int, s: ShiftConfig, hours: real): ShiftInstance
  {
    ShiftInstance(d, s.name, s.start, s.end, s.shiftType, hours)
  }

  function OverlayInstance(d: int, s: OverlaySpec, hours: real): ShiftInstance
  {
    ShiftInstance(d, s.name, s.start, s.end, s.shiftType.GetOr(Overlay), hours)
  }

  function BaseInstances(d: int, shifts: seq<ShiftConfig>, hours: real): (r: seq<ShiftInstance>)
    ensures |r| == |shifts|
    ensures forall i :: 0 <= i < |r| ==> r[i] == BaseInstance(d, shifts[i], hours)
  {
    seq(|shifts|, i requires 0 <= i < |shifts| => BaseInstance(d, shifts[i], hours))
  }

  /** Per exception, the overlay shifts it adds on day `d`: its own shifts
      when it applies, none otherwise. */
  function ExceptionBlocks(excs: seq<ShiftException>, d: int): (r: seq<seq<OverlaySpec>>)
    ensures |r| == |excs|
    ensures forall k :: 0 <= k < |excs| ==>
      r[k] == if ExceptionApplies(excs[k], d) then ExceptionShifts(excs[k], Weekday(d)) else []
  {
    seq(|excs|, k requires 0 <= k < |excs| =>
      if ExceptionApplies(excs[k], d) then ExceptionShifts(excs[k], Weekday(d)) else [])
  }

  /** The overlay instances of the applicable exceptions, in exception order:
      one instance per shift of the concatenated blocks. */
  function OverlayInstances(excs: seq<ShiftException>, d: int, hours: real): (r: seq<ShiftInstance>)
    ensures var specs := Seqs.Concat(ExceptionBlocks(excs, d));
      |r| == |specs| && forall i :: 0 <= i < |r| ==> r[i] == OverlayInstance(d, specs[i], hours)
    ensures forall i :: 0 <= i < |r| ==> r[i].date == d && r[i].productiveHours == hours
    ensures (forall k :: 0 <= k < |excs| ==> !ExceptionApplies(excs[k], d)) ==> r == []
  {
    if |excs| == 0 then []
    else
      var here := if ExceptionApplies(excs[0], d) then ExceptionShifts(excs[0], Weekday(d)) else [];
      var rest := OverlayInstances(excs[1..], d, hours);
      assert ExceptionBlocks(excs, d)[1..] == ExceptionBlocks(excs[1..], d);
      seq(|here|, i requires 0 <= i < |here| => OverlayInstance(d, here[i], hours)) + rest
  }

  /** `get_shifts_for_date`: the weekday's base shifts in schedule order, then
      the overlays; every instance carries the date and the weekly productive
      hours per shift. */
  function ShiftsForDate(s: ShiftSchedule, d: int): (r: seq<ShiftInstance>)
    ensures r == BaseInstances(d, Days(s.weekly)[Weekday(d)], s.weekly.productiveHoursPerShift)
                 + OverlayInstances(s.exceptions, d, s.weekly.productiveHoursPerShift)
    ensures var base := Days(s.weekly)[Weekday(d)];
      |r| >= |base|
      && (forall i :: 0 <= i < |base| ==> r[i] == BaseInstance(d, base[i], s.weekly.productiveHoursPerShift))
    ensures forall i :: 0 <= i < |r| ==> r[i].date == d && r[i].productiveHours == s.weekly.productiveHoursPerShift
    ensures (forall k :: 0 <= k < |s.exceptions| ==> !ExceptionApplies(s.exceptions[k], d))
        ==> |r| == |Days(s.weekly)[Weekday(d)]|
  {
    var hours := s.weekly.productiveHoursPerShift;
    BaseInstances(d, Days(s.weekly)[Weekday(d)], hours) + OverlayInstances(s.exceptions, d, hours)
  }

  /** `get_shifts_for_range`: the days from `start` to `end` inclusive, in
      order; empty when `start > end`. */
  function ShiftsForRange(s: ShiftSchedule, start: int, end: int): (r: seq<ShiftInstance>)
    ensures start > end ==> r == []
    ensures forall i :: 0 <= i < |r| ==> start <= r[i].date <= end
    ensures forall i :: 0 <= i < |r| ==> r[i].productiveHours == s.weekly.productiveHoursPerShift
    ensures forall i, j :: 0 <= i < j < |r| ==> r[i].date <= r[j].date
    decreases end - start
  {
    if start > end then []
    else
      var first := ShiftsForDate(s, start);
      var rest := ShiftsForRange(s, start + 1, end);
      DatedConcat(first, rest, start, end, s.weekly.productiveHoursPerShift);
      first + rest
  }

  /** One day's shifts followed by the shifts of later days stay in date
      order and within the range. */
  lemma DatedConcat(first: seq<ShiftInstance>, rest: seq<ShiftInstance>, start: int, end: int, h: real)
    requires start <= end
    requires forall i :: 0 <= i < |first| ==> first[i].date == start && first[i].productiveHours == h
    requires forall i :: 0 <= i < |rest| ==> start + 1 <= rest[i].date <= end && rest[i].productiveHours == h
    requires forall i, j :: 0 <= i < j < |rest| ==> rest[i].date <= rest[j].date
    ensures var r := first + rest;
      (forall i :: 0 <= i < |r| ==> start <= r[i].date <= end && r[i].productiveHours == h) &&
      (forall i, j :: 0 <= i < j < |r| ==> r[i].date <= r[j].date)
  {
    var r := first + rest;
    assert forall i :: |first| <= i < |r| ==> r[i] == rest[i - |first|];
  }

  function DatedOn(d: int): ShiftInstance -> bool
  {
    (x: ShiftInstance) => x.date == d
  }

  /** Shifts all dated `day` pass the date filter for `d` all together or
      not at all. */
  lemma FilterOneDate(xs: seq<ShiftInstance>, day: int, d: int)
    requires forall i :: 0 <= i < |xs| ==> xs[i].date == day
    ensures Seqs.Filter(xs, DatedOn(d)) == if day == d then xs else []
  {
    Seqs.FilterAllOrNone(xs, DatedOn(d));
  }

  /** The shifts of a range dated `d` are exactly the shifts of date `d` when
      `d` lies in the range, and none otherwise. */
  lemma {:induction false} RangeHoldsEachDate(s: ShiftSchedule, start: int, end: int, d: int)
    ensures Seqs.Filter(ShiftsForRange(s, start, end), DatedOn(d)) ==
      if start <= d <= end then ShiftsForDate(s, d) else []
    decreases end - start
  {
    if start <= end {
      var first := ShiftsForDate(s, start);
      var rest := ShiftsForRange(s, start + 1, end);
      assert ShiftsForRange(s, start, end) == first + rest;
      Seqs.FilterConcat(first, rest, DatedOn(d));
      FilterOneDate(first, start, d);
      RangeHoldsEachDate(s, start + 1, end, d);
      if d == start {
        assert first + [] == first;
      }
    }
  }

  /** Whether a shift passes the optional type filter. */
  predicate Selected(filter: Option<ShiftType>, x: ShiftInstance)
  {
    filter.None? || x.shiftType == filter.value
  }

  function ProductiveHours(x: ShiftInstance): real { x.productiveHours }

  function SelectedBy(filter: Option<ShiftType>): ShiftInstance -> bool
  {
    x => Selected(filter, x)
  }

  function HasHours(c: real): ShiftInstance -> bool
  {
    (x: ShiftInstance) => x.productiveHours == c
  }

  lemma SumSelected(xs: seq<ShiftInstance>, filter: Option<ShiftType>, c: real)
    requires forall i :: 0 <= i < |xs| ==> xs[i].productiveHours == c
    ensures Seqs.Sum(Seqs.Filter(xs, SelectedBy(filter)), ProductiveHours) == Seqs.Scale(c, Seqs.Count(xs, SelectedBy(filter)))
  {
    Seqs.FilterKeeps(xs, SelectedBy(filter), HasHours(c));
    SumOfHours(Seqs.Filter(xs, SelectedBy(filter)), c);
  }

  lemma SumOfHours(xs: seq<ShiftInstance>, c: real)
    requires forall i :: 0 <= i < |xs| ==> HasHours(c)(xs[i])
    ensures Seqs.Sum(xs, ProductiveHours) == Seqs.Scale(c, |xs|)
  {
    Seqs.SumConstant(xs, ProductiveHours, c);
  }

  /** Productive hours of the shifts of `xs` that pass the type filter. */
  function HoursOf(xs: seq<ShiftInstance>, filter: Option<ShiftType>): real
  {
    Seqs.Sum(Seqs.Filter(xs, SelectedBy(filter)), ProductiveHours)
  }

  /** `calculate_total_hours`: productive hours summed over the (type-filtered)
      shifts of the range, i.e. the weekly hours per shift once per selected
      shift. */
  function TotalHours(s: ShiftSchedule, start: int, end: int, filter: Option<ShiftType>): (h: real)
    ensures h == Seqs.Scale(s.weekly.productiveHoursPerShift,
                            Seqs.Count(ShiftsForRange(s, start, end), SelectedBy(filter)))
  {
    var all := ShiftsForRange(s, start, end);
    SumSelected(all, filter, s.weekly.productiveHoursPerShift);
    HoursOf(all, filter)
  }

  /** Every shift is BASE or OVERLAY, so the two filtered totals add up to the
      unfiltered one. */
  lemma BasePlusOverlay(s: ShiftSchedule, start: int, end: int)
    ensures TotalHours(s, start, end, Some(Base)) + TotalHours(s, start, end, Some(Overlay))
         == TotalHours(s, start, end, None)
  {
    HoursSplit(ShiftsForRange(s, start, end));
  }

  lemma {:induction false} HoursSplit(xs: seq<ShiftInstance>)
    ensures HoursOf(xs, Some(Base)) + HoursOf(xs, Some(Overlay)) == HoursOf(xs, None)
  {
    if |xs| > 0 {
      HoursSplit(xs[1..]);
      var rest := xs[1..];
      var x := xs[0];
      assert Seqs.Filter(xs, SelectedBy(None)) == [x] + Seqs.Filter(rest, SelectedBy(None));
      assert ([x] + Seqs.Filter(rest, SelectedBy(None)))[1..] == Seqs.Filter(rest, SelectedBy(None));
      if x.shiftType == Base {
        assert Seqs.Filter(xs, SelectedBy(Some(Base))) == [x] + Seqs.Filter(rest, SelectedBy(Some(Base)));
        assert ([x] + Seqs.Filter(rest, SelectedBy(Some(Base))))[1..] == Seqs.Filter(rest, SelectedBy(Some(Base)));
        assert Seqs.Filter(xs, SelectedBy(Some(Overlay))) == Seqs.Filter(rest, SelectedBy(Some(Overlay)));
      } else {
        assert Seqs.Filter(xs, SelectedBy(Some(Overlay))) == [x] + Seqs.Filter(rest, SelectedBy(Some(Overlay)));
        assert ([x] + Seqs.Filter(rest, SelectedBy(Some(Overlay))))[1..] == Seqs.Filter(rest, SelectedBy(Some(Overlay)));
        assert Seqs.Filter(xs, SelectedBy(Some(Base))) == Seqs.Filter(rest, SelectedBy(Some(Base)));
      }
    }
  }

  /** A schedule with two Monday shifts and one Tuesday shift, 7 productive
      hours each, totals 21 hours over the week of Monday 2024-10-14
      (day 20010). */
  lemma WeekExample()
    ensures var s1 := ShiftConfig("S1", 360, 840, Base);
      var s2 := ShiftConfig("S2", 840, 1320, Base);
      var weekly := WeeklySchedule("Europe/Warsaw", 7.0, [s1, s2], [s1], [], [], [], [], []);
      TotalHours(ShiftSchedule(weekly, []), 20010, 20016, None) == 21.0
  {
    var s1 := ShiftConfig("S1", 360, 840, Base);
    var s2 := ShiftConfig("S2", 840, 1320, Base);
    var weekly := WeeklySchedule("Europe/Warsaw", 7.0, [s1, s2], [s1], [], [], [], [], []);
    var s := ShiftSchedule(weekly, []);
    assert Weekday(20010) == 0;
    assert |ShiftsForDate(s, 20010)| == 2;
    assert |ShiftsForDate(s, 20011)| == 1;
    assert |ShiftsForDate(s, 20012)| == 0;
    assert |ShiftsForDate(s, 20013)| == 0;
    assert |ShiftsForDate(s, 20014)| == 0;
    assert |ShiftsForDate(s, 20015)| == 0;
    assert |ShiftsForDate(s, 20016)| == 0;
    var r := ShiftsForRange(s, 20010, 20016);
    assert |r| == 3;
    Seqs.CountAll(r, SelectedBy(None));
  }

  /** A range overlay naming only "Mon" adds its shift to a Monday inside the
      range, after the base shifts, as an OVERLAY shift; a Tuesday gets nothing. */
  lemma OverlayExample()
    ensures var s1 := ShiftConfig("S1", 360, 840, Base);
      var s2 := ShiftConfig("S2", 840, 1320, Base);
      var weekly := WeeklySchedule("Europe/Warsaw", 7.0, [s1, s2], [s1], [], [], [], [], []);
      var ot := OverlaySpec("OT", 1380, 180, None);
      var e := ShiftException(RangeOverlay(20010, 20016), None, Some(map["Mon" := [ot]]));
      var r := ShiftsForDate(ShiftSchedule(weekly, [e]), 20010);
      |r| == 3 && r[2].shiftType == Overlay && r[2].name == "OT"
      && |ShiftsForDate(ShiftSchedule(weekly, [e]), 20011)| == 1
  {
    var s1 := ShiftConfig("S1", 360, 840, Base);
    var s2 := ShiftConfig("S2", 840, 1320, Base);
    var weekly := WeeklySchedule("Europe/Warsaw", 7.0, [s1, s2], [s1], [], [], [], [], []);
    var ot := OverlaySpec("OT", 1380, 180, None);
    var e := ShiftException(RangeOverlay(20010, 20016), None, Some(map["Mon" := [ot]]));
    assert Weekday(20010) == 0;
    assert Weekday(20011) == 1;
    assert ExceptionShifts(e, 0) == [ot];
    assert ExceptionShifts(e, 1) == [];
    var o := OverlayInstances([e], 20010, 7.0);
    assert o == [OverlayInstance(20010, ot, 7.0)] + OverlayInstances([], 20010, 7.0);
    assert OverlayInstances([e], 20011, 7.0) == [];
  }
}
