/** The horizontal timeline: 120 day cards from one month before today, a
    month label where a month begins, the venue chips of each day, the scroll
    arrows and the jump back to today. */
module PerformanceTimeline {
  import opened Collections
  import opened CivilCalendar
  import opened Events

  /** Number of day cards. */
  const DayCount: nat := 120

  /** Width of a card plus the gap after it, in pixels. */
  const DayWidth: int := 102

  /** How far one arrow click scrolls, in pixels. */
  const ScrollStep: int := 200

  /** The chip of an event without a venue. */
  const UnknownVenue: string := "未知场馆"

  /** `startDate.setMonth(today.getMonth() - 1)`, day overflow included. */
  function TimelineStart(today: CivilDate): (s: CivilDate)
    requires ValidDate(today)
    ensures ValidDate(s)
  {
    AddMonthsAsWritten(today, -1)
  }

  /** `getDates`: the 120 days from the start on. The `centerDate` argument
      of the source is never read, so it is not a parameter here. */
  method GetDates(today: CivilDate) returns (dates: seq<CivilDate>)
    requires ValidDate(today)
    ensures |dates| == DayCount
    ensures forall i :: 0 <= i < |dates| ==> dates[i] == AddDays(TimelineStart(today), i)
    ensures forall i :: 0 <= i < |dates| ==> ValidDate(dates[i]) && DayNumber(dates[i]) == DayNumber(TimelineStart(today)) + i
  {
    var start := TimelineStart(today);
    dates := [];
    var i := 0;
    while i < DayCount
      invariant 0 <= i <= DayCount
      invariant |dates| == i
      invariant forall k :: 0 <= k < i ==> dates[k] == AddDays(start, k)
    {
      dates := dates + [AddDays(start, i)];
      i := i + 1;
    }
  }

  /** The shape `GetDates` promises. */
  ghost predicate IsStrip(dates: seq<CivilDate>, today: CivilDate)
    requires ValidDate(today)
  {
    |dates| == DayCount && forall i :: 0 <= i < |dates| ==> dates[i] == AddDays(TimelineStart(today), i)
  }

  /** Today lies as many days after the start as the previous month has,
      whatever day of the month today is. */
  lemma TodayAfterStart(today: CivilDate)
    requires ValidDate(today)
    ensures var (py, pm) := ShiftMonth(today.year, today.month, -1);
            DayNumber(today) == DayNumber(TimelineStart(today)) + DaysInMonth(py, pm)
  {
    var (py, pm) := ShiftMonth(today.year, today.month, -1);
    AddMonthsAsWrittenDay(today, -1);
    NextMonthStart(py, pm);
    var (ny, nm) := ShiftMonth(py, pm, 1);
    MonthIndexInjective(ny, nm, today.year, today.month);
  }

  /** `dates.findIndex(date => date.toDateString() === d.toDateString())`. */
  function FindDate(dates: seq<CivilDate>, d: CivilDate): (i: int)
    ensures -1 <= i < |dates|
    ensures i == -1 <==> d !in dates
    ensures i >= 0 ==> dates[i] == d && forall j :: 0 <= j < i ==> dates[j] != d
  {
    if dates == [] then -1
    else if dates[0] == d then 0
    else
      var k := FindDate(dates[1..], d);
      if k == -1 then -1 else k + 1
  }

  /** `scrollToToday`: the offset of today's card. */
  function TodayOffset(dates: seq<CivilDate>, today: CivilDate): int
  {
    FindDate(dates, today) * DayWidth
  }

  /** Today is always on the strip, at the index that equals the length of
      the previous month (28 to 31), so the jump never goes to -102. */
  lemma {:induction false} TodayOnStrip(dates: seq<CivilDate>, today: CivilDate)
    requires ValidDate(today)
    requires IsStrip(dates, today)
    ensures var (py, pm) := ShiftMonth(today.year, today.month, -1);
            && FindDate(dates, today) == DaysInMonth(py, pm)
            && TodayOffset(dates, today) == DaysInMonth(py, pm) * DayWidth
            && 28 * DayWidth <= TodayOffset(dates, today) <= 31 * DayWidth
  {
    var (py, pm) := ShiftMonth(today.year, today.month, -1);
    var n := DaysInMonth(py, pm);
    TodayAfterStart(today);
    assert DayNumber(dates[n]) == DayNumber(today);
    DayNumberInjective(dates[n], today);
  }

  /** A card shows its month label on the 1st and on the first card. */
  predicate ShowMonth(date: CivilDate, index: int)
  {
    date.day == 1 || index == 0
  }

  /** Along the strip the label appears exactly where the month changes. */
  lemma MonthLabelWhereMonthChanges(dates: seq<CivilDate>, today: CivilDate, i: int)
    requires ValidDate(today)
    requires IsStrip(dates, today)
    requires 0 < i < |dates|
    ensures ShowMonth(dates[i], i) <==> dates[i].month != dates[i - 1].month
  {
    var start := TimelineStart(today);
    assert dates[i] == NextDay(AddDays(start, i - 1));
  }

  /** `getPerformancesByDate` of a card: the performances on its day. */
  function CardPerformances(performances: seq<Event>, date: CivilDate): (r: seq<Event>)
    requires ValidDate(date)
    ensures forall e :: e in r <==> e in performances && FallsOn(e, DayNumber(date))
  {
    EventsOn(performances, DayNumber(date))
  }

  /** `perf.venue || '未知场馆'`. */
  function VenueLabel(e: Event): (l: string)
    ensures l != ""
    ensures e.venue != "" ==> l == e.venue
  {
    if e.venue != "" then e.venue else UnknownVenue
  }

  /** The chips of a card: at most three venue labels, then "+N 场演出". */
  function CardChips(dayEvents: seq<Event>): (c: ChipRow)
    ensures |c.labels| <= 3
    ensures c.more > 0 <==> |dayEvents| > 3
    ensures |c.labels| + c.more == |dayEvents|
    ensures forall i :: 0 <= i < |c.labels| ==> c.labels[i] != "" && c.labels[i] == VenueLabel(dayEvents[i])
  {
    Chips(dayEvents, 3, VenueLabel)
  }

  /** `handleScroll`: the left arrow scrolls back by 200 pixels, the right one on. */
  function ScrollAmount(left: bool): (a: int)
    ensures a < 0 <==> left
    ensures a == ScrollStep || a == -ScrollStep
  {
    if left then -ScrollStep else ScrollStep
  }

  /** The arrow flags for a scroll position: the left arrow shows when the
      strip is scrolled at all, the right one while more than 10 pixels are left. */
  function ArrowFlags(scrollLeft: real, scrollWidth: real, clientWidth: real): (flags: (bool, bool))
  {
    (scrollLeft > 0.0, scrollLeft < scrollWidth - clientWidth - 10.0)
  }

  /** While the strip can scroll by more than 10 pixels, some arrow always
      shows; at either end the arrow pointing past it is hidden; with less to
      scroll than that, the right arrow never shows. */
  lemma ArrowsAtEnds(scrollLeft: real, scrollWidth: real, clientWidth: real)
    requires 0.0 <= scrollLeft <= scrollWidth - clientWidth
    ensures var (left, right) := ArrowFlags(scrollLeft, scrollWidth, clientWidth);
            && (scrollWidth - clientWidth > 10.0 ==> left || right)
            && (scrollLeft == 0.0 ==> !left)
            && (scrollLeft == scrollWidth - clientWidth ==> !right)
            && (scrollWidth - clientWidth <= 10.0 ==> !right)
  {
  }

  /** The arrow flags of the strip. */
  class TimelineView {
    var showLeftArrow: bool
    var showRightArrow: bool

    /** Before the first scroll event only the right arrow shows. */
    constructor ()
      ensures !showLeftArrow && showRightArrow
    {
      showLeftArrow := false;
      showRightArrow := true;
    }

    /** `handleScrollPosition`: both flags follow the scroll position. */
    method ScrollPosition(scrollLeft: real, scrollWidth: real, clientWidth: real)
      modifies this
      ensures (showLeftArrow, showRightArrow) == ArrowFlags(scrollLeft, scrollWidth, clientWidth)
      ensures showLeftArrow <==> scrollLeft > 0.0
      ensures showRightArrow <==> scrollLeft < scrollWidth - clientWidth - 10.0
    {
      showLeftArrow := scrollLeft > 0.0;
      showRightArrow := scrollLeft < scrollWidth - clientWidth - 10.0;
    }
  }
}
