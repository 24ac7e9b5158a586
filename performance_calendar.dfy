/** The month calendar: a grid of day cells for the month on show, the
    performances of a day, the month buttons and a click on a day. Dates are
    day numbers; the cell's `Date` object is the day it names. */
module PerformanceCalendar {
  import opened Collections
  import opened CivilCalendar
  import opened Events

  /** One button of the grid. */
  datatype Cell = Cell(day: int, isCurrentMonth: bool)

  /** The number of cells: five rows, or more when the month does not fit. */
  function GridLength(weekday: int, days: int): int
  {
    if weekday + days > 35 then weekday + days else 35
  }

  /** A month needs a sixth row exactly when it has 31 days and starts on a
      Friday or Saturday, or has 30 days and starts on a Saturday. */
  lemma SixthRow(y: int, m: int)
    requires 1 <= m <= 12
    ensures var w := Weekday(DayNumber(CivilDate(y, m, 1)));
            var n := DaysInMonth(y, m);
            GridLength(w, n) > 35 <==> (n == 31 && w >= 5) || (n == 30 && w == 6)
    ensures GridLength(Weekday(DayNumber(CivilDate(y, m, 1))), DaysInMonth(y, m)) <= 37
  {
  }

  /** `getPerformancesByDate`: nothing for a missing date, otherwise the
      performances on that day. */
  function PerformancesByDate(performances: seq<Event>, date: Option<int>): (r: seq<Event>)
    ensures date.None? ==> r == []
    ensures date.Some? ==> forall e :: e in r <==> e in performances && FallsOn(e, date.value)
  {
    match date
    case None => []
    case Some(day) => EventsOn(performances, day)
  }

  /** The venue chips of a cell: at most two, then "+N 场演出". */
  function CellChips(dayEvents: seq<Event>): (c: ChipRow)
    ensures |c.labels| <= 2
    ensures c.more > 0 <==> |dayEvents| > 2
    ensures |c.labels| + c.more == |dayEvents|
    ensures forall i :: 0 <= i < |c.labels| ==> c.labels[i] == dayEvents[i].venue
  {
    Chips(dayEvents, 2, VenueOf)
  }

  class CalendarView {
    var performances: seq<Event>
    /** The day whose month is on show (`currentDate`). */
    var currentDate: CivilDate
    var selectedCell: Option<int>
    var showModal: bool
    var selectedPerformances: seq<Event>
    /** The dates passed to `onDateSelect`, oldest first. */
    var notified: seq<int>

    ghost predicate Valid()
      reads this
    {
      ValidDate(currentDate)
    }

    /** The view opens on today's month with nothing selected. */
    constructor (performances: seq<Event>, today: CivilDate)
      requires ValidDate(today)
      ensures Valid()
      ensures this.performances == performances && currentDate == today
      ensures selectedCell.None? && !showModal && selectedPerformances == [] && notified == []
    {
      this.performances := performances;
      currentDate := today;
      selectedCell := None;
      showModal := false;
      selectedPerformances := [];
      notified := [];
    }

    /** `generateCalendarDays`: the days before the first that complete its
        week, the days of the month, then following days up to 35 cells. */
    method GenerateCalendarDays() returns (days: seq<Cell>)
      requires Valid()
      ensures var first := DayNumber(CivilDate(currentDate.year, currentDate.month, 1));
              var w := Weekday(first);
              var n := DaysInMonth(currentDate.year, currentDate.month);
              && |days| == GridLength(w, n)
              && (forall k :: 0 <= k < |days| ==> days[k].day == first - w + k)
              && (forall k :: 0 <= k < |days| ==> (days[k].isCurrentMonth <==> w <= k < w + n))
              && (forall d :: 1 <= d <= n ==> days[w + d - 1].day == DayNumber(CivilDate(currentDate.year, currentDate.month, d)))
    {
      var y, m := currentDate.year, currentDate.month;
      var first := DayNumber(CivilDate(y, m, 1));
      var w := Weekday(first);
      var n := DaysInMonth(y, m);
      var last := DayNumber(CivilDate(y, m, n));
      days := [];
      var i := 0;
      while i < w
        invariant 0 <= i <= w
        invariant |days| == i
        invariant forall k :: 0 <= k < |days| ==> days[k] == Cell(first - w + k, false)
      {
        days := days + [Cell(first - (w - i), false)];
        i := i + 1;
      }
      i := 1;
      while i <= n
        invariant 1 <= i <= n + 1
        invariant |days| == w + i - 1
        invariant forall k :: 0 <= k < w ==> days[k] == Cell(first - w + k, false)
        invariant forall k :: w <= k < |days| ==> days[k] == Cell(first - w + k, true)
      {
        days := days + [Cell(DayNumber(CivilDate(y, m, i)), true)];
        i := i + 1;
      }
      var remaining := 35 - |days|;
      i := 1;
      while i <= remaining
        invariant remaining <= 0 ==> i == 1
        invariant remaining > 0 ==> 1 <= i <= remaining + 1
        invariant |days| == w + n + i - 1
        invariant forall k :: 0 <= k < w + n ==> days[k].day == first - w + k
        invariant forall k :: 0 <= k < w + n ==> (days[k].isCurrentMonth <==> w <= k)
        invariant forall k :: w + n <= k < |days| ==> days[k] == Cell(first - w + k, false)
      {
        days := days + [Cell(last + i, false)];
        i := i + 1;
      }
    }

    /** `handleMonthChange`: the month on show moves back or on by one and
        the selection is cleared. The day of the month is clamped to the new
        month; see `AddMonthsAsWrittenSkips` for what `setMonth` does instead. */
    method MonthChange(prev: bool)
      requires Valid()
      modifies this
      ensures Valid()
      ensures MonthIndex(currentDate.year, currentDate.month)
              == MonthIndex(old(currentDate.year), old(currentDate.month)) + (if prev then -1 else 1)
      ensures currentDate == AddMonthsClamped(old(currentDate), if prev then -1 else 1)
      ensures selectedCell.None?
      ensures performances == old(performances) && showModal == old(showModal)
      ensures selectedPerformances == old(selectedPerformances) && notified == old(notified)
    {
      currentDate := AddMonthsClamped(currentDate, if prev then -1 else 1);
      selectedCell := None;
    }

    /** `handleDateClick`: the day is selected and reported; the list opens
        only when the day has performances, and otherwise nothing else changes. */
    method DateClick(day: int)
      modifies this
      ensures selectedCell == Some(day)
      ensures notified == old(notified) + [day]
      ensures showModal == (old(showModal) || PerformancesByDate(performances, Some(day)) != [])
      ensures selectedPerformances ==
              (if PerformancesByDate(performances, Some(day)) != [] then PerformancesByDate(performances, Some(day))
               else old(selectedPerformances))
      ensures performances == old(performances) && currentDate == old(currentDate)
    {
      var dayEvents := PerformancesByDate(performances, Some(day));
      if |dayEvents| > 0 {
        selectedPerformances := dayEvents;
        showModal := true;
      }
      selectedCell := Some(day);
      notified := notified + [day];
    }

    /** The backdrop and the close button hide the list. */
    method CloseModal()
      modifies this
      ensures !showModal
      ensures selectedCell == old(selectedCell) && selectedPerformances == old(selectedPerformances)
      ensures performances == old(performances) && currentDate == old(currentDate) && notified == old(notified)
    {
      showModal := false;
    }
  }
}
