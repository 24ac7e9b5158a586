/** The performance record as the views receive it from `GET /performances`,
    and the few ways they read one. */
module Events {
  import opened Collections
  import opened CivilCalendar

  /** The `date` field: null, a calendar date, or text `Date` cannot parse. */
  datatype DateField = NoDate | OnDate(d: CivilDate) | BadDate

  /** One performance. A text field that is null, undefined or '' is "" here.
      For the optional fields (city, venue, notes, poster) the views only test
      truthiness or substitute a default, so the three agree. The artist, type
      and province are never missing in rows the handlers store, which reject
      such a request with 400; the views call `province.replace` and key
      objects by `artist`, which a null would break or spell "null". */
  datatype Event = Event(
    artist: string,
    kind: string,      // the `type` column
    province: string,
    city: string,
    venue: string,
    notes: string,
    date: DateField,
    poster: string)

  /** `new Date(perf.date)`, as a calendar day: `new Date(null)` is the epoch,
      1970-01-01; text that is not a real date gives an invalid `Date` (None). */
  function ParsedDate(f: DateField): (r: Option<CivilDate>)
    ensures r.Some? ==> ValidDate(r.value)
    ensures f.NoDate? ==> r == Some(CivilDate(1970, 1, 1))
    ensures f.OnDate? ==> (r == Some(f.d) <==> ValidDate(f.d))
    ensures f.BadDate? ==> r.None?
  {
    match f
    case NoDate => Some(CivilDate(1970, 1, 1))
    case OnDate(d) => if ValidDate(d) then Some(d) else None
    case BadDate => None
  }

  /** `new Date(perf.date).toLocaleDateString('zh-CN', { month: 'long' })`. */
  function MonthLabel(e: Event): (text: string)
    ensures text == InvalidDateLabel <==> ParsedDate(e.date).None?
    ensures ParsedDate(e.date).Some? ==> text == MonthLabels[ParsedDate(e.date).value.month - 1]
  {
    match ParsedDate(e.date)
    case Some(d) => MonthLabels[d.month - 1]
    case None => InvalidDateLabel
  }

  function ArtistOf(e: Event): string { e.artist }

  function KindOf(e: Event): string { e.kind }

  function VenueOf(e: Event): string { e.venue }

  /** `new Date(perf.date).toDateString() === day.toDateString()` for a cell
      whose date is the valid day with day number `day`: an invalid `Date`
      prints "Invalid Date" and matches no cell. */
  predicate FallsOn(e: Event, day: int)
  {
    ParsedDate(e.date).Some? && DayNumber(ParsedDate(e.date).value) == day
  }

  /** `performances.filter(...)` by calendar day, in list order. */
  function EventsOn(performances: seq<Event>, day: int): (r: seq<Event>)
    ensures |r| <= |performances|
    ensures forall e :: e in r <==> e in performances && FallsOn(e, day)
  {
    Filter(performances, e => FallsOn(e, day))
  }

  /** The chips a day cell shows: the first `limit` labels, and the count of
      the rest ("+N 场演出"), which is shown only when it is not 0. */
  datatype ChipRow = ChipRow(labels: seq<string>, more: nat)

  function Labels(es: seq<Event>, name: Event -> string): (r: seq<string>)
    ensures |r| == |es|
    ensures forall i :: 0 <= i < |es| ==> r[i] == name(es[i])
  {
    if es == [] then [] else [name(es[0])] + Labels(es[1..], name)
  }

  /** `datePerformances.slice(0, limit).map(...)` and, when the day has more,
      `+{datePerformances.length - limit}`. */
  function Chips(es: seq<Event>, limit: nat, name: Event -> string): (c: ChipRow)
    ensures |c.labels| == (if |es| < limit then |es| else limit)
    ensures forall i :: 0 <= i < |c.labels| ==> c.labels[i] == name(es[i])
    ensures c.more > 0 <==> |es| > limit
    ensures |c.labels| + c.more == |es|
  {
    ChipRow(Labels(Take(es, limit), name), if |es| > limit then |es| - limit else 0)
  }
}
