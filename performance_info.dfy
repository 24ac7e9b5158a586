/** The list of the events of one place: counts per type with type buttons
    that filter the list, the list grouped by artist, and a venue pop-up. */
module PerformanceInfo {
  import opened Collections
  import opened Events

  const OtherType := "其他"
  const UnknownArtist := "未知艺人"

  /** What the component renders: the placeholder, or the type buttons with
      their counts and the filtered events grouped by artist. */
  datatype Panel = Placeholder | Listing(typeStats: Dict<nat>, byArtist: Dict<seq<Event>>)

  /** `performance.type || '其他'`. */
  function TypeKey(e: Event): (t: string)
    ensures t != ""
    ensures e.kind != "" ==> t == e.kind
  {
    if e.kind == "" then OtherType else e.kind
  }

  /** `performance.artist || '未知艺人'`. */
  function ArtistKey(e: Event): (a: string)
    ensures a != ""
    ensures e.artist != "" ==> a == e.artist
  {
    if e.artist == "" then UnknownArtist else e.artist
  }

  /** `performanceStats`: the number of events of each type. */
  function TypeStats(performances: seq<Event>): Dict<nat>
  {
    Tally(performances, TypeKey)
  }

  /** `filteredPerformances`: every event while no type is selected (the
      selection is tested for truthiness), else the events whose `type` is the
      selection itself. */
  function TypeFilter(performances: seq<Event>, selectedType: Option<string>): (r: seq<Event>)
    ensures selectedType.None? || selectedType == Some("") ==> r == performances
    ensures selectedType.Some? && selectedType.value != "" ==>
              forall e :: e in r <==> e in performances && e.kind == selectedType.value
  {
    if selectedType.None? || selectedType.value == "" then performances
    else Having(performances, KindOf, selectedType.value)
  }

  /** `performancesByArtist`. */
  function GroupByArtist(performances: seq<Event>): Dict<seq<Event>>
  {
    GroupBy(performances, ArtistKey)
  }

  /** The component for `performances` (None when the prop is absent) and the
      selected type. */
  function Render(performances: Option<seq<Event>>, selectedType: Option<string>): (p: Panel)
    ensures p.Placeholder? <==> performances.None? || |performances.value| == 0
    ensures p.Listing? ==> ValidDict(p.typeStats) && SumCounts(Entries(p.typeStats)) == |performances.value|
    ensures p.Listing? ==> forall k :: k in p.byArtist.values ==>
              p.byArtist.values[k] == Having(TypeFilter(performances.value, selectedType), ArtistKey, k)
  {
    if performances.None? || |performances.value| == 0 then Placeholder
    else
      var events := performances.value;
      TypeStatsCounts(events);
      GroupByShape(TypeFilter(events, selectedType), ArtistKey);
      Listing(TypeStats(events), GroupByArtist(TypeFilter(events, selectedType)))
  }

  /** Every type button shows the number of events of its type, no button is
      labelled with the empty type, and the counts add up to the list length. */
  lemma TypeStatsCounts(performances: seq<Event>)
    ensures var s := TypeStats(performances);
            && ValidDict(s)
            && "" !in s.values
            && (forall k :: k in s.values ==> s.values[k] == |Having(performances, TypeKey, k)| > 0)
            && SumCounts(Entries(s)) == |performances|
  {
    var s := TypeStats(performances);
    TallyTotal(performances, TypeKey);
    EntriesTotal(s);
    NoEmptyType(performances);
  }

  lemma {:induction false} NoEmptyType(performances: seq<Event>)
    ensures Having(performances, TypeKey, "") == []
  {
    if |performances| > 0 {
      NoEmptyType(performances[..|performances| - 1]);
    }
  }

  /** The 其他 button counts the untyped events as well as those typed 其他,
      but selecting it lists only the latter. */
  lemma {:induction false} OtherCountsUntyped(performances: seq<Event>)
    ensures |Having(performances, TypeKey, OtherType)|
         == |TypeFilter(performances, Some(OtherType))| + |Having(performances, KindOf, "")|
  {
    if |performances| > 0 {
      var s0 := performances[..|performances| - 1];
      OtherCountsUntyped(s0);
    }
  }

  /** Clicking a type button: the selected type again clears the selection,
      any other type selects it. */
  function ToggleType(selectedType: Option<string>, clicked: string): (r: Option<string>)
    ensures r.None? <==> selectedType == Some(clicked)
    ensures r.Some? ==> r.value == clicked
  {
    if selectedType == Some(clicked) then None else Some(clicked)
  }

  /** Clicking the same button twice from no selection comes back to no
      selection, and in between lists exactly the events of that type. */
  lemma ToggleTwice(performances: seq<Event>, clicked: string)
    requires clicked != ""
    ensures ToggleType(ToggleType(None, clicked), clicked).None?
    ensures forall e :: e in TypeFilter(performances, ToggleType(None, clicked)) <==>
              e in performances && e.kind == clicked
  {
  }

  /** Grouping by artist places each listed event in exactly the group of its
      artist (untyped artists under 未知艺人), in order, and the group sizes add
      up to the number of listed events. */
  lemma ArtistGroupsPartition(performances: seq<Event>)
    ensures var g := GroupByArtist(performances);
            && ValidDict(g)
            && (forall k :: k in g.values ==> g.values[k] == Having(performances, ArtistKey, k) && |g.values[k]| > 0)
            && (forall e :: e in performances ==> ArtistKey(e) in g.values && e in g.values[ArtistKey(e)])
            && Total(g.keys, map k | k in g.values :: |g.values[k]|) == |performances|
  {
    GroupByShape(performances, ArtistKey);
    GroupSizesTotal(performances, ArtistKey);
    forall e | e in performances
      ensures ArtistKey(e) in GroupByArtist(performances).values
      ensures e in GroupByArtist(performances).values[ArtistKey(e)]
    {
      var i :| 0 <= i < |performances| && performances[i] == e;
      assert KeySeq(performances, ArtistKey)[i] == ArtistKey(e);
    }
  }

  /** The venue pop-up: its name and the events of the list at that venue. */
  datatype VenueSelection = VenueSelection(name: string, performances: seq<Event>)

  /** `handleVenueClick(venue)`. */
  function VenueClick(performances: seq<Event>, venue: string): (v: VenueSelection)
    ensures v.name == venue
    ensures forall e :: e in v.performances <==> e in performances && e.venue == venue
    ensures |v.performances| <= |performances|
  {
    VenueSelection(venue, Having(performances, VenueOf, venue))
  }
}
