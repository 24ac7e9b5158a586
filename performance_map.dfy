/** The interactive map page: the events bucketed by province key, the
    province and artist selections, the list of one artist's performances, and
    the fill colour of each province. The geometry is in MapGeometry. */
module PerformanceMap {
  import opened Collections
  import opened Events
  import opened ProvinceName

  /** `if (!performance.province) return;` */
  predicate HasProvince(e: Event)
  {
    e.province != ""
  }

  /** The bucket key of an event: its province stripped and trimmed. */
  function ProvinceKey(e: Event): string
  {
    MapKey(e.province)
  }

  /** `hasArtistPerformance(provinceName)`: false when no artist is selected
      (null or ''), false (undefined) when the province has no bucket, else
      whether some event of the bucket is by the selected artist. */
  function HasArtistPerformance(data: Dict<seq<Event>>, selectedArtist: Option<string>, name: string): (r: bool)
    ensures r <==> selectedArtist.Some? && selectedArtist.value != "" && name in data.values
                   && exists e :: e in data.values[name] && e.artist == selectedArtist.value
  {
    if selectedArtist.None? || selectedArtist.value == "" then false
    else if name !in data.values then false
    else exists e :: e in data.values[name] && e.artist == selectedArtist.value
  }

  /** `!!performanceData[provinceName]?.length` */
  function HasPerformances(data: Dict<seq<Event>>, name: string): (r: bool)
    ensures r <==> name in data.values && data.values[name] != []
  {
    name in data.values && |data.values[name]| > 0
  }

  /** The events of one artist across the buckets, bucket by bucket in key
      order and in order within a bucket. */
  function ArtistAcross(keys: seq<string>, values: map<string, seq<Event>>, artist: string): seq<Event>
    requires forall k :: k in keys ==> k in values
  {
    if |keys| == 0 then []
    else ArtistAcross(keys[..|keys| - 1], values, artist) + Having(values[keys[|keys| - 1]], ArtistOf, artist)
  }

  /** Collecting over one more key appends that bucket's events by the artist. */
  lemma ArtistAcrossSnoc(keys: seq<string>, k: string, values: map<string, seq<Event>>, artist: string)
    requires forall q :: q in keys ==> q in values
    requires k in values
    ensures ArtistAcross(keys + [k], values, artist) == ArtistAcross(keys, values, artist) + Having(values[k], ArtistOf, artist)
  {
    assert (keys + [k])[..|keys|] == keys;
  }

  /** An event is collected exactly when it is by the artist and lies in one of the buckets. */
  lemma {:induction false} ArtistAcrossMembers(keys: seq<string>, values: map<string, seq<Event>>, artist: string)
    requires forall k :: k in keys ==> k in values
    ensures forall e :: e in ArtistAcross(keys, values, artist) <==>
              e.artist == artist && exists k :: k in keys && e in values[k]
  {
    if |keys| > 0 {
      var ks := keys[..|keys| - 1];
      var last := keys[|keys| - 1];
      ArtistAcrossMembers(ks, values, artist);
      assert forall k :: k in keys <==> k in ks || k == last by {
        assert keys == ks + [last];
      }
      forall e: Event | e.artist == artist && exists k :: k in keys && e in values[k]
        ensures e in ArtistAcross(keys, values, artist)
      {
        var k :| k in keys && e in values[k];
        if k != last {
          assert k in ks;
        }
      }
    }
  }

  /** The buckets after loading: events without a province are skipped; each
      other event is in the bucket of its key and in no other, and a bucket
      holds its events in input order. */
  lemma BucketsPartition(events: seq<Event>)
    ensures var g := Buckets(events);
            && ValidDict(g)
            && (forall k :: k in g.values ==> g.values[k] == Having(Filter(events, HasProvince), ProvinceKey, k))
            && (forall k, e :: k in g.values && e in g.values[k] ==> e in events && HasProvince(e) && ProvinceKey(e) == k)
            && (forall e :: e in events && HasProvince(e) ==> ProvinceKey(e) in g.values && e in g.values[ProvinceKey(e)])
  {
    var s := Filter(events, HasProvince);
    BucketsAreGroups(events);
    GroupByShape(s, ProvinceKey);
    var g := GroupBy(s, ProvinceKey);
    forall e | e in events && HasProvince(e)
      ensures ProvinceKey(e) in g.values && e in g.values[ProvinceKey(e)]
    {
      var i :| 0 <= i < |events| && events[i] == e;
      assert e in s;
      var j :| 0 <= j < |s| && s[j] == e;
      assert KeySeq(s, ProvinceKey)[j] == ProvinceKey(e);
    }
  }

  /** The same event list seen from the artist side: after loading, an
      artist click collects exactly that artist's events with a province. */
  lemma ArtistClickFindsAll(events: seq<Event>, artist: string)
    ensures var g := Buckets(events);
            ValidDict(g) &&
            forall e :: e in ArtistAcross(g.keys, g.values, artist) <==>
              e in events && HasProvince(e) && e.artist == artist
  {
    BucketsPartition(events);
    var g := Buckets(events);
    ArtistAcrossMembers(g.keys, g.values, artist);
  }

  const Red := "#ef4444"
  const Gray := "#4B5563"
  const Dark := "#1F2937"

  /** The `fill` of a province path: red when the selected artist plays there
      or the province is selected, grey when it has events, dark otherwise. */
  function Fill(hasArtistShow: bool, isSelected: bool, hasPerformances: bool): (c: string)
    ensures c == Red <==> hasArtistShow || isSelected
    ensures c == Gray <==> !hasArtistShow && !isSelected && hasPerformances
    ensures c == Dark <==> !hasArtistShow && !isSelected && !hasPerformances
  {
    if hasArtistShow then Red else if isSelected then Red else if hasPerformances then Gray else Dark
  }

  /** `performances.reduce(...)` keyed by `performance.venue || '未设置场馆'`. */
  function VenueKey(e: Event): string
  {
    if e.venue == "" then "未设置场馆" else e.venue
  }

  /** `groupPerformancesByVenue(performances)`. */
  function GroupByVenue(performances: seq<Event>): Dict<seq<Event>>
  {
    GroupBy(performances, VenueKey)
  }

  /** Grouping by venue loses and duplicates nothing: a venue-less event sits
      under 未设置场馆, every group holds the events of its venue in order, and
      the group sizes add up to the number of events. */
  lemma VenueGroupsPartition(performances: seq<Event>)
    ensures var g := GroupByVenue(performances);
            && ValidDict(g)
            && (forall k :: k in g.values ==> g.values[k] == Having(performances, VenueKey, k))
            && (forall e :: e in performances && e.venue == "" ==> "未设置场馆" in g.values && e in g.values["未设置场馆"])
            && Total(g.keys, map k | k in g.values :: |g.values[k]|) == |performances|
  {
    GroupByShape(performances, VenueKey);
    GroupSizesTotal(performances, VenueKey);
    forall e | e in performances && e.venue == ""
      ensures "未设置场馆" in GroupByVenue(performances).values && e in GroupByVenue(performances).values["未设置场馆"]
    {
      VenueDefault(performances, e);
    }
  }

  lemma VenueDefault(performances: seq<Event>, e: Event)
    requires e in performances && e.venue == ""
    ensures "未设置场馆" in GroupByVenue(performances).values && e in GroupByVenue(performances).values["未设置场馆"]
  {
    GroupByShape(performances, VenueKey);
    var i :| 0 <= i < |performances| && performances[i] == e;
    assert KeySeq(performances, VenueKey)[i] == "未设置场馆";
  }

  /** `dataByProvince` of `fetchData`: skip events without a province and
      append each other event to the bucket of its key, creating the bucket on
      first use. */
  method BucketByProvince(performances: seq<Event>) returns (d: Dict<seq<Event>>)
    ensures d == Buckets(performances)
  {
    var keys: seq<string> := [];
    var values: map<string, seq<Event>> := map[];
    var i := 0;
    while i < |performances|
      invariant 0 <= i <= |performances|
      invariant Dict(keys, values) == Buckets(performances[..i])
    {
      var e := performances[i];
      assert performances[..i + 1][..i] == performances[..i];
      if e.province != "" {
        keys, values := AddToBucket(keys, values, MapKey(e.province), e);
      }
      i := i + 1;
    }
    assert performances[..i] == performances;
    d := Dict(keys, values);
  }

  /** The buckets built one event at a time, as the loop does. */
  function Buckets(s: seq<Event>): Dict<seq<Event>>
  {
    if |s| == 0 then Dict([], map[])
    else if HasProvince(s[|s| - 1]) then Push(Buckets(s[..|s| - 1]), ProvinceKey(s[|s| - 1]), s[|s| - 1])
    else Buckets(s[..|s| - 1])
  }

  /** Bucketing is a group-by of the events that have a province. */
  lemma {:induction false} BucketsAreGroups(s: seq<Event>)
    ensures Buckets(s) == GroupBy(Filter(s, HasProvince), ProvinceKey)
  {
    if |s| > 0 {
      BucketsAreGroups(s[..|s| - 1]);
      GroupFilterStep(s, HasProvince, ProvinceKey, |s| - 1);
      assert s[..|s|] == s;
    }
  }

  /** `if (!dataByProvince[name]) dataByProvince[name] = []; dataByProvince[name].push(e)`. */
  method AddToBucket(keys: seq<string>, values: map<string, seq<Event>>, name: string, e: Event)
    returns (keys': seq<string>, values': map<string, seq<Event>>)
    ensures Dict(keys', values') == Push(Dict(keys, values), name, e)
  {
    keys', values' := keys, values;
    if name !in values' {
      keys' := keys' + [name];
      values' := values'[name := []];
    }
    values' := values'[name := values'[name] + [e]];
    assert [] + [e] == [e];
  }

  /** The inner `forEach` of `handleArtistClick`: push each event of one
      bucket that is by the artist onto `found`. */
  method PushByArtist(found: seq<Event>, bucket: seq<Event>, artist: string) returns (r: seq<Event>)
    ensures r == found + Having(bucket, ArtistOf, artist)
  {
    r := found;
    var j := 0;
    while j < |bucket|
      invariant 0 <= j <= |bucket|
      invariant r == found + Having(bucket[..j], ArtistOf, artist)
    {
      HavingPushStep(found, bucket, j, ArtistOf, artist);
      if bucket[j].artist == artist {
        r := r + [bucket[j]];
      }
      j := j + 1;
    }
    assert bucket[..j] == bucket;
  }

  /** The outer `forEach` of `handleArtistClick`: walk the buckets in key
      order, pushing each one's events of the artist. */
  method CollectArtist(keys: seq<string>, values: map<string, seq<Event>>, artist: string) returns (found: seq<Event>)
    requires forall k :: k in keys ==> k in values
    ensures found == ArtistAcross(keys, values, artist)
  {
    found := [];
    var i := 0;
    while i < |keys|
      invariant 0 <= i <= |keys|
      invariant found == ArtistAcross(keys[..i], values, artist)
    {
      found := PushByArtist(found, values[keys[i]], artist);
      assert keys[..i + 1] == keys[..i] + [keys[i]];
      ArtistAcrossSnoc(keys[..i], keys[i], values, artist);
      i := i + 1;
    }
    assert keys[..i] == keys;
  }

  /** The page state. `performanceData` keeps its keys in insertion order;
      a province is remembered by its feature name, as `selectedProvince.properties.name`. */
  class MapView {
    var performanceData: Dict<seq<Event>>
    var selectedProvince: Option<string>
    var provincePerformances: seq<Event>
    var selectedArtist: Option<string>
    var artistPerformances: seq<Event>
    var isFlipped: bool

    ghost predicate Valid()
      reads this
    {
      ValidDict(performanceData)
    }

    constructor ()
      ensures Valid()
      ensures performanceData == Dict([], map[]) && selectedProvince.None? && selectedArtist.None?
      ensures provincePerformances == [] && artistPerformances == [] && !isFlipped
    {
      performanceData := Dict([], map[]);
      selectedProvince := None;
      provincePerformances := [];
      selectedArtist := None;
      artistPerformances := [];
      isFlipped := false;
    }

    /** The bucketing step of `fetchData`: `setPerformanceData(dataByProvince)`. */
    method LoadEvents(performances: seq<Event>)
      modifies this`performanceData
      ensures performanceData == Buckets(performances)
      ensures Valid()
    {
      performanceData := BucketByProvince(performances);
      BucketsAreGroups(performances);
      GroupByShape(Filter(performances, HasProvince), ProvinceKey);
    }

    /** `handleArtistClick(artist)`: select the artist and collect its
        performances from every bucket. */
    method ArtistClick(artist: string)
      requires Valid()
      modifies this`selectedArtist, this`artistPerformances, this`isFlipped
      ensures selectedArtist == Some(artist) && isFlipped
      ensures artistPerformances == ArtistAcross(performanceData.keys, performanceData.values, artist)
    {
      selectedArtist := Some(artist);
      artistPerformances := CollectArtist(performanceData.keys, performanceData.values, artist);
      isFlipped := true;
    }

    /** `hasArtistPerformance(provinceName)` on the current state. */
    function ArtistShowsIn(name: string): bool
      reads this
    {
      HasArtistPerformance(performanceData, selectedArtist, name)
    }

    /** `handleMapClick`: a click on the background (the svg or its rect)
        clears the artist selection; a click on a province path does not. */
    method MapClick(onBackground: bool)
      modifies this`selectedArtist, this`artistPerformances
      ensures onBackground ==> selectedArtist.None? && artistPerformances == []
      ensures !onBackground ==> selectedArtist == old(selectedArtist) && artistPerformances == old(artistPerformances)
    {
      if onBackground {
        selectedArtist := None;
        artistPerformances := [];
      }
    }

    /** `handleProvinceClick(feature)`: a different province clears the artist
        selection; the province is selected with its bucket, or no events. */
    method ProvinceClick(featureName: string)
      modifies this`selectedProvince, this`provincePerformances, this`selectedArtist, this`artistPerformances
      ensures selectedProvince == Some(featureName)
      ensures provincePerformances ==
                if MapKey(featureName) in performanceData.values then performanceData.values[MapKey(featureName)] else []
      ensures old(selectedProvince) != Some(featureName) ==> selectedArtist.None? && artistPerformances == []
      ensures old(selectedProvince) == Some(featureName) ==>
                selectedArtist == old(selectedArtist) && artistPerformances == old(artistPerformances)
    {
      var name := MapKey(featureName);
      if selectedProvince != Some(featureName) {
        selectedArtist := None;
        artistPerformances := [];
      }
      selectedProvince := Some(featureName);
      provincePerformances := if name in performanceData.values then performanceData.values[name] else [];
    }

    /** The fill of the province drawn for a feature of this name. */
    function ProvinceFill(featureName: string): (c: string)
      reads this
      ensures c == Red <==> ArtistShowsIn(MapKey(featureName)) || selectedProvince == Some(featureName)
      ensures c == Gray <==>
                !ArtistShowsIn(MapKey(featureName)) && selectedProvince != Some(featureName)
                && HasPerformances(performanceData, MapKey(featureName))
      ensures c == Dark <==>
                !ArtistShowsIn(MapKey(featureName)) && selectedProvince != Some(featureName)
                && !HasPerformances(performanceData, MapKey(featureName))
    {
      var key := MapKey(featureName);
      Fill(ArtistShowsIn(key), selectedProvince == Some(featureName), HasPerformances(performanceData, key))
    }
  }
}
