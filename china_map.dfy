/** The embeddable map component: it draws the features it is given (the
    geometry is MapGeometry, shared with the map page) and colours each
    province from the props it receives. */
module ChinaMap {
  import opened Collections
  import opened Events
  import opened ProvinceName
  import PerformanceMap

  const ArtistRed := "#ef4444"
  const SelectedBlue := "#4299e1"
  const BusyBlue := "#93c5fd"
  const IdleGray := "#e2e8f0"

  /** The `fill` of the path of the feature called featureName: the first
      that holds of "the selected artist plays there", "it is the selected
      province", "it has events", else the idle colour. */
  function Fill(data: Dict<seq<Event>>, selectedProvince: Option<string>, selectedArtist: Option<string>,
                featureName: string): (c: string)
    ensures c in {ArtistRed, SelectedBlue, BusyBlue, IdleGray}
    ensures c == ArtistRed <==> PerformanceMap.HasArtistPerformance(data, selectedArtist, MapKey(featureName))
    ensures c == SelectedBlue <==>
              !PerformanceMap.HasArtistPerformance(data, selectedArtist, MapKey(featureName))
              && selectedProvince == Some(featureName)
    ensures c == BusyBlue <==>
              !PerformanceMap.HasArtistPerformance(data, selectedArtist, MapKey(featureName))
              && selectedProvince != Some(featureName)
              && PerformanceMap.HasPerformances(data, MapKey(featureName))
    ensures c == IdleGray <==>
              !PerformanceMap.HasArtistPerformance(data, selectedArtist, MapKey(featureName))
              && selectedProvince != Some(featureName)
              && !PerformanceMap.HasPerformances(data, MapKey(featureName))
  {
    var key := MapKey(featureName);
    if PerformanceMap.HasArtistPerformance(data, selectedArtist, key) then ArtistRed
    else if selectedProvince == Some(featureName) then SelectedBlue
    else if PerformanceMap.HasPerformances(data, key) then BusyBlue
    else IdleGray
  }

  /** Without a selected artist, or for a province without a bucket, the
      artist colour is never used. */
  lemma NoArtistColourWithoutShow(data: Dict<seq<Event>>, selectedProvince: Option<string>,
                                  selectedArtist: Option<string>, featureName: string)
    requires selectedArtist.None? || selectedArtist == Some("") || MapKey(featureName) !in data.values
    ensures Fill(data, selectedProvince, selectedArtist, featureName) != ArtistRed
  {
  }
}
