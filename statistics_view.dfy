/** The statistics page: the market card (total and per-month counts), the
    artist ranking and the province ranking, each a count-by-key fold followed
    by `Object.entries`, a stable sort and, for the rankings, a top-10 slice;
    and the three click handlers that list the events behind one bar. */
module StatisticsView {
  import opened Collections
  import opened CivilCalendar
  import opened Events
  import opened ProvinceName

  /** A bar of a chart: `[key, count]` from `Object.entries` of a counting object. */
  type Bar = (string, nat)

  /** The comparator `(a, b) => b.count - a.count` as a rank: larger counts first. */
  function ByCountDescending(b: Bar): int
  {
    -(b.1 as int)
  }

  /** The `monthOrder` table: 一月 .. 十二月 are 1 .. 12. Any other label (the
      "Invalid Date" of an unparsable date) makes the comparator NaN, which
      leaves its place to the engine; here it sorts after 十二月. */
  function MonthOrdinal(name: string): (n: int)
    ensures 1 <= n <= 13
    ensures n == 13 <==> name !in MonthLabels
  {
    if name == "一月" then 1 else if name == "二月" then 2 else if name == "三月" then 3
    else if name == "四月" then 4 else if name == "五月" then 5 else if name == "六月" then 6
    else if name == "七月" then 7 else if name == "八月" then 8 else if name == "九月" then 9
    else if name == "十月" then 10 else if name == "十一月" then 11 else if name == "十二月" then 12
    else 13
  }

  /** The table gives each month label its month number. */
  lemma MonthOrdinalOfLabel(m: int)
    requires 1 <= m <= 12
    ensures MonthOrdinal(MonthLabels[m - 1]) == m
  {
    assert MonthLabels[m - 1] == ["一月", "二月", "三月", "四月", "五月", "六月", "七月", "八月", "九月", "十月", "十一月", "十二月"][m - 1];
    if m == 11 {
      assert "十一月" != "一月" by { assert "十一月"[0] != "一月"[0]; }
      assert "十一月" != "十月" by { assert |"十一月"| != |"十月"|; }
    } else if m == 12 {
      assert "十二月" != "二月" by { assert "十二月"[0] != "二月"[0]; }
    }
  }

  function MonthRank(b: Bar): int
  {
    MonthOrdinal(b.0)
  }

  /** `calculateMarketStats` */
  datatype Market = Market(totalPerformances: nat, monthlyData: seq<Bar>)

  function MarketStats(events: seq<Event>): Market
  {
    Market(|events|, SortBy(Entries(Tally(events, MonthLabel)), MonthRank))
  }

  /** The entries of a count-by-key, sorted by count, largest first. */
  function Ranking(events: seq<Event>, key: Event -> string): seq<Bar>
  {
    SortBy(Entries(Tally(events, key)), ByCountDescending)
  }

  /** `calculateArtistStats`: the ten artists with the most performances. */
  function ArtistStats(events: seq<Event>): seq<Bar>
  {
    Take(Ranking(events, ArtistOf), 10)
  }

  /** The province key of the statistics page: the tokens are removed but,
      unlike on the map, the result is not trimmed. */
  function ProvinceOf(e: Event): string
  {
    Strip(e.province)
  }

  /** `calculateProvinceStats`: the ten provinces with the most performances. */
  function ProvinceStats(events: seq<Event>): seq<Bar>
  {
    Take(Ranking(events, ProvinceOf), 10)
  }

  /** `handleMonthClick`, `handleArtistClick`, `handleProvinceClick`: the events
      behind one bar. */
  function MonthClick(events: seq<Event>, month: string): seq<Event>
  {
    Having(events, MonthLabel, month)
  }

  function ArtistClick(events: seq<Event>, artist: string): seq<Event>
  {
    Having(events, ArtistOf, artist)
  }

  function ProvinceClick(events: seq<Event>, province: string): seq<Event>
  {
    Having(events, ProvinceOf, province)
  }

  /** The entries of a tally, in any order: one bar per distinct key, each
      holding the number of elements with that key; they add up to |events|. */
  lemma BarsOfTally(events: seq<Event>, key: Event -> string, bars: seq<Bar>)
    requires multiset(bars) == multiset(Entries(Tally(events, key)))
    ensures |bars| == |set k | k in KeySeq(events, key)|
    ensures forall i :: 0 <= i < |bars| ==>
              bars[i].1 == |Having(events, key, bars[i].0)| > 0 && bars[i].0 in KeySeq(events, key)
    ensures forall k :: k in KeySeq(events, key) ==> exists i :: 0 <= i < |bars| && bars[i].0 == k
    ensures SumCounts(bars) == |events|
  {
    BarsCount(events, key, bars);
    BarsHold(events, key, bars);
    BarsCover(events, key, bars);
    var c := Tally(events, key);
    SumCountsPermutation(bars, Entries(c));
    EntriesTotal(c);
    TallyTotal(events, key);
  }

  lemma BarsCount(events: seq<Event>, key: Event -> string, bars: seq<Bar>)
    requires multiset(bars) == multiset(Entries(Tally(events, key)))
    ensures |bars| == |set k | k in KeySeq(events, key)|
  {
    var c := Tally(events, key);
    var es := Entries(c);
    assert |bars| == |es| by {
      assert |multiset(bars)| == |multiset(es)|;
    }
    DistinctCard(c.keys);
    SameMembersSameSet(c.keys, KeySeq(events, key));
  }

  lemma SameMembersSameSet(a: seq<string>, b: seq<string>)
    requires forall x :: x in a <==> x in b
    ensures (set x | x in a) == (set x | x in b)
  {
  }

  lemma BarsHold(events: seq<Event>, key: Event -> string, bars: seq<Bar>)
    requires multiset(bars) == multiset(Entries(Tally(events, key)))
    ensures forall i :: 0 <= i < |bars| ==>
              bars[i].1 == |Having(events, key, bars[i].0)| > 0 && bars[i].0 in KeySeq(events, key)
  {
    forall i | 0 <= i < |bars|
      ensures bars[i].1 == |Having(events, key, bars[i].0)| > 0 && bars[i].0 in KeySeq(events, key)
    {
      var b := bars[i];
      assert b in multiset(bars);
      assert b in multiset(Entries(Tally(events, key)));
      EntryOfTally(events, key, b);
    }
  }

  /** Every entry of a tally is a key of the input with its count. */
  lemma EntryOfTally(events: seq<Event>, key: Event -> string, b: Bar)
    requires b in Entries(Tally(events, key))
    ensures b.1 == |Having(events, key, b.0)| > 0 && b.0 in KeySeq(events, key)
  {
    var es := Entries(Tally(events, key));
    var j :| 0 <= j < |es| && es[j] == b;
    EntryOfTallyAt(events, key, j);
  }

  lemma EntryOfTallyAt(events: seq<Event>, key: Event -> string, j: int)
    requires 0 <= j < |Tally(events, key).keys|
    ensures var b := Entries(Tally(events, key))[j];
            b.1 == |Having(events, key, b.0)| > 0 && b.0 in KeySeq(events, key)
  {
    var c := Tally(events, key);
    var k := c.keys[j];
    assert k in c.values;
    assert k in Dedup(KeySeq(events, key));
  }

  lemma BarsCover(events: seq<Event>, key: Event -> string, bars: seq<Bar>)
    requires multiset(bars) == multiset(Entries(Tally(events, key)))
    ensures forall k :: k in KeySeq(events, key) ==> exists i :: 0 <= i < |bars| && bars[i].0 == k
  {
    var c := Tally(events, key);
    var es := Entries(c);
    forall k | k in KeySeq(events, key)
      ensures exists i :: 0 <= i < |bars| && bars[i].0 == k
    {
      var j :| 0 <= j < |c.keys| && c.keys[j] == k;
      assert es[j] in multiset(bars);
      var i :| 0 <= i < |bars| && bars[i] == es[j];
    }
  }

  /** The market card: the total is the number of events, every month bar
      counts exactly the events carrying its label, the bars add up to the
      total, and they are ordered by month number, not by first appearance. */
  lemma MarketStatsCounts(events: seq<Event>)
    ensures MarketStats(events).totalPerformances == |events|
    ensures var m := MarketStats(events).monthlyData;
            && SumCounts(m) == |events|
            && (forall i :: 0 <= i < |m| ==> m[i].1 == |MonthClick(events, m[i].0)| > 0)
            && (forall k :: k in KeySeq(events, MonthLabel) ==> exists i :: 0 <= i < |m| && m[i].0 == k)
            && SortedBy(m, MonthRank)
  {
    BarsOfTally(events, MonthLabel, MarketStats(events).monthlyData);
  }

  /** Two months of the monthly chart with valid dates come in calendar order. */
  lemma MonthlyInCalendarOrder(events: seq<Event>, i: int, j: int, a: CivilDate, b: CivilDate)
    requires var m := MarketStats(events).monthlyData;
             0 <= i < j < |m| && ValidDate(a) && ValidDate(b)
             && m[i].0 == MonthLabels[a.month - 1] && m[j].0 == MonthLabels[b.month - 1]
    ensures a.month <= b.month
  {
    MonthsInOrder(MarketStats(events).monthlyData, i, j, a, b);
  }

  /** In bars sorted by month rank, the labels of two valid dates come in month order. */
  lemma MonthsInOrder(m: seq<Bar>, i: int, j: int, a: CivilDate, b: CivilDate)
    requires SortedBy(m, MonthRank)
    requires 0 <= i < j < |m| && ValidDate(a) && ValidDate(b)
    requires m[i].0 == MonthLabels[a.month - 1] && m[j].0 == MonthLabels[b.month - 1]
    ensures a.month <= b.month
  {
    assert MonthRank(m[i]) <= MonthRank(m[j]);
    MonthOrdinalOfLabel(a.month);
    MonthOrdinalOfLabel(b.month);
  }

  /** The ranking lists every key once with its count, sorted by count from
      the largest, and keys with equal counts keep the order of `Object.entries`
      (first appearance), because the sort is stable. */
  lemma RankingShape(events: seq<Event>, key: Event -> string)
    ensures var r := Ranking(events, key);
            && |r| == |set k | k in KeySeq(events, key)|
            && (forall i :: 0 <= i < |r| ==> r[i].1 == |Having(events, key, r[i].0)| > 0)
            && (forall k :: k in KeySeq(events, key) ==> exists i :: 0 <= i < |r| && r[i].0 == k)
            && SumCounts(r) == |events|
            && (forall i, j :: 0 <= i < j < |r| ==> r[i].1 >= r[j].1)
    ensures forall c :: WithRank(Ranking(events, key), ByCountDescending, c)
                     == WithRank(Entries(Tally(events, key)), ByCountDescending, c)
  {
    BarsOfTally(events, key, Ranking(events, key));
    forall c ensures WithRank(Ranking(events, key), ByCountDescending, c)
                  == WithRank(Entries(Tally(events, key)), ByCountDescending, c) {
      SortStable(Entries(Tally(events, key)), ByCountDescending, c);
    }
  }

  /** A top-10 list is min(10, distinct keys) long, sorted by count from the
      largest, and a key left out of it has no more events than any key in it. */
  lemma TopTen(events: seq<Event>, key: Event -> string)
    ensures var t := Take(Ranking(events, key), 10);
            var n := |set k | k in KeySeq(events, key)|;
            && |t| == (if n < 10 then n else 10)
            && (forall i, j :: 0 <= i < j < |t| ==> t[i].1 >= t[j].1)
            && (forall i :: 0 <= i < |t| ==> t[i].1 == |Having(events, key, t[i].0)| > 0)
            && (forall k :: k in KeySeq(events, key) && k !in KeySeq(t, Fst) ==>
                  forall i :: 0 <= i < |t| ==> |Having(events, key, k)| <= t[i].1)
  {
    TopTenLength(events, key);
    TopTenSorted(events, key);
    TopTenCounts(events, key);
    TopTenLeavesOutLess(events, key);
  }

  lemma TopTenLength(events: seq<Event>, key: Event -> string)
    ensures var t := Take(Ranking(events, key), 10);
            var n := |set k | k in KeySeq(events, key)|;
            |t| == (if n < 10 then n else 10)
  {
    BarsCount(events, key, Ranking(events, key));
  }

  lemma TopTenSorted(events: seq<Event>, key: Event -> string)
    ensures var t := Take(Ranking(events, key), 10);
            forall i, j :: 0 <= i < j < |t| ==> t[i].1 >= t[j].1
  {
    var r := Ranking(events, key);
    var t := Take(r, 10);
    RankingSorted(events, key);
    assert forall i :: 0 <= i < |t| ==> t[i] == r[i];
  }

  lemma TopTenCounts(events: seq<Event>, key: Event -> string)
    ensures var t := Take(Ranking(events, key), 10);
            forall i :: 0 <= i < |t| ==> t[i].1 == |Having(events, key, t[i].0)| > 0
  {
    var r := Ranking(events, key);
    var t := Take(r, 10);
    forall i | 0 <= i < |t|
      ensures t[i].1 == |Having(events, key, t[i].0)| > 0
    {
      assert t[i] == r[i];
      BarHolds(events, key, r, i);
    }
  }

  lemma BarHolds(events: seq<Event>, key: Event -> string, bars: seq<Bar>, i: int)
    requires multiset(bars) == multiset(Entries(Tally(events, key)))
    requires 0 <= i < |bars|
    ensures bars[i].1 == |Having(events, key, bars[i].0)| > 0
  {
    var b := bars[i];
    assert b in multiset(bars);
    EntryOfTally(events, key, b);
  }

  lemma TopTenLeavesOutLess(events: seq<Event>, key: Event -> string)
    ensures var t := Take(Ranking(events, key), 10);
            forall k :: k in KeySeq(events, key) && k !in KeySeq(t, Fst) ==>
              forall i :: 0 <= i < |t| ==> |Having(events, key, k)| <= t[i].1
  {
    var r := Ranking(events, key);
    var t := Take(r, 10);
    RankingCounts(events, key);
    forall k | k in KeySeq(events, key) && k !in KeySeq(t, Fst)
      ensures forall i :: 0 <= i < |t| ==> |Having(events, key, k)| <= t[i].1
    {
      RankingCovers(events, key, k);
      var j := LeftOut(r, t, k);
    }
  }

  lemma RankingCounts(events: seq<Event>, key: Event -> string)
    ensures var r := Ranking(events, key);
            && (forall i :: 0 <= i < |r| ==> r[i].1 == |Having(events, key, r[i].0)|)
            && (forall i, j :: 0 <= i < j < |r| ==> r[i].1 >= r[j].1)
  {
    BarsHold(events, key, Ranking(events, key));
    RankingSorted(events, key);
  }

  /** The bars are in descending order of count. */
  lemma RankingSorted(events: seq<Event>, key: Event -> string)
    ensures var r := Ranking(events, key);
            forall i, j :: 0 <= i < j < |r| ==> r[i].1 >= r[j].1
  {
    var r := Ranking(events, key);
    assert SortedBy(r, ByCountDescending);
    forall i, j | 0 <= i < j < |r|
      ensures r[i].1 >= r[j].1
    {
      assert ByCountDescending(r[i]) <= ByCountDescending(r[j]);
    }
  }

  lemma RankingCovers(events: seq<Event>, key: Event -> string, k: string)
    requires k in KeySeq(events, key)
    ensures exists j :: 0 <= j < |Ranking(events, key)| && Ranking(events, key)[j].0 == k
  {
    BarsCover(events, key, Ranking(events, key));
  }

  /** In a list sorted by count from the largest, a key that is not in a
      prefix sits after it, with a count no larger than any in the prefix. */
  lemma LeftOut(r: seq<Bar>, t: seq<Bar>, k: string) returns (j: nat)
    requires forall i, j :: 0 <= i < j < |r| ==> r[i].1 >= r[j].1
    requires |t| <= |r| && t == r[..|t|]
    requires exists j :: 0 <= j < |r| && r[j].0 == k
    requires k !in KeySeq(t, Fst)
    ensures |t| <= j < |r| && r[j].0 == k
    ensures forall i :: 0 <= i < |t| ==> r[j].1 <= t[i].1
  {
    j :| 0 <= j < |r| && r[j].0 == k;
    if j < |t| {
      assert false;
    }
  }

  lemma ArtistStatsTopTen(events: seq<Event>)
    ensures var t := ArtistStats(events);
            var n := |set k | k in KeySeq(events, ArtistOf)|;
            && |t| == (if n < 10 then n else 10)
            && (forall i, j :: 0 <= i < j < |t| ==> t[i].1 >= t[j].1)
            && (forall i :: 0 <= i < |t| ==> t[i].1 == |ArtistClick(events, t[i].0)| > 0)
            && (forall k :: k in KeySeq(events, ArtistOf) && k !in KeySeq(t, Fst) ==>
                  forall i :: 0 <= i < |t| ==> |ArtistClick(events, k)| <= t[i].1)
  {
    TopTen(events, ArtistOf);
  }

  lemma ProvinceStatsTopTen(events: seq<Event>)
    ensures var t := ProvinceStats(events);
            var n := |set k | k in KeySeq(events, ProvinceOf)|;
            && |t| == (if n < 10 then n else 10)
            && (forall i, j :: 0 <= i < j < |t| ==> t[i].1 >= t[j].1)
            && (forall i :: 0 <= i < |t| ==> t[i].1 == |ProvinceClick(events, t[i].0)| > 0)
            && (forall k :: k in KeySeq(events, ProvinceOf) && k !in KeySeq(t, Fst) ==>
                  forall i :: 0 <= i < |t| ==> |ProvinceClick(events, k)| <= t[i].1)
  {
    TopTen(events, ProvinceOf);
  }

  /** A click lists exactly the events of its key, in their order: every listed
      event has the key, and every event with the key is listed. */
  lemma ClickSelectsExactly(events: seq<Event>, key: Event -> string, k: string)
    ensures forall e :: e in Having(events, key, k) <==> e in events && key(e) == k
  {
  }
}
