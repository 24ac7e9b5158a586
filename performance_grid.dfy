/** The artist bubbles: one bubble per artist, sized by the number of its
    events, drifting inside the container and pushed away by the pointer; and
    the list of one artist's events when a bubble is opened. The sines,
    cosines, square root and random numbers of the animation come in as
    inputs. */
module PerformanceGrid {
  import opened Collections
  import opened CivilCalendar
  import opened Events
  import opened StatisticsView

  /** `Math.max(Math.min(count * 20, 120), 40)`. */
  function BubbleSize(count: nat): (size: int)
    ensures 40 <= size <= 120
    ensures count <= 2 ==> size == 40
    ensures count >= 6 ==> size == 120
    ensures 2 <= count <= 6 ==> size == 20 * count
  {
    var grown := if count * 20 < 120 then count * 20 else 120;
    if grown > 40 then grown else 40
  }

  /** One entry of `getArtistStats()`. */
  datatype BubbleStat = BubbleStat(artist: string, count: nat, size: int)

  /** `getArtistStats()`: the artists by number of events, largest first. */
  function ArtistStats(performances: seq<Event>): seq<BubbleStat>
  {
    WithSizes(Ranking(performances, ArtistOf))
  }

  /** `.map(([artist, count]) => ({ artist, count, size }))`. */
  function WithSizes(r: seq<Bar>): (s: seq<BubbleStat>)
    ensures |s| == |r|
    ensures forall i :: 0 <= i < |r| ==> s[i] == BubbleStat(r[i].0, r[i].1, BubbleSize(r[i].1))
  {
    if |r| == 0 then [] else WithSizes(r[..|r| - 1]) + [BubbleStat(r[|r| - 1].0, r[|r| - 1].1, BubbleSize(r[|r| - 1].1))]
  }

  /** The (artist, count) pairs of a list of bubble entries. */
  function Counts(s: seq<BubbleStat>): (c: seq<Bar>)
    ensures |c| == |s|
    ensures forall i :: 0 <= i < |s| ==> c[i] == (s[i].artist, s[i].count)
  {
    if |s| == 0 then [] else Counts(s[..|s| - 1]) + [(s[|s| - 1].artist, s[|s| - 1].count)]
  }

  /** One bubble per artist, each with the number of its events and the
      clamped size; the counts add up to the number of events and do not
      increase along the list. */
  lemma ArtistStatsShape(performances: seq<Event>)
    ensures var s := ArtistStats(performances);
            && |s| == |set k | k in KeySeq(performances, ArtistOf)|
            && (forall i :: 0 <= i < |s| ==> s[i].count == |Having(performances, ArtistOf, s[i].artist)| > 0)
            && (forall e :: e in performances ==> HasBubble(s, e.artist))
            && SumCounts(Counts(s)) == |performances|
            && (forall i, j :: 0 <= i < j < |s| ==> s[i].count >= s[j].count)
  {
    var s := ArtistStats(performances);
    var r := Ranking(performances, ArtistOf);
    RankingShape(performances, ArtistOf);
    CountsOfStats(performances);
    ArtistsListed(performances);
  }

  lemma CountsOfStats(performances: seq<Event>)
    ensures Counts(ArtistStats(performances)) == Ranking(performances, ArtistOf)
  {
  }

  /** Some entry of s is the bubble of the artist. */
  predicate HasBubble(s: seq<BubbleStat>, artist: string)
  {
    exists i :: 0 <= i < |s| && s[i].artist == artist
  }

  lemma ArtistsListed(performances: seq<Event>)
    ensures forall e :: e in performances ==> HasBubble(ArtistStats(performances), e.artist)
  {
    KeysListed(performances, ArtistOf);
  }

  lemma KeysListed(events: seq<Event>, key: Event -> string)
    ensures forall e :: e in events ==> HasBubble(WithSizes(Ranking(events, key)), key(e))
  {
    var r := Ranking(events, key);
    forall e | e in events ensures HasBubble(WithSizes(r), key(e)) {
      KeyOfMember(events, key, e);
      RankingCovers(events, key, key(e));
      var j :| 0 <= j < |r| && r[j].0 == key(e);
      SizedKey(r, key(e), j);
    }
  }

  lemma KeyOfMember(events: seq<Event>, key: Event -> string, e: Event)
    requires e in events
    ensures key(e) in KeySeq(events, key)
  {
    var k :| 0 <= k < |events| && events[k] == e;
    assert KeySeq(events, key)[k] == key(e);
  }

  lemma SizedKey(r: seq<Bar>, k: string, i: int)
    requires 0 <= i < |r| && r[i].0 == k
    ensures HasBubble(WithSizes(r), k)
  {
    var s := WithSizes(r);
    assert s[i] == BubbleStat(r[i].0, r[i].1, BubbleSize(r[i].1));
  }

  /** Whether `new Date(perf.date)` is a valid date. */
  predicate Dated(e: Event)
  {
    ParsedDate(e.date).Some?
  }

  predicate Undated(e: Event)
  {
    ParsedDate(e.date).None?
  }

  /** The time value the comparator subtracts, in days. */
  function DateRank(e: Event): int
  {
    match ParsedDate(e.date)
    case Some(d) => DayNumber(d)
    case None => 0
  }

  /** `getArtistPerformances(artist)`: the artist's events in ascending date
      order. An invalid date makes the comparator NaN, which leaves the order
      to the engine; here such events follow the dated ones in list order. */
  function ArtistPerformances(performances: seq<Event>, artist: string): seq<Event>
  {
    var own := Having(performances, ArtistOf, artist);
    SortBy(Filter(own, Dated), DateRank) + Filter(own, Undated)
  }

  /** Every event is either dated or undated, never both. */
  lemma DatedOrNot()
    ensures forall e :: Dated(e) <==> !Undated(e)
  {
  }

  /** The opened bubble lists exactly the events of its artist, each once,
      dated events first and in ascending date order. */
  lemma ArtistPerformancesShape(performances: seq<Event>, artist: string)
    ensures var r := ArtistPerformances(performances, artist);
            && multiset(r) == multiset(Having(performances, ArtistOf, artist))
            && (forall e :: e in r <==> e in performances && e.artist == artist)
            && (forall i, j :: 0 <= i < j < |r| && Dated(r[j]) ==> Dated(r[i]) && DateRank(r[i]) <= DateRank(r[j]))
  {
    ArtistPerformancesCount(performances, artist);
    ArtistPerformancesMembers(performances, artist);
    ArtistPerformancesOrder(performances, artist);
  }

  /** Each event of the artist appears as often as in the artist's own list. */
  lemma ArtistPerformancesCount(performances: seq<Event>, artist: string)
    ensures multiset(ArtistPerformances(performances, artist)) == multiset(Having(performances, ArtistOf, artist))
  {
    var own := Having(performances, ArtistOf, artist);
    DatedOrNot();
    FilterPartition(own, Dated, Undated);
  }

  /** Exactly the events of the artist are listed. */
  lemma ArtistPerformancesMembers(performances: seq<Event>, artist: string)
    ensures var r := ArtistPerformances(performances, artist);
            forall e :: e in r <==> e in performances && e.artist == artist
  {
    var own := Having(performances, ArtistOf, artist);
    var r := ArtistPerformances(performances, artist);
    ArtistPerformancesCount(performances, artist);
    forall e ensures e in r <==> e in performances && e.artist == artist {
      assert e in r <==> e in multiset(own);
    }
  }

  /** Dated events come first, in ascending date order. */
  lemma ArtistPerformancesOrder(performances: seq<Event>, artist: string)
    ensures var r := ArtistPerformances(performances, artist);
            forall i, j :: 0 <= i < j < |r| && Dated(r[j]) ==> Dated(r[i]) && DateRank(r[i]) <= DateRank(r[j])
  {
    var own := Having(performances, ArtistOf, artist);
    var dated := SortBy(Filter(own, Dated), DateRank);
    var r := ArtistPerformances(performances, artist);
    forall i, j | 0 <= i < j < |r| && Dated(r[j])
      ensures Dated(r[i]) && DateRank(r[i]) <= DateRank(r[j])
    {
      assert j < |dated|;
      assert r[i] in multiset(dated);
      assert r[i] in Filter(own, Dated);
    }
  }

  /** `Math.min((currentTime - lastUpdateTime) / 16, 2)`: the elapsed time in
      16 ms frames, at most 2. */
  function DeltaFactor(elapsed: int): (d: real)
    ensures d <= 2.0
    ensures d == 2.0 || d == elapsed as real / 16.0
    ensures elapsed <= 32 ==> d == elapsed as real / 16.0
  {
    var frames := elapsed as real / 16.0;
    if frames < 2.0 then frames else 2.0
  }

  /** `Math.PI * 2` as the double it evaluates to. */
  const TwoPi: real := 6.283185307179586

  /** JavaScript's `a % (Math.PI * 2)`: a - 2π * trunc(a / 2π), the
      remainder of the division truncated toward zero, so it has the sign of
      a and lies within one period of zero. */
  function WrapPhase(a: real): (r: real)
    ensures a >= 0.0 ==> 0.0 <= r < TwoPi
    ensures a < 0.0 ==> -TwoPi < r <= 0.0
  {
    a - TwoPi * Trunc(a / TwoPi) as real
  }

  /** The wrapped phase differs from the phase by a whole number of periods. */
  lemma WrapPhaseWholePeriods(a: real)
    ensures ((a - WrapPhase(a)) / TwoPi).Floor as real == (a - WrapPhase(a)) / TwoPi
  {
    var t := Trunc(a / TwoPi);
    assert (a - WrapPhase(a)) / TwoPi == t as real;
  }

  /** The integer part of q, rounded toward zero. */
  function Trunc(q: real): (t: int)
    ensures q >= 0.0 ==> 0.0 <= q - t as real < 1.0
    ensures q < 0.0 ==> -1.0 < q - t as real <= 0.0
  {
    if q >= 0.0 then q.Floor else -((-q).Floor)
  }

  /** A bubble: the stat it shows, its colour, and its animation state. */
  datatype Bubble = Bubble(artist: string, count: nat, size: int, color: string,
                           x: real, y: real, vx: real, vy: real, phase: real)

  /** The values one frame takes from `Math` for one bubble: the sine and
      cosine of the floating motion, the pointer distance (a square root), and
      the cosine and sine of the pointer angle (`atan2`). */
  datatype Trig = Trig(floatSin: real, floatCos: real, distance: real, cosAngle: real, sinAngle: real)

  const InfluenceRadius: real := 150.0
  const MouseForce: real := 0.8
  const Padding: real := 20.0

  /** `Math.pow(1 - distanceToMouse / 150, 2) * 0.8`, applied only within the
      radius; nothing outside it. */
  function PointerForce(distance: real): (f: real)
    ensures distance >= InfluenceRadius ==> f == 0.0
    ensures f >= 0.0
    ensures 0.0 <= distance ==> f <= MouseForce
  {
    var t := 1.0 - distance / InfluenceRadius;
    assert 0.0 <= distance < InfluenceRadius ==> 0.0 <= t <= 1.0;
    if distance < InfluenceRadius then Square(t) * MouseForce else 0.0
  }

  /** `Math.pow(t, 2)`. */
  function Square(t: real): (s: real)
    ensures s >= 0.0
    ensures 0.0 <= t <= 1.0 ==> s <= 1.0
  {
    assert 0.0 <= t <= 1.0 ==> t * t <= t * 1.0;
    t * t
  }

  /** The velocity of a bubble after the pointer push and the floating
      motion, before the walls: `vx -= cos(angle) * force; vx += floatX * 0.4`. */
  function Drift(b: Bubble, trig: Trig): (v: (real, real))
    ensures trig.distance >= InfluenceRadius ==>
              v == (b.vx + trig.floatSin * 0.15 * 0.4, b.vy + trig.floatCos * 0.15 * 0.4)
  {
    if trig.distance < InfluenceRadius then
      var force := PointerForce(trig.distance);
      (b.vx - trig.cosAngle * force + trig.floatSin * 0.15 * 0.4, b.vy - trig.sinAngle * force + trig.floatCos * 0.15 * 0.4)
    else (b.vx + trig.floatSin * 0.15 * 0.4, b.vy + trig.floatCos * 0.15 * 0.4)
  }

  /** The bubble lies within the padding of the container: never past the far
      wall, and not before the near wall when the container is wide (or tall)
      enough for the bubble and both paddings. */
  predicate InsideWalls(b: Bubble, width: real, height: real)
  {
    && b.x <= width - b.size as real - Padding
    && (width >= b.size as real + 2.0 * Padding ==> b.x >= Padding)
    && b.y <= height - b.size as real - Padding
    && (height >= b.size as real + 2.0 * Padding ==> b.y >= Padding)
  }

  /** A step changes only the animation state of a bubble. */
  predicate SameBubble(a: Bubble, b: Bubble)
  {
    a.artist == b.artist && a.count == b.count && a.size == b.size && a.color == b.color
  }

  /** The wall check of one axis: a coordinate before the near wall is put on
      it, then one past the far wall (at hi) on that; each correction reverses
      the velocity at 0.3 of its speed. */
  function Bounced(p: real, v: real, hi: real): (r: (real, real))
    ensures r.0 <= hi
    ensures Padding <= hi ==> Padding <= r.0
    ensures Padding <= p <= hi ==> r == (p, v)
    ensures p < Padding <= hi ==> r == (Padding, v * -0.3)
    ensures Padding <= hi < p ==> r == (hi, v * -0.3)
  {
    var q := if p < Padding then Padding else p;
    var w := if p < Padding then v * -0.3 else v;
    if q > hi then (hi, w * -0.3) else (q, w)
  }

  /** One bubble after one frame of `updateBubbles`: the pointer push and the
      floating motion change the velocity, the position moves by 0.6 of it, a
      coordinate that crossed a wall is put back on it with its velocity
      reversed at 0.3 of its speed, and both velocity components then lose 2%.
      SteppedInside and SteppedMotion state what this gives. */
  function Stepped(b: Bubble, deltaTime: real, width: real, height: real, trig: Trig): (n: Bubble)
    ensures SameBubble(n, b)
    ensures n.phase == WrapPhase(b.phase + deltaTime * 0.01)
  {
    var v := Drift(b, trig);
    var size := b.size as real;
    var onX := Bounced(b.x + v.0 * 0.6, v.0, width - size - Padding);
    var onY := Bounced(b.y + v.1 * 0.6, v.1, height - size - Padding);
    b.(x := onX.0, y := onY.0, vx := onX.1 * 0.98, vy := onY.1 * 0.98,
       phase := WrapPhase(b.phase + deltaTime * 0.01))
  }

  /** A stepped bubble lies within the walls of the container. */
  lemma SteppedInside(b: Bubble, deltaTime: real, width: real, height: real, trig: Trig)
    ensures InsideWalls(Stepped(b, deltaTime, width, height, trig), width, height)
  {
  }

  /** Where a stepped bubble lands and how fast it moves on: on each axis the
      coordinate advances by 0.6 of the drifted velocity, or stops on the wall
      it crossed with that velocity reversed at 0.3; the velocity is damped
      by 0.98 either way. */
  lemma SteppedMotion(b: Bubble, deltaTime: real, width: real, height: real, trig: Trig)
    ensures var n := Stepped(b, deltaTime, width, height, trig);
            var v := Drift(b, trig);
            var x1 := b.x + v.0 * 0.6;
            var hi := width - b.size as real - Padding;
            && (Padding <= x1 <= hi ==> n.x == x1 && n.vx == v.0 * 0.98)
            && (x1 < Padding <= hi ==> n.x == Padding && n.vx == v.0 * -0.3 * 0.98)
            && (Padding <= hi < x1 ==> n.x == hi && n.vx == v.0 * -0.3 * 0.98)
    ensures var n := Stepped(b, deltaTime, width, height, trig);
            var v := Drift(b, trig);
            var y1 := b.y + v.1 * 0.6;
            var hi := height - b.size as real - Padding;
            && (Padding <= y1 <= hi ==> n.y == y1 && n.vy == v.1 * 0.98)
            && (y1 < Padding <= hi ==> n.y == Padding && n.vy == v.1 * -0.3 * 0.98)
            && (Padding <= hi < y1 ==> n.y == hi && n.vy == v.1 * -0.3 * 0.98)
  {
  }

  /** The callback of `prevBubbles.map(...)` for one bubble, updating its
      copies of the position, velocity and phase in the source's order. */
  method StepBubble(b: Bubble, deltaTime: real, width: real, height: real, trig: Trig) returns (n: Bubble)
    ensures n == Stepped(b, deltaTime, width, height, trig)
  {
    var x, y, vx, vy, phase := b.x, b.y, b.vx, b.vy, b.phase;
    var size := b.size as real;
    phase := WrapPhase(phase + deltaTime * 0.01);
    var floatX := trig.floatSin * 0.15;
    var floatY := trig.floatCos * 0.15;
    if trig.distance < InfluenceRadius {
      var force := PointerForce(trig.distance);
      vx := vx - trig.cosAngle * force;
      vy := vy - trig.sinAngle * force;
    }
    vx := vx + floatX * 0.4;
    vy := vy + floatY * 0.4;
    ghost var v := Drift(b, trig);
    assert vx == v.0 && vy == v.1;
    x := x + vx * 0.6;
    y := y + vy * 0.6;
    x, vx := Bounce(x, vx, width - size - Padding);
    y, vy := Bounce(y, vy, height - size - Padding);
    vx := vx * 0.98;
    vy := vy * 0.98;
    n := b.(x := x, y := y, vx := vx, vy := vy, phase := phase);
    SteppedFields(b, deltaTime, width, height, trig);
  }

  /** Stepped, field by field. */
  lemma SteppedFields(b: Bubble, deltaTime: real, width: real, height: real, trig: Trig)
    ensures var v := Drift(b, trig);
            var onX := Bounced(b.x + v.0 * 0.6, v.0, width - b.size as real - Padding);
            var onY := Bounced(b.y + v.1 * 0.6, v.1, height - b.size as real - Padding);
            var n := Stepped(b, deltaTime, width, height, trig);
            && n.x == onX.0 && n.vx == onX.1 * 0.98 && n.y == onY.0 && n.vy == onY.1 * 0.98
            && n == b.(x := n.x, y := n.y, vx := n.vx, vy := n.vy, phase := n.phase)
  {
  }

  /** The two `if` statements of the wall check of one axis. */
  method Bounce(p: real, v: real, hi: real) returns (q: real, w: real)
    ensures q == Bounced(p, v, hi).0 && w == Bounced(p, v, hi).1
  {
    q, w := p, v;
    if q < Padding {
      q := Padding;
      w := w * -0.3;
    }
    if q > hi {
      q := hi;
      w := w * -0.3;
    }
  }

  /** `saturation` and `lightness` of `generateBlueShade(count, maxCount)`:
      the more events, the more saturated and the darker. */
  function BlueShade(count: nat, maxCount: nat): (sl: (real, real))
    requires maxCount > 0
    ensures count <= maxCount ==> 60.0 <= sl.0 <= 100.0 && 30.0 <= sl.1 <= 60.0
    ensures count == maxCount ==> sl == (100.0, 30.0)
    ensures count == 0 ==> sl == (60.0, 60.0)
  {
    var share := count as real / maxCount as real;
    assert count <= maxCount ==> share <= 1.0;
    assert count == maxCount ==> share == 1.0;
    (60.0 + share * 40.0, 60.0 - share * 30.0)
  }

  /** The more events, the more saturated and the darker the bubble. */
  lemma BlueShadeMonotone(c1: nat, c2: nat, maxCount: nat)
    requires maxCount > 0 && c1 <= c2
    ensures BlueShade(c1, maxCount).0 <= BlueShade(c2, maxCount).0
    ensures BlueShade(c1, maxCount).1 >= BlueShade(c2, maxCount).1
  {
    var m := maxCount as real;
    assert c2 as real / m - c1 as real / m == (c2 - c1) as real / m;
    assert (c2 - c1) as real / m >= 0.0;
  }

  /** `prevBubbles.map(...)` of one frame. */
  method StepAll(prev: seq<Bubble>, deltaTime: real, width: real, height: real, trig: Bubble -> Trig)
    returns (next: seq<Bubble>)
    ensures |next| == |prev|
    ensures forall k :: 0 <= k < |prev| ==> next[k] == Stepped(prev[k], deltaTime, width, height, trig(prev[k]))
    ensures forall k :: 0 <= k < |prev| ==>
              && SameBubble(next[k], prev[k])
              && InsideWalls(next[k], width, height)
              && next[k].phase == WrapPhase(prev[k].phase + deltaTime * 0.01)
  {
    next := [];
    var i := 0;
    while i < |prev|
      invariant 0 <= i <= |prev|
      invariant |next| == i
      invariant forall k :: 0 <= k < i ==> next[k] == Stepped(prev[k], deltaTime, width, height, trig(prev[k]))
      invariant forall k :: 0 <= k < i ==>
                  && SameBubble(next[k], prev[k])
                  && InsideWalls(next[k], width, height)
                  && next[k].phase == WrapPhase(prev[k].phase + deltaTime * 0.01)
    {
      var n := StepBubble(prev[i], deltaTime, width, height, trig(prev[i]));
      SteppedInside(prev[i], deltaTime, width, height, trig(prev[i]));
      next := next + [n];
      i := i + 1;
    }
  }

  /** The bubbles of the page and the time of the last frame. */
  class BubbleField {
    var bubbles: seq<Bubble>
    var lastUpdateTime: int

    constructor (now: int)
      ensures bubbles == [] && lastUpdateTime == now
    {
      bubbles := [];
      lastUpdateTime := now;
    }

    /** One animation frame at time `now` (ms). The container's size is None
        while it is not mounted; `trig` gives each bubble its values from
        `Math` for this frame. */
    method UpdateBubbles(now: int, container: Option<(real, real)>, trig: Bubble -> Trig)
      modifies this
      ensures lastUpdateTime == now
      ensures |bubbles| == |old(bubbles)|
      ensures container.None? ==> bubbles == old(bubbles)
      ensures container.Some? ==> forall i :: 0 <= i < |bubbles| ==>
                bubbles[i] == Stepped(old(bubbles)[i], DeltaFactor(now - old(lastUpdateTime)),
                                      container.value.0, container.value.1, trig(old(bubbles)[i]))
      ensures container.Some? ==> forall i :: 0 <= i < |bubbles| ==>
                && SameBubble(bubbles[i], old(bubbles)[i])
                && InsideWalls(bubbles[i], container.value.0, container.value.1)
                && bubbles[i].phase
                   == WrapPhase(old(bubbles)[i].phase + DeltaFactor(now - old(lastUpdateTime)) * 0.01)
    {
      var deltaTime := DeltaFactor(now - lastUpdateTime);
      lastUpdateTime := now;
      if container.None? {
        return;
      }
      var (width, height) := container.value;
      var next := StepAll(bubbles, deltaTime, width, height, trig);
      bubbles := next;
    }
  }
}
