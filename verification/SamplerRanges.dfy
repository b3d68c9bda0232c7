/** What a long range of the sampler shows of each point: once, twice, or not at all. */
module SamplerRanges {
  import opened Ring
  import opened Sampler
  import opened SamplerLaws

  /** A long range shows the averages of groups `first..end`, ... */
  function FirstGroup(config: Config, calls: seq<Call>, minutes: real, now: real): (first: nat)
    ensures first <= |Averages(History(calls), GroupSize(config))|
  {
    Skip(Averages(History(calls), GroupSize(config)), CompressedTime, 0,
         Max(CompressedCutoff(config, calls), Before(now, minutes)))
  }

  function EndGroup(config: Config, calls: seq<Call>, minutes: real, now: real, later: real): (end: nat)
    ensures FirstGroup(config, calls, minutes, now) <= end <= |Averages(History(calls), GroupSize(config))|
  {
    var first := FirstGroup(config, calls, minutes, now);
    var end := Skip(Averages(History(calls), GroupSize(config)), CompressedTime, 0,
                    Before(later, config.rawDataMinutes));
    if first <= end then end else first
  }

  /** ... and the points from here on as they came. */
  function FirstRaw(config: Config, calls: seq<Call>, minutes: real, now: real): (first: nat)
    ensures first <= |History(calls)|
  {
    Skip(History(calls), PointTime, 0, Max(RawCutoff(config, calls), Before(now, minutes)))
  }

  /** How often a long range shows point `k` of the history: in the average of its group, as it came, or both. */
  function TimesShown(config: Config, calls: seq<Call>, minutes: real, now: real, later: real, k: nat): nat {
    var n := GroupSize(config);
    var inGroup := FirstGroup(config, calls, minutes, now) * n <= k < EndGroup(config, calls, minutes, now, later) * n;
    (if inGroup then 1 else 0) + if FirstRaw(config, calls, minutes, now) <= k then 1 else 0
  }

  function AsPoints(groups: seq<CompressedPoint>): seq<Point> {
    if groups == [] then []
    else [Point(groups[0].up, groups[0].down, groups[0].timestamp)] + AsPoints(groups[1..])
  }

  lemma {:induction false} AtMostIsPrefix(s: seq<CompressedPoint>, cutoff: real, m: nat)
    requires m <= |s|
    requires forall k | 0 <= k < m :: s[k].timestamp <= cutoff
    requires forall k | m <= k < |s| :: s[k].timestamp > cutoff
    ensures AtMost(s, cutoff) == AsPoints(s[..m])
  {
    if s == [] {
      assert s[..m] == [];
    } else if m == 0 {
      AtMostIsPrefix(s[1..], cutoff, 0);
      assert s[..m] == [] == s[1..][..0];
    } else {
      AtMostIsPrefix(s[1..], cutoff, m - 1);
      assert s[..m][1..] == s[1..][..m - 1];
    }
  }

  lemma SkipOfSorted<A>(s: seq<A>, time: Clock<A>, cutoff: real)
    requires Sorted(s, time)
    ensures After(s, time, cutoff) == s[Skip(s, time, 0, cutoff)..]
    ensures forall k | Skip(s, time, 0, cutoff) <= k < |s| :: time(s[k]) > cutoff
  {
    var r := Ring(s, 0);
    assert r.Live() == s;
    SkipIsFilter(r, time, cutoff);
    var m := Skip(s, time, 0, cutoff);
    forall k | m <= k < |s| ensures time(s[k]) > cutoff {
      assert k == m || time(s[m]) <= time(s[k]);
    }
  }

  lemma AtMostFrom(s: seq<CompressedPoint>, first: nat, end: nat, cutoff: real)
    requires Sorted(s, CompressedTime) && first <= end <= |s|
    requires var m := Skip(s, CompressedTime, 0, cutoff); end == if first <= m then m else first
    ensures AtMost(s[first..], cutoff) == AsPoints(s[first..end])
  {
    SkipOfSorted(s, CompressedTime, cutoff);
    var shown := s[first..];
    forall k | 0 <= k < end - first ensures shown[k].timestamp <= cutoff {
      assert CompressedTime(s[first + k]) <= cutoff;
    }
    forall k | end - first <= k < |shown| ensures shown[k].timestamp > cutoff {
      assert CompressedTime(s[first + k]) > cutoff;
    }
    AtMostIsPrefix(shown, cutoff, end - first);
    assert shown[..end - first] == s[first..end];
  }

  /** A long range is those averages and those points, in one stable time order. */
  lemma LongRangeIsSlices(config: Config, calls: seq<Call>, minutes: real, now: real, later: real)
    requires ClockAdvances(calls) && Sorted(History(calls), PointTime)
    requires minutes > config.rawDataMinutes
    ensures var first, end := FirstGroup(config, calls, minutes, now), EndGroup(config, calls, minutes, now, later);
      RangeOf(config, Run(config, calls), minutes, now, later)
      == SortByTime(AsPoints(Averages(History(calls), GroupSize(config))[first..end])
                    + History(calls)[FirstRaw(config, calls, minutes, now)..])
  {
    var all, groups := History(calls), Averages(History(calls), GroupSize(config));
    LongRangeIsHistory(config, calls, minutes, now, later);
    AveragesAreSorted(all, GroupSize(config));
    SkipOfSorted(all, PointTime, Max(RawCutoff(config, calls), Before(now, minutes)));
    SkipOfSorted(groups, CompressedTime, Max(CompressedCutoff(config, calls), Before(now, minutes)));
    AtMostFrom(groups, FirstGroup(config, calls, minutes, now), EndGroup(config, calls, minutes, now, later),
               Before(later, config.rawDataMinutes));
  }

  /** Average number `g` is that of the points `g * n` to `(g + 1) * n` of the history. */
  lemma {:induction false} AverageIsOfGroup(all: seq<Point>, n: nat, g: nat)
    requires n > 0 && g < |Averages(all, n)|
    ensures 0 <= g * n < (g + 1) * n <= |all|
    ensures Averages(all, n)[g] == Average(all[g * n..(g + 1) * n])
  {
    if g == 0 {
      assert 1 * n == n;
    } else {
      AverageIsOfGroup(all[n..], n, g - 1);
      assert (g - 1) * n + n == g * n && g * n + n == (g + 1) * n;
      assert all[n..][(g - 1) * n..g * n] == all[g * n..(g + 1) * n];
    }
  }

  lemma {:induction false} GroupStartsGrow(g: nat, h: nat, n: nat)
    requires g <= h
    ensures 0 <= g * n <= h * n
    ensures g < h ==> g * n + n <= h * n
  {
    if g < h {
      GroupStartsGrow(g, h - 1, n);
      assert (h - 1) * n + n == h * n;
    }
  }

  lemma GroupsFit(all: seq<Point>, n: nat, g: nat, h: nat)
    requires n > 0 && g <= h <= |Averages(all, n)|
    ensures 0 <= g * n <= h * n <= |all|
    ensures g < h ==> g * n < h * n
  {
    GroupStartsGrow(g, h, n);
    if h > 0 {
      AverageIsOfGroup(all, n, h - 1);
    }
  }

  /**
   From the first group shown on, a long range shows every point exactly once, exactly if the points shown as they
   came begin where the groups shown end, or no group is shown and they begin no later than there. If they begin
   earlier, points between are shown twice; if they begin later, points between are not shown.
   */
  lemma ShownOnceIff(config: Config, calls: seq<Call>, minutes: real, now: real, later: real)
    ensures var n, raw := GroupSize(config), FirstRaw(config, calls, minutes, now);
      var first, end := FirstGroup(config, calls, minutes, now), EndGroup(config, calls, minutes, now, later);
      (forall k: nat :: first * n <= k < |History(calls)| ==> TimesShown(config, calls, minutes, now, later, k) == 1)
      <==> raw == end * n || (first == end && raw < end * n)
  {
    var all, n, raw := History(calls), GroupSize(config), FirstRaw(config, calls, minutes, now);
    var first, end := FirstGroup(config, calls, minutes, now), EndGroup(config, calls, minutes, now, later);
    GroupsFit(all, n, first, end);
    if raw > end * n {
      assert TimesShown(config, calls, minutes, now, later, end * n) == 0;
    } else if raw < end * n && first < end {
      var k := if raw < first * n then first * n else raw;
      assert TimesShown(config, calls, minutes, now, later, k) == 2;
    }
  }

  // ---- Two instances --------------------------------------------------------------------------

  function AddAt(t: real): Call {
    Add(Point(0.0, 0.0, t), t, t)
  }

  lemma GroupOfTwo(p: Point, q: Point, rest: seq<Point>)
    requires |rest| < 2
    ensures |Averages([p, q] + rest, 2)| == 1
    ensures CompressedTime(Averages([p, q] + rest, 2)[0]) == (p.timestamp + q.timestamp) / 2.0
  {
    var all := [p, q] + rest;
    assert all[..2] == [p, q] && all[2..] == rest;
    assert [p, q][..1] == [p] && [p][..0] == [];
    assert Sum([p, q], PointTime) == Sum([p], PointTime) + q.timestamp;
    assert Sum([p], PointTime) == p.timestamp;
  }

  lemma HistoryGrows(calls: seq<Call>, t: real)
    ensures History(calls + [AddAt(t)]) == History(calls) + [AddAt(t).point]
  {
    assert (calls + [AddAt(t)])[..|calls|] == calls;
  }

  lemma SkipsNone<A>(s: seq<A>, time: Clock<A>, cutoff: real)
    requires s != [] && time(s[0]) > cutoff
    ensures Skip(s, time, 0, cutoff) == 0
  {
  }

  lemma SkipsFirst<A>(s: seq<A>, time: Clock<A>, cutoff: real)
    requires s != [] && time(s[0]) <= cutoff
    ensures Skip(s, time, 0, cutoff) >= 1
  {
  }

  lemma HistoryOfTwo() returns (p: Point, q: Point)
    ensures p == AddAt(0.0).point && q == AddAt(100.0).point
    ensures History([AddAt(0.0), AddAt(100.0)]) == [p, q]
  {
    p, q := AddAt(0.0).point, AddAt(100.0).point;
    HistoryGrows([], 0.0);
    HistoryGrows([AddAt(0.0)], 100.0);
    assert [] + [AddAt(0.0)] == [AddAt(0.0)];
    assert [AddAt(0.0)] + [AddAt(100.0)] == [AddAt(0.0), AddAt(100.0)];
    assert [] + [p] == [p] && [p] + [q] == [p, q];
  }

  /** Two points in one group, with a raw window of a minute: shortly after a minute the first is shown twice. */
  lemma ShownTwice()
    ensures TimesShown(Config(1.0, 60.0, 2.0), [AddAt(0.0), AddAt(100.0)], 2.0, 60075.0, 60075.0, 0) == 2
  {
    var config, calls := Config(1.0, 60.0, 2.0), [AddAt(0.0), AddAt(100.0)];
    var p, q := HistoryOfTwo();
    GroupOfTwo(p, q, []);
    assert [p, q] + [] == [p, q];
    var groups := Averages([p, q], 2);
    SkipsNone([p, q], PointTime, Max(RawCutoff(config, calls), Before(60075.0, 2.0)));
    SkipsNone(groups, CompressedTime, Max(CompressedCutoff(config, calls), Before(60075.0, 2.0)));
    SkipsFirst(groups, CompressedTime, Before(60075.0, 1.0));
  }

  /** A third point trims the first from the raw points before its group is old enough: it is not shown at all. */
  lemma ShownNever()
    ensures TimesShown(Config(1.0, 60.0, 2.0), [AddAt(0.0), AddAt(100.0), AddAt(60025.0)], 2.0, 60030.0, 60030.0, 0)
         == 0
  {
    var config, calls := Config(1.0, 60.0, 2.0), [AddAt(0.0), AddAt(100.0), AddAt(60025.0)];
    var p, q := HistoryOfTwo();
    var r := AddAt(60025.0).point;
    HistoryGrows([AddAt(0.0), AddAt(100.0)], 60025.0);
    assert [AddAt(0.0), AddAt(100.0)] + [AddAt(60025.0)] == calls;
    assert History(calls) == [p, q] + [r];
    GroupOfTwo(p, q, [r]);
    var groups := Averages([p, q] + [r], 2);
    SkipsFirst([p, q] + [r], PointTime, Max(RawCutoff(config, calls), Before(60030.0, 2.0)));
    SkipsNone(groups, CompressedTime, Max(CompressedCutoff(config, calls), Before(60030.0, 2.0)));
    SkipsNone(groups, CompressedTime, Before(60030.0, 1.0));
  }
}
