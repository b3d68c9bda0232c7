/** Whole runs of the sampler: space, cost, and agreement with the history of points since the last clear. */
module SamplerLaws {
  import opened Ring
  import opened Sampler

  datatype Call = Add(point: Point, rawNow: real, compressedNow: real) | Clear

  function Step(config: Config, s: State, call: Call): (s': State)
    requires s.Valid()
    ensures s'.Valid()
  {
    match call
    case Add(point, rawNow, compressedNow) => Added(config, s, point, rawNow, compressedNow)
    case Clear => EMPTY
  }

  function Run(config: Config, calls: seq<Call>): (s: State)
    ensures s.Valid()
  {
    if calls == [] then EMPTY else Step(config, Run(config, calls[..|calls| - 1]), calls[|calls| - 1])
  }

  // ---- Space and cost -------------------------------------------------------------------------

  ghost predicate Compact<A>(r: Ring<A>, slack: nat) {
    r.Valid() && (|r.buf| <= 2 * |r.Live()| || |r.buf| <= |r.Live()| + slack)
  }

  /** After every call each buffer is at most twice its live points, or its live points and the slack. */
  lemma SpaceIsBounded(config: Config, calls: seq<Call>)
    ensures Compact(Run(config, calls).raw, 512)
    ensures Compact(Run(config, calls).compressed, 256)
  {
    if calls != [] && calls[|calls| - 1].Add? {
      var s, call := Run(config, calls[..|calls| - 1]), calls[|calls| - 1];
      TrimBoundsSpace(Pushed(s.raw, [call.point]), PointTime, Before(call.rawNow, config.rawDataMinutes), RAW_SLACK);
      TrimBoundsSpace(Pushed(s.compressed, Flush(config, s.queue + [call.point])), CompressedTime,
                      Before(call.compressedNow, config.compressedDataMinutes), COMPRESSED_SLACK);
    }
  }

  function Adds(calls: seq<Call>): nat {
    if calls == [] then 0
    else Adds(calls[..|calls| - 1]) + if calls[|calls| - 1].Add? then 1 else 0
  }

  /** Head steps and copied entries that trimming one buffer has cost. */
  datatype Cost = Cost(advances: nat, copies: nat) {
    function Trim<A>(r: Ring<A>, time: Clock<A>, cutoff: real, slack: nat): Cost
      requires r.Valid()
    {
      Cost(advances + Advances(r, time, cutoff), copies + Copies(r, time, cutoff, slack))
    }
  }

  function RawCost(config: Config, calls: seq<Call>): Cost {
    if calls == [] then Cost(0, 0)
    else
      var earlier := RawCost(config, calls[..|calls| - 1]);
      match calls[|calls| - 1]
      case Add(point, now, _) =>
        earlier.Trim(Pushed(Run(config, calls[..|calls| - 1]).raw, [point]), PointTime,
                     Before(now, config.rawDataMinutes), RAW_SLACK)
      case Clear => earlier
  }

  function CompressedCost(config: Config, calls: seq<Call>): Cost {
    if calls == [] then Cost(0, 0)
    else
      var earlier := CompressedCost(config, calls[..|calls| - 1]);
      var s := Run(config, calls[..|calls| - 1]);
      match calls[|calls| - 1]
      case Add(point, _, now) =>
        earlier.Trim(Pushed(s.compressed, Flush(config, s.queue + [point])), CompressedTime,
                     Before(now, config.compressedDataMinutes), COMPRESSED_SLACK)
      case Clear => earlier
  }

  /** Each head step has used up one pushed entry, and each copy one head step. */
  ghost predicate Paid<A>(cost: Cost, r: Ring<A>, pushed: nat) {
    && r.Valid()
    && cost.advances + |r.Live()| <= pushed
    && cost.copies + r.head <= cost.advances
  }

  lemma TrimIsPaid<A>(cost: Cost, r: Ring<A>, pushed: nat, added: seq<A>, time: Clock<A>, cutoff: real, slack: nat)
    requires Paid(cost, r, pushed)
    ensures Paid(cost.Trim(Pushed(r, added), time, cutoff, slack), Trimmed(Pushed(r, added), time, cutoff, slack),
                 pushed + |added|)
  {
    assert Pushed(r, added).Live() == r.Live() + added;
    TrimCost(Pushed(r, added), time, cutoff, slack);
  }

  lemma {:induction false} CostsArePaid(config: Config, calls: seq<Call>) returns (groups: nat)
    ensures Paid(RawCost(config, calls), Run(config, calls).raw, Adds(calls))
    ensures Paid(CompressedCost(config, calls), Run(config, calls).compressed, groups)
    ensures groups + |Run(config, calls).queue| <= Adds(calls)
  {
    if calls == [] {
      groups := 0;
    } else {
      var earlier, call := calls[..|calls| - 1], calls[|calls| - 1];
      groups := CostsArePaid(config, earlier);
      if call.Add? {
        var s := Run(config, earlier);
        TrimIsPaid(RawCost(config, earlier), s.raw, Adds(earlier), [call.point], PointTime,
                   Before(call.rawNow, config.rawDataMinutes), RAW_SLACK);
        var full := Flush(config, s.queue + [call.point]);
        TrimIsPaid(CompressedCost(config, earlier), s.compressed, groups, full, CompressedTime,
                   Before(call.compressedNow, config.compressedDataMinutes), COMPRESSED_SLACK);
        groups := groups + |full|;
      }
    }
  }

  /** Over any run, trimming costs at most two steps per added point on either buffer. */
  lemma WorkIsLinear(config: Config, calls: seq<Call>)
    ensures var raw := RawCost(config, calls); raw.advances + raw.copies <= 2 * Adds(calls)
    ensures var compressed := CompressedCost(config, calls);
            compressed.advances + compressed.copies <= 2 * Adds(calls)
  {
    var _ := CostsArePaid(config, calls);
  }

  // ---- The history and its groups -------------------------------------------------------------

  /** The points added since the last clear. */
  function History(calls: seq<Call>): seq<Point> {
    if calls == [] then []
    else match calls[|calls| - 1]
      case Add(point, _, _) => History(calls[..|calls| - 1]) + [point]
      case Clear => []
  }

  /** How many points fill the queue. */
  function GroupSize(config: Config): (n: nat)
    ensures n > 0
    ensures forall queue: seq<Point> | queue != [] :: Full(config, queue) <==> |queue| >= n
  {
    if config.compressionRatio <= 1.0 then 1 else -(-config.compressionRatio).Floor
  }

  /** The averages of consecutive groups of n points. */
  function Averages(all: seq<Point>, n: nat): seq<CompressedPoint>
    requires n > 0
  {
    if |all| < n then [] else [Average(all[..n])] + Averages(all[n..], n)
  }

  /** What is left over after the last whole group. */
  function Pending(all: seq<Point>, n: nat): (rest: seq<Point>)
    requires n > 0
    ensures |rest| < n
  {
    if |all| < n then all else Pending(all[n..], n)
  }

  lemma {:induction false} GroupsGrow(all: seq<Point>, n: nat, x: Point)
    requires n > 0
    ensures var queue := Pending(all, n) + [x];
            && Averages(all + [x], n) == Averages(all, n) + (if |queue| < n then [] else [Average(queue)])
            && Pending(all + [x], n) == if |queue| < n then queue else []
  {
    if |all| < n {
      if |all| + 1 == n {
        assert (all + [x])[..n] == all + [x] && (all + [x])[n..] == [];
      }
    } else {
      assert (all + [x])[..n] == all[..n] && (all + [x])[n..] == all[n..] + [x];
      GroupsGrow(all[n..], n, x);
    }
  }

  /** The queue holds the points of the history past its last whole group. */
  lemma {:induction false} QueueIsPending(config: Config, calls: seq<Call>)
    ensures Run(config, calls).queue == Pending(History(calls), GroupSize(config))
  {
    if calls != [] && calls[|calls| - 1].Add? {
      QueueIsPending(config, calls[..|calls| - 1]);
      GroupsGrow(History(calls[..|calls| - 1]), GroupSize(config), calls[|calls| - 1].point);
    }
  }

  // ---- Compression loses no traffic -----------------------------------------------------------

  type Rate = Point -> real

  function Weighted(groups: seq<CompressedPoint>, f: CompressedPoint -> real): real {
    if groups == [] then 0.0 else f(groups[0]) * groups[0].samples as real + Weighted(groups[1..], f)
  }

  lemma {:induction false} SumSplits(s: seq<Point>, t: seq<Point>, f: Rate)
    ensures Sum(s + t, f) == Sum(s, f) + Sum(t, f)
  {
    if t == [] {
      assert s + t == s;
    } else {
      assert (s + t)[..|s + t| - 1] == s + t[..|t| - 1];
      SumSplits(s, t[..|t| - 1], f);
    }
  }

  function Up(p: Point): real { p.up }

  function CompressedUp(p: CompressedPoint): real { p.up }

  function Down(p: Point): real { p.down }

  function CompressedDown(p: CompressedPoint): real { p.down }

  lemma {:induction false} SumAgrees(s: seq<Point>, f: Rate, g: Rate)
    requires forall p :: f(p) == g(p)
    ensures Sum(s, f) == Sum(s, g)
  {
    if s != [] {
      SumAgrees(s[..|s| - 1], f, g);
    }
  }

  /** An average times its number of samples is the sum it came from. */
  ghost predicate Averaged(f: Rate, average: CompressedPoint -> real) {
    forall group: seq<Point> | group != [] ::
      average(Average(group)) * Average(group).samples as real == Sum(group, f)
  }

  lemma DivideMultiply(x: real, n: real)
    requires n != 0.0
    ensures x / n * n == x
  {
  }

  lemma AverageTimesCount(group: seq<Point>)
    requires group != []
    ensures Average(group).up * Average(group).samples as real == Sum(group, Up)
    ensures Average(group).down * Average(group).samples as real == Sum(group, Down)
    ensures Average(group).timestamp * Average(group).samples as real == Sum(group, PointTime)
  {
    var n := |group| as real;
    DivideMultiply(Sum(group, PointTime), n);
    SumAgrees(group, (p: Point) => p.up, Up);
    SumAgrees(group, (p: Point) => p.down, Down);
    DivideMultiply(Sum(group, Up), n);
    DivideMultiply(Sum(group, Down), n);
  }

  lemma RatesAreAveraged()
    ensures Averaged(Up, CompressedUp) && Averaged(Down, CompressedDown) && Averaged(PointTime, CompressedTime)
  {
    forall group: seq<Point> | group != []
      ensures Average(group).up * Average(group).samples as real == Sum(group, Up)
      ensures Average(group).down * Average(group).samples as real == Sum(group, Down)
      ensures Average(group).timestamp * Average(group).samples as real == Sum(group, PointTime)
    {
      AverageTimesCount(group);
    }
  }

  lemma WeightedStep(group: seq<Point>, rest: seq<CompressedPoint>, f: Rate, average: CompressedPoint -> real)
    requires group != [] && Averaged(f, average)
    ensures Weighted([Average(group)] + rest, average) == Sum(group, f) + Weighted(rest, average)
  {
    var groups := [Average(group)] + rest;
    assert groups[0] == Average(group) && groups[1..] == rest;
    assert average(Average(group)) * Average(group).samples as real == Sum(group, f);
  }

  lemma {:induction false} GroupsConserve(all: seq<Point>, n: nat, f: Rate, average: CompressedPoint -> real)
    requires n > 0 && Averaged(f, average)
    ensures Weighted(Averages(all, n), average) + Sum(Pending(all, n), f) == Sum(all, f)
  {
    if |all| >= n {
      GroupsConserve(all[n..], n, f, average);
      assert all == all[..n] + all[n..];
      SumSplits(all[..n], all[n..], f);
      WeightedStep(all[..n], Averages(all[n..], n), f, average);
    }
  }

  function TotalSamples(groups: seq<CompressedPoint>): nat {
    if groups == [] then 0 else groups[0].samples + TotalSamples(groups[1..])
  }

  lemma {:induction false} SamplesAddUp(all: seq<Point>, n: nat)
    requires n > 0
    ensures TotalSamples(Averages(all, n)) + |Pending(all, n)| == |all|
    ensures forall g <- Averages(all, n) :: g.samples == n
  {
    if |all| >= n {
      SamplesAddUp(all[n..], n);
      assert Averages(all, n)[1..] == Averages(all[n..], n);
    }
  }

  /** Every point's rates and time are counted exactly once, in the average of its group or still in the queue. */
  lemma CompressionConserves(config: Config, calls: seq<Call>)
    ensures var all, queue := History(calls), Run(config, calls).queue;
            var groups := Averages(all, GroupSize(config));
            && Weighted(groups, CompressedUp) + Sum(queue, Up) == Sum(all, Up)
            && Weighted(groups, CompressedDown) + Sum(queue, Down) == Sum(all, Down)
            && Weighted(groups, CompressedTime) + Sum(queue, PointTime) == Sum(all, PointTime)
            && TotalSamples(groups) + |queue| == |all|
            && forall g <- groups :: g.samples == GroupSize(config)
  {
    QueueIsPending(config, calls);
    RatesAreAveraged();
    GroupsConserve(History(calls), GroupSize(config), Up, CompressedUp);
    GroupsConserve(History(calls), GroupSize(config), Down, CompressedDown);
    GroupsConserve(History(calls), GroupSize(config), PointTime, CompressedTime);
    SamplesAddUp(History(calls), GroupSize(config));
  }

  // ---- Averages of a time-ordered history are in time order -----------------------------------

  lemma {:induction false} SumIsBetween(s: seq<Point>, low: real, high: real)
    requires forall p <- s :: low <= p.timestamp <= high
    ensures low * |s| as real <= Sum(s, PointTime) <= high * |s| as real
  {
    if s != [] {
      SumIsBetween(s[..|s| - 1], low, high);
      assert s[|s| - 1] in s;
      assert |s| as real == |s[..|s| - 1]| as real + 1.0;
    }
  }

  lemma AverageIsBetween(group: seq<Point>, low: real, high: real)
    requires group != [] && forall p <- group :: low <= p.timestamp <= high
    ensures low <= Average(group).timestamp <= high
  {
    SumIsBetween(group, low, high);
    DivisionIsBetween(Sum(group, PointTime), |group| as real, low, high);
  }

  lemma DivisionIsBetween(sum: real, n: real, low: real, high: real)
    requires n > 0.0 && low * n <= sum <= high * n
    ensures low <= sum / n <= high
  {
  }

  lemma {:induction false} AveragesAreAfter(all: seq<Point>, n: nat, low: real)
    requires n > 0 && forall p <- all :: low <= p.timestamp
    ensures forall a <- Averages(all, n) :: low <= a.timestamp
  {
    if |all| >= n {
      AverageIsAtLeast(all[..n], low);
      AveragesAreAfter(all[n..], n, low);
    }
  }

  function Latest(s: seq<Point>): (t: real)
    requires s != []
    ensures forall p <- s :: p.timestamp <= t
  {
    if |s| == 1 then s[0].timestamp
    else
      var t := Latest(s[1..]);
      if s[0].timestamp > t then s[0].timestamp else t
  }

  lemma AverageIsAtLeast(group: seq<Point>, low: real)
    requires group != [] && forall p <- group :: low <= p.timestamp
    ensures low <= Average(group).timestamp
  {
    AverageIsBetween(group, low, Latest(group));
  }

  lemma {:induction false} AveragesAreSorted(all: seq<Point>, n: nat)
    requires n > 0 && Sorted(all, PointTime)
    ensures Sorted(Averages(all, n), CompressedTime)
  {
    if |all| >= n {
      var first, rest := all[..n], all[n..];
      forall i, j | 0 <= i < j < |rest| ensures PointTime(rest[i]) <= PointTime(rest[j]) {
        assert rest[i] == all[n + i] && rest[j] == all[n + j];
      }
      AveragesAreSorted(rest, n);
      var middle := all[n - 1].timestamp;
      forall p <- first ensures all[0].timestamp <= p.timestamp <= middle {
        assert PointTime(p) <= PointTime(all[n - 1]) && PointTime(all[0]) <= PointTime(p);
      }
      AverageIsBetween(first, all[0].timestamp, middle);
      forall p <- rest ensures middle <= p.timestamp {
        assert PointTime(all[n - 1]) <= PointTime(p);
      }
      AveragesAreAfter(rest, n, middle);
      var groups := Averages(rest, n);
      forall i, j | 0 <= i < j < |Averages(all, n)|
        ensures CompressedTime(Averages(all, n)[i]) <= CompressedTime(Averages(all, n)[j])
      {
        assert Averages(all, n)[j] == groups[j - 1] && groups[j - 1] in groups;
        assert i > 0 ==> Averages(all, n)[i] == groups[i - 1];
      }
    }
  }

  // ---- Queries see the history ----------------------------------------------------------------

  ghost predicate ClockAdvances(calls: seq<Call>) {
    && (forall i | 0 <= i < |calls| && calls[i].Add? :: calls[i].rawNow <= calls[i].compressedNow)
    && (forall i, j | 0 <= i < j < |calls| && calls[i].Add? && calls[j].Add? ::
          calls[i].compressedNow <= calls[j].rawNow)
  }

  predicate EndsWithAdd(calls: seq<Call>) {
    calls != [] && calls[|calls| - 1].Add?
  }

  lemma OrderOfPrefix<A>(s: seq<A>, x: A, time: Clock<A>)
    requires Sorted(s + [x], time)
    ensures Sorted(s, time)
  {
    forall i, j | 0 <= i < j < |s| ensures time(s[i]) <= time(s[j]) {
      assert (s + [x])[i] == s[i] && (s + [x])[j] == s[j];
    }
  }

  /** How far back the last call trimmed, if it added a point. */
  function RawCutoff(config: Config, calls: seq<Call>): real {
    if EndsWithAdd(calls) then Before(calls[|calls| - 1].rawNow, config.rawDataMinutes) else 0.0
  }

  function CompressedCutoff(config: Config, calls: seq<Call>): real {
    if EndsWithAdd(calls) then Before(calls[|calls| - 1].compressedNow, config.compressedDataMinutes) else 0.0
  }

  /** The raw buffer's live part is the history after the last cutoff used on it. */
  lemma {:induction false} RawIsFilter(config: Config, calls: seq<Call>)
    requires ClockAdvances(calls) && Sorted(History(calls), PointTime)
    ensures Run(config, calls).raw.Live() == After(History(calls), PointTime, RawCutoff(config, calls))
  {
    if EndsWithAdd(calls) {
      var earlier, last := calls[..|calls| - 1], calls[|calls| - 1];
      var s, all := Run(config, earlier), History(earlier);
      OrderOfPrefix(all, last.point, PointTime);
      RawIsFilter(config, earlier);
      assert all == [] || earlier[|earlier| - 1] == calls[|calls| - 2];
      assert all == [] || RawCutoff(config, earlier) <= RawCutoff(config, calls);
      PushTrimIsFilter(s.raw, PointTime, all, RawCutoff(config, earlier), [last.point], RawCutoff(config, calls),
                       RAW_SLACK);
    }
  }

  /** The compressed buffer's live part is the group averages after the last cutoff used on it. */
  lemma {:induction false} CompressedIsFilter(config: Config, calls: seq<Call>)
    requires ClockAdvances(calls) && Sorted(History(calls), PointTime)
    ensures Run(config, calls).compressed.Live()
         == After(Averages(History(calls), GroupSize(config)), CompressedTime, CompressedCutoff(config, calls))
  {
    if EndsWithAdd(calls) {
      var earlier, last := calls[..|calls| - 1], calls[|calls| - 1];
      var s, all, n := Run(config, earlier), History(earlier), GroupSize(config);
      OrderOfPrefix(all, last.point, PointTime);
      CompressedIsFilter(config, earlier);
      assert all == [] || earlier[|earlier| - 1] == calls[|calls| - 2];
      assert Averages(all, n) == [] || CompressedCutoff(config, earlier) <= CompressedCutoff(config, calls);
      QueueIsPending(config, earlier);
      GroupsGrow(all, n, last.point);
      var full := Flush(config, s.queue + [last.point]);
      assert Averages(all + [last.point], n) == Averages(all, n) + full;
      AveragesAreSorted(History(calls), n);
      PushTrimIsFilter(s.compressed, CompressedTime, Averages(all, n), CompressedCutoff(config, earlier), full,
                       CompressedCutoff(config, calls), COMPRESSED_SLACK);
    }
  }

  lemma SkipFiltersTwice<A>(r: Ring<A>, all: seq<A>, time: Clock<A>, bound: real, cutoff: real)
    requires r.Valid() && r.Live() == After(all, time, bound) && Sorted(all, time)
    ensures r.buf[Skip(r.buf, time, r.head, cutoff)..] == After(all, time, if bound <= cutoff then cutoff else bound)
  {
    assert all + [] == all && After(all, time, bound) + [] == After(all, time, bound);
    AfterKeepsOrder(all, [], time, bound);
    SkipIsFilter(r, time, cutoff);
    AfterAfter(all, time, bound, cutoff);
  }

  /** A range no longer than the raw window is exactly the points added since the last clear after its cutoff. */
  lemma RecentRangeIsHistory(config: Config, calls: seq<Call>, minutes: real, now: real, later: real)
    requires ClockAdvances(calls) && Sorted(History(calls), PointTime)
    requires EndsWithAdd(calls) ==> calls[|calls| - 1].rawNow <= now
    requires minutes <= config.rawDataMinutes
    ensures RangeOf(config, Run(config, calls), minutes, now, later)
         == After(History(calls), PointTime, Before(now, minutes))
  {
    RawIsFilter(config, calls);
    SkipFiltersTwice(Run(config, calls).raw, History(calls), PointTime, RawCutoff(config, calls), Before(now, minutes));
  }

  function Max(a: real, b: real): real {
    if a <= b then b else a
  }

  /**
   A longer range is the group averages of the history between the range's cutoff (or the compressed window's, if
   that is later) and the raw window, with the raw points still kept, in one stable time order.
   */
  lemma LongRangeIsHistory(config: Config, calls: seq<Call>, minutes: real, now: real, later: real)
    requires ClockAdvances(calls) && Sorted(History(calls), PointTime)
    requires minutes > config.rawDataMinutes
    ensures RangeOf(config, Run(config, calls), minutes, now, later)
         == SortByTime(AtMost(After(Averages(History(calls), GroupSize(config)), CompressedTime,
                                    Max(CompressedCutoff(config, calls), Before(now, minutes))),
                              Before(later, config.rawDataMinutes))
                       + After(History(calls), PointTime, Max(RawCutoff(config, calls), Before(now, minutes))))
  {
    var all := History(calls);
    RawIsFilter(config, calls);
    SkipFiltersTwice(Run(config, calls).raw, all, PointTime, RawCutoff(config, calls), Before(now, minutes));
    CompressedIsFilter(config, calls);
    AveragesAreSorted(all, GroupSize(config));
    SkipFiltersTwice(Run(config, calls).compressed, Averages(all, GroupSize(config)), CompressedTime,
                     CompressedCutoff(config, calls), Before(now, minutes));
  }

  // ---- The sort -------------------------------------------------------------------------------

  /** The entries at one time, in order. */
  function AtTime(s: seq<Point>, t: real): seq<Point> {
    if s == [] then []
    else AtTime(s[..|s| - 1], t) + if s[|s| - 1].timestamp == t then [s[|s| - 1]] else []
  }

  lemma {:induction false} InsertIsSorted(s: seq<Point>, x: Point)
    requires Sorted(s, PointTime)
    ensures Sorted(Insert(s, x), PointTime)
    ensures forall p <- Insert(s, x) :: p == x || p in s
  {
    if s == [] || s[|s| - 1].timestamp <= x.timestamp {
      forall i, j | 0 <= i < j < |s + [x]| ensures PointTime((s + [x])[i]) <= PointTime((s + [x])[j]) {
        assert i < |s| - 1 ==> PointTime(s[i]) <= PointTime(s[|s| - 1]);
      }
    } else {
      var front, last := s[..|s| - 1], s[|s| - 1];
      InsertIsSorted(front, x);
      forall p <- Insert(front, x) ensures PointTime(p) <= PointTime(last) {
        if p in front {
          var i :| 0 <= i < |front| && front[i] == p;
          assert PointTime(s[i]) <= PointTime(s[|s| - 1]);
        }
      }
    }
  }

  lemma {:induction false} InsertIsStable(s: seq<Point>, x: Point, t: real)
    requires Sorted(s, PointTime)
    ensures AtTime(Insert(s, x), t) == AtTime(s + [x], t)
  {
    assert (s + [x])[..|s + [x]| - 1] == s;
    if s != [] && s[|s| - 1].timestamp > x.timestamp {
      var front, last := s[..|s| - 1], s[|s| - 1];
      InsertIsStable(front, x, t);
      assert (front + [x])[..|front + [x]| - 1] == front;
      var put := Insert(front, x);
      assert (put + [last])[..|put + [last]| - 1] == put;
    }
  }

  /** Sorting puts the points in time order and keeps the order of points at one time, losing none. */
  lemma {:induction false} SortIsStable(s: seq<Point>, t: real)
    ensures Sorted(SortByTime(s), PointTime)
    ensures AtTime(SortByTime(s), t) == AtTime(s, t)
  {
    if s != [] {
      var front, last := s[..|s| - 1], s[|s| - 1];
      SortIsStable(front, t);
      InsertIsSorted(SortByTime(front), last);
      InsertIsStable(SortByTime(front), last, t);
      var before := SortByTime(front);
      assert (before + [last])[..|before + [last]| - 1] == before;
    }
  }

  lemma {:induction false} AtTimeFinds(s: seq<Point>, p: Point)
    requires p in s
    ensures p in AtTime(s, p.timestamp)
  {
    if p != s[|s| - 1] {
      AtTimeFinds(s[..|s| - 1], p);
    }
  }

  lemma {:induction false} AtTimeIsWithin(s: seq<Point>, t: real)
    ensures forall p <- AtTime(s, t) :: p in s && p.timestamp == t
  {
    if s != [] {
      AtTimeIsWithin(s[..|s| - 1], t);
    }
  }

  lemma LatestIsAtLeast(a: seq<Point>, b: seq<Point>)
    requires a != [] && b != [] && Sorted(b, PointTime)
    requires AtTime(a, a[|a| - 1].timestamp) == AtTime(b, a[|a| - 1].timestamp)
    ensures a[|a| - 1].timestamp <= b[|b| - 1].timestamp
  {
    var last := a[|a| - 1];
    AtTimeFinds(a, last);
    AtTimeIsWithin(b, last.timestamp);
    var i :| 0 <= i < |b| && b[i] == last;
    assert i < |b| - 1 ==> PointTime(b[i]) <= PointTime(b[|b| - 1]);
  }

  lemma FrontsAgree(a: seq<Point>, b: seq<Point>, x: Point, t: real)
    requires AtTime(a + [x], t) == AtTime(b + [x], t)
    ensures AtTime(a, t) == AtTime(b, t)
  {
    AtTimeGrows(a, x, t);
    AtTimeGrows(b, x, t);
    var more := if x.timestamp == t then [x] else [];
    assert AtTime(a, t) == AtTime(a + [x], t)[..|AtTime(a + [x], t)| - |more|];
    assert AtTime(b, t) == AtTime(b + [x], t)[..|AtTime(b + [x], t)| - |more|];
  }

  lemma AtTimeGrows(s: seq<Point>, x: Point, t: real)
    ensures AtTime(s + [x], t) == AtTime(s, t) + if x.timestamp == t then [x] else []
  {
    assert (s + [x])[..|s + [x]| - 1] == s;
  }

  lemma LastAtItsTime(s: seq<Point>, x: Point)
    ensures var t := AtTime(s + [x], x.timestamp); t != [] && t[|t| - 1] == x
  {
    AtTimeGrows(s, x, x.timestamp);
  }

  lemma LastsAgree(a: seq<Point>, x: Point, b: seq<Point>, y: Point)
    requires Sorted(a + [x], PointTime) && Sorted(b + [y], PointTime)
    requires AtTime(a + [x], x.timestamp) == AtTime(b + [y], x.timestamp)
    requires AtTime(a + [x], y.timestamp) == AtTime(b + [y], y.timestamp)
    ensures x == y
  {
    LatestIsAtLeast(a + [x], b + [y]);
    LatestIsAtLeast(b + [y], a + [x]);
    LastAtItsTime(a, x);
    LastAtItsTime(b, y);
  }

  lemma BothEmpty(a: seq<Point>, b: seq<Point>)
    requires a == [] && forall t :: AtTime(a, t) == AtTime(b, t)
    ensures b == []
  {
    if b != [] {
      AtTimeFinds(b, b[0]);
    }
  }

  /** Time order and the order at each time determine the result: any other stable sort gives the same list. */
  lemma {:induction false} StableSortIsUnique(a: seq<Point>, b: seq<Point>)
    requires Sorted(a, PointTime) && Sorted(b, PointTime)
    requires forall t :: AtTime(a, t) == AtTime(b, t)
    ensures a == b
  {
    if a == [] {
      BothEmpty(a, b);
    } else if b == [] {
      BothEmpty(b, a);
    } else {
      var a', b', x := a[..|a| - 1], b[..|b| - 1], a[|a| - 1];
      assert a == a' + [x] && b == b' + [b[|b| - 1]];
      LastsAgree(a', x, b', b[|b| - 1]);
      OrderOfPrefix(a', x, PointTime);
      OrderOfPrefix(b', x, PointTime);
      forall t ensures AtTime(a', t) == AtTime(b', t) {
        FrontsAgree(a', b', x, t);
      }
      StableSortIsUnique(a', b');
    }
  }
}
