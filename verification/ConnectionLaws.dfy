/** Whole runs of the connection monitor: its closed history and the traffic it attributes to each connection. */
module ConnectionLaws {
  import opened Basics
  import opened Connections

  datatype Event = Snapshot(payload: Payload) | ClearClosed

  ghost predicate Steps(m: Monitor, event: Event, m': Monitor) {
    match event
    case Snapshot(payload) => IsMerge(m', payload, m)
    case ClearClosed => m' == m.(closed := [])
  }

  ghost predicate StepAt(ms: seq<Monitor>, events: seq<Event>, k: nat)
    requires |ms| == |events| + 1 && k < |events|
  {
    Steps(ms[k], events[k], ms[k + 1])
  }

  ghost predicate IsRun(ms: seq<Monitor>, events: seq<Event>) {
    && |ms| == |events| + 1
    && ms[0] == INITIAL
    && forall k | 0 <= k < |events| :: StepAt(ms, events, k)
  }

  predicate DistinctRaw(next: seq<RawConnection>) {
    forall i, j | 0 <= i < j < |next| :: next[i].id != next[j].id
  }

  predicate Distinct(active: seq<Connection>) {
    forall i, j | 0 <= i < j < |active| :: active[i].id != active[j].id
  }

  predicate DistinctEvent(event: Event) {
    event.Snapshot? ==> DistinctRaw(event.payload.connections.GetOr([]))
  }

  // ---- The closed history ---------------------------------------------------------------------

  lemma DistinctGrows(front: seq<Connection>, last: Connection)
    ensures Distinct(front + [last]) <==> Distinct(front) && last.id !in Ids(front)
    ensures Ids(front + [last]) == Ids(front) + {last.id}
  {
    var s := front + [last];
    if Distinct(front) && last.id !in Ids(front) {
      forall i, j | 0 <= i < j < |s| ensures s[i].id != s[j].id {
        assert s[i] == front[i] && front[i] in front;
      }
    }
    if Distinct(s) {
      forall i, j | 0 <= i < j < |front| ensures front[i].id != front[j].id {
        assert s[i] == front[i] && s[j] == front[j];
      }
      forall c <- front ensures c.id != last.id {
        var i :| 0 <= i < |front| && front[i] == c;
        assert s[i] == c && s[|front|] == last;
      }
    }
  }

  lemma {:induction false} IdsCountIff(s: seq<Connection>)
    ensures |Ids(s)| == |s| <==> Distinct(s)
  {
    if s != [] {
      var front, last := s[..|s| - 1], s[|s| - 1];
      IdsCountIff(front);
      IdsAreFewer(front);
      assert s == front + [last];
      DistinctGrows(front, last);
    }
  }

  lemma {:induction false} DepartedAreDistinct(active: seq<Connection>, next: set<string>)
    requires Distinct(active)
    ensures Distinct(Departed(active, next))
  {
    if active != [] {
      var front, last := active[..|active| - 1], active[|active| - 1];
      DepartedAreDistinct(front, next);
      DepartedIff(front, next);
      var gone := Departed(front, next);
      forall i | 0 <= i < |gone| ensures gone[i].id != last.id {
        assert gone[i] in front;
      }
    }
  }

  /** The last entries, as many as the history may hold. */
  function Latest(log: seq<Connection>): seq<Connection> {
    if |log| <= MAX_CLOSED_CONNS_NUM then log else log[|log| - MAX_CLOSED_CONNS_NUM..]
  }

  lemma DropOfConcat(a: seq<Connection>, b: seq<Connection>, k: nat)
    requires k <= |a| + |b|
    ensures (a + b)[k..] == if k <= |a| then a[k..] + b else b[k - |a|..]
  {
  }

  lemma ClosedIsLatest(log: seq<Connection>, gone: seq<Connection>)
    ensures ClosedAfter(Latest(log), gone, |gone|) == Latest(log + gone)
  {
    var max := MAX_CLOSED_CONNS_NUM;
    if |gone| == 0 {
      assert log + gone == log;
    } else if |log| + |gone| <= max {
      assert log[0..] == log && gone[0..] == gone;
    } else {
      DropOfConcat(log, gone, |log| + |gone| - max);
      LatestDrops(log, |gone|);
      assert gone[0..] == gone;
    }
  }

  /** Making room for more entries in the latest ones is taking fewer latest ones. */
  lemma LatestDrops(log: seq<Connection>, count: nat)
    requires |log| + count > MAX_CLOSED_CONNS_NUM
    ensures var drop := |Latest(log)| + count - MAX_CLOSED_CONNS_NUM;
            && (drop >= |Latest(log)| <==> count >= MAX_CLOSED_CONNS_NUM)
            && (count < MAX_CLOSED_CONNS_NUM ==>
                  0 <= drop && Latest(log)[drop..] == log[|log| + count - MAX_CLOSED_CONNS_NUM..])
  {
  }

  /** Every departure since the history was last cleared, in order. */
  ghost function Log(ms: seq<Monitor>, events: seq<Event>): seq<Connection>
    requires |ms| == |events| + 1
  {
    if events == [] then []
    else
      var n := |events| - 1;
      match events[n]
      case Snapshot(payload) =>
        Log(ms[..n + 1], events[..n]) + Departed(ms[n].active, RawIds(payload.connections.GetOr([])))
      case ClearClosed => []
  }

  lemma PrefixIsRun(ms: seq<Monitor>, events: seq<Event>)
    requires IsRun(ms, events) && events != []
    ensures IsRun(ms[..|events|], events[..|events| - 1])
  {
    var ms', events' := ms[..|events|], events[..|events| - 1];
    forall k | 0 <= k < |events'| ensures StepAt(ms', events', k) {
      assert StepAt(ms, events, k);
    }
  }

  lemma MergeIsDistinct(m: Monitor, payload: Payload, m': Monitor)
    requires IsMerge(m', payload, m) && DistinctRaw(payload.connections.GetOr([]))
    ensures Distinct(m'.active)
  {
  }

  lemma {:induction false} ActiveIsDistinct(ms: seq<Monitor>, events: seq<Event>)
    requires IsRun(ms, events) && forall event <- events :: DistinctEvent(event)
    ensures Distinct(ms[|events|].active)
  {
    if events != [] {
      var n := |events| - 1;
      PrefixIsRun(ms, events);
      ActiveIsDistinct(ms[..n + 1], events[..n]);
      assert StepAt(ms, events, n) && DistinctEvent(events[n]);
      if events[n].Snapshot? {
        MergeIsDistinct(ms[n], events[n].payload, ms[n + 1]);
      }
    }
  }

  /**
   Over any run of snapshots whose ids are distinct, the closed history is the latest 500 departures since it was
   last cleared, in the order they departed.
   */
  lemma {:induction false} HistoryIsLatestDepartures(ms: seq<Monitor>, events: seq<Event>)
    requires IsRun(ms, events) && forall event <- events :: DistinctEvent(event)
    ensures ms[|events|].closed == Latest(Log(ms, events))
  {
    if events != [] {
      var n := |events| - 1;
      PrefixIsRun(ms, events);
      var before, earlier := ms[..n + 1], events[..n];
      HistoryIsLatestDepartures(before, earlier);
      ActiveIsDistinct(before, earlier);
      assert StepAt(ms, events, n);
      if events[n].Snapshot? {
        var gone := Departed(ms[n].active, RawIds(events[n].payload.connections.GetOr([])));
        DepartedAreDistinct(ms[n].active, RawIds(events[n].payload.connections.GetOr([])));
        IdsCountIff(gone);
        ClosedIsLatest(Log(before, earlier), gone);
      }
    }
  }

  /** One merge keeps the history within its bound exactly when there is room or no id departs twice. */
  lemma BoundKeptIff(m: Monitor, payload: Payload, m': Monitor)
    requires IsMerge(m', payload, m) && |m.closed| <= 500
    ensures |m'.closed| <= 500
       <==> var gone := Departed(m.active, RawIds(payload.connections.GetOr([])));
            |m.closed| + |gone| <= 500 || Distinct(gone)
  {
    var gone := Departed(m.active, RawIds(payload.connections.GetOr([])));
    IdsAreFewer(gone);
    IdsCountIff(gone);
    assert gone != [] ==> gone[0].id in Ids(gone);
  }

  /** A run goes on with one more event. */
  lemma RunGrows(ms: seq<Monitor>, events: seq<Event>, event: Event, m: Monitor)
    requires IsRun(ms, events) && Steps(ms[|events|], event, m)
    ensures IsRun(ms + [m], events + [event])
  {
    var ms', events' := ms + [m], events + [event];
    forall k | 0 <= k < |events'| ensures StepAt(ms', events', k) {
      if k < |events| {
        assert StepAt(ms, events, k);
      }
    }
  }

  function Listing(connections: seq<RawConnection>): Payload {
    Payload(Some(connections), None, None)
  }

  /** With nothing active before, a snapshot shows its connections as new and closes nothing. */
  lemma ShowNew(closed: seq<Connection>, next: seq<RawConnection>, c: Connection)
    requires forall raw <- next :: FreshConnection(raw, None) == c
    ensures IsMerge(Monitor(0, 0, seq(|next|, _ => c), closed), Listing(next), Monitor(0, 0, [], closed))
  {
    assert Ids([]) == {};
    forall i | 0 <= i < |next| ensures FreshConnection(next[i], Predecessor(next, i, ById([]))) == c {
      assert next[i] in next;
    }
  }

  /** An empty snapshot closes them all. */
  lemma CloseAll(m: Monitor)
    ensures |Ids(m.active)| <= |m.active|
    ensures IsMerge(Monitor(0, 0, [], ClosedAfter(m.closed, m.active, |Ids(m.active)|)), Listing([]), m)
  {
    assert RawIds([]) == {};
    AllDeparted(m.active);
    IdsAreFewer(m.active);
  }

  lemma {:induction false} AllDeparted(active: seq<Connection>)
    ensures Departed(active, {}) == active
  {
    if active != [] {
      AllDeparted(active[..|active| - 1]);
      assert active == active[..|active| - 1] + [active[|active| - 1]];
    }
  }

  lemma OneMoreFits(c: Connection, n: nat)
    requires n < MAX_CLOSED_CONNS_NUM
    ensures ClosedAfter(seq(n, _ => c), [c], 1) == seq(n + 1, _ => c)
  {
    var closed := seq(n, _ => c);
    assert closed[0..] == closed && [c][0..] == [c];
  }

  /** Shown by one snapshot and gone with the next. */
  lemma OneVisit(ms: seq<Monitor>, events: seq<Event>, raw: RawConnection, n: nat)
    returns (ms': seq<Monitor>, events': seq<Event>)
    requires n < MAX_CLOSED_CONNS_NUM && IsRun(ms, events)
    requires ms[|events|] == Monitor(0, 0, [], seq(n, _ => FreshConnection(raw, None)))
    ensures IsRun(ms', events')
    ensures ms'[|events'|] == Monitor(0, 0, [], seq(n + 1, _ => FreshConnection(raw, None)))
  {
    var c := FreshConnection(raw, None);
    var closed := seq(n, _ => c);
    var shown, gone := Monitor(0, 0, [c], closed), Monitor(0, 0, [], seq(n + 1, _ => c));
    ShowNew(closed, [raw], c);
    assert seq(1, _ => c) == [c];
    RunGrows(ms, events, Snapshot(Listing([raw])), shown);
    ms', events' := ms + [shown], events + [Snapshot(Listing([raw]))];
    CloseAll(shown);
    assert Ids([c]) == {c.id};
    OneMoreFits(c, n);
    RunGrows(ms', events', Snapshot(Listing([])), gone);
    ms', events' := ms' + [gone], events' + [Snapshot(Listing([]))];
  }

  /** A connection that comes and goes `n` times leaves `n` entries, as long as they fit. */
  lemma {:induction false} ComesAndGoes(raw: RawConnection, n: nat) returns (ms: seq<Monitor>, events: seq<Event>)
    requires n <= MAX_CLOSED_CONNS_NUM
    ensures IsRun(ms, events)
    ensures ms[|events|] == Monitor(0, 0, [], seq(n, _ => FreshConnection(raw, None)))
  {
    if n == 0 {
      ms, events := [INITIAL], [];
      assert seq(0, _ => FreshConnection(raw, None)) == [];
    } else {
      ms, events := ComesAndGoes(raw, n - 1);
      ms, events := OneVisit(ms, events, raw, n - 1);
    }
  }

  /**
   A run that overflows, from the initial state: a connection comes and goes until the history is full, then one
   snapshot lists its id twice and the next lists nothing.
   */
  lemma RepeatedIdOverflows(raw: RawConnection) returns (ms: seq<Monitor>, events: seq<Event>)
    ensures IsRun(ms, events)
    ensures |ms[|events|].closed| == 501
  {
    var c := FreshConnection(raw, None);
    ms, events := ComesAndGoes(raw, MAX_CLOSED_CONNS_NUM);
    var closed := seq(MAX_CLOSED_CONNS_NUM, _ => c);
    var twice := Monitor(0, 0, [c, c], closed);
    ShowNew(closed, [raw, raw], c);
    assert seq(2, _ => c) == [c, c];
    RunGrows(ms, events, Snapshot(Listing([raw, raw])), twice);
    ms, events := ms + [twice], events + [Snapshot(Listing([raw, raw]))];
    CloseAll(twice);
    assert Ids([c, c]) == {c.id};
    var last := Monitor(0, 0, [], ClosedAfter(closed, [c, c], 1));
    RunGrows(ms, events, Snapshot(Listing([])), last);
    ms, events := ms + [last], events + [Snapshot(Listing([]))];
  }

  // ---- Traffic of one connection --------------------------------------------------------------

  predicate Present(m: Monitor, id: string) {
    id in ById(m.active)
  }

  function Entry(m: Monitor, id: string): Connection
    requires Present(m, id)
  {
    ById(m.active)[id]
  }

  lemma {:induction false} EntryIsUnique(active: seq<Connection>, i: nat)
    requires Distinct(active) && i < |active|
    ensures active[i].id in ById(active) && ById(active)[active[i].id] == active[i]
  {
    var front := active[..|active| - 1];
    if i < |front| {
      EntryIsUnique(front, i);
      assert active[i] == front[i];
    }
  }

  lemma MergeEntry(m: Monitor, payload: Payload, m': Monitor, id: string) returns (i: nat)
    requires IsMerge(m', payload, m) && DistinctRaw(payload.connections.GetOr([]))
    requires Present(m', id)
    ensures var next := payload.connections.GetOr([]);
            i < |next| && next[i].id == id && id !in RawIds(next[..i])
            && Entry(m', id) == FreshConnection(next[i], Predecessor(next, i, ById(m.active)))
  {
    var next := payload.connections.GetOr([]);
    var entry := Entry(m', id);
    assert entry.id == id && entry in m'.active by { ByIdHolds(m'.active); }
    i :| 0 <= i < |m'.active| && m'.active[i] == entry;
    assert entry == FreshConnection(next[i], Predecessor(next, i, ById(m.active)));
    FirstOfItsId(next, i);
  }

  lemma FirstOfItsId(next: seq<RawConnection>, i: nat)
    requires DistinctRaw(next) && i < |next|
    ensures next[i].id !in RawIds(next[..i])
  {
    forall c <- next[..i] ensures c.id != next[i].id {
      var k :| 0 <= k < i && next[k] == c;
    }
  }

  /** A connection's traffic since the last snapshot is the growth of its counters, or nothing if it is new. */
  lemma MergeGivesGrowth(m: Monitor, payload: Payload, m': Monitor, id: string)
    requires IsMerge(m', payload, m) && DistinctRaw(payload.connections.GetOr([]))
    requires Present(m', id)
    ensures var before, after := (if Present(m, id) then Entry(m, id) else Entry(m', id)), Entry(m', id);
            && after.curUpload == after.upload - before.upload
            && after.curDownload == after.download - before.download
  {
    var i := MergeEntry(m, payload, m', id);
  }

  /** Traffic since the last snapshot, summed over the snapshots from one point of a run to another. */
  ghost function UploadSum(ms: seq<Monitor>, events: seq<Event>, first: nat, last: nat, id: string): int
    requires |ms| == |events| + 1 && first <= last <= |events|
    requires forall k | first <= k <= last :: Present(ms[k], id)
    decreases last
  {
    if first == last then 0
    else
      UploadSum(ms, events, first, last - 1, id)
      + if events[last - 1].Snapshot? then Entry(ms[last], id).curUpload else 0
  }

  ghost function DownloadSum(ms: seq<Monitor>, events: seq<Event>, first: nat, last: nat, id: string): int
    requires |ms| == |events| + 1 && first <= last <= |events|
    requires forall k | first <= k <= last :: Present(ms[k], id)
    decreases last
  {
    if first == last then 0
    else
      DownloadSum(ms, events, first, last - 1, id)
      + if events[last - 1].Snapshot? then Entry(ms[last], id).curDownload else 0
  }

  /** While a connection stays, what is attributed to it adds up to its last counters minus its first. */
  lemma {:induction false} TrafficAddsUp(ms: seq<Monitor>, events: seq<Event>, first: nat, last: nat, id: string)
    requires IsRun(ms, events) && first <= last <= |events|
    requires forall event <- events :: DistinctEvent(event)
    requires forall k | first <= k <= last :: Present(ms[k], id)
    ensures UploadSum(ms, events, first, last, id) == Entry(ms[last], id).upload - Entry(ms[first], id).upload
    ensures DownloadSum(ms, events, first, last, id) == Entry(ms[last], id).download - Entry(ms[first], id).download
    decreases last
  {
    if first < last {
      TrafficAddsUp(ms, events, first, last - 1, id);
      var event := events[last - 1];
      assert StepAt(ms, events, last - 1) && DistinctEvent(event);
      if event.Snapshot? {
        MergeGivesGrowth(ms[last - 1], event.payload, ms[last], id);
      }
    }
  }
}
