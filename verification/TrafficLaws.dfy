/** What the connection monitor shows, in terms of the payloads it was given. */
module TrafficLaws {
  import opened Basics
  import opened Connections
  import opened ConnectionLaws

  // ---- What a merge shows of the payload ------------------------------------------------------

  /** The text reported, or the empty one. */
  function Text(reported: Option<string>): string {
    if reported.Some? then reported.value else ""
  }

  function Count(reported: Option<int>): int {
    if reported.Some? then reported.value else 0
  }

  predicate ShowsMetadata(shown: Metadata, raw: RawMetadata) {
    && shown.network == Text(raw.network)
    && shown.connectionType == Text(raw.connectionType)
    && shown.host == Text(raw.host)
    && shown.sourceIP == Text(raw.sourceIP)
    && shown.sourcePort == Text(raw.sourcePort)
    && shown.destinationPort == Text(raw.destinationPort)
    && shown.destinationIP == Text(raw.destinationIP)
    && shown.remoteDestination == Text(raw.remoteDestination)
    && shown.process == Text(raw.process)
    && shown.processPath == Text(raw.processPath)
  }

  predicate Shows(shown: Connection, raw: RawConnection) {
    && shown.id == raw.id && ShowsMetadata(shown.metadata, raw.metadata)
    && shown.upload == Count(raw.upload) && shown.download == Count(raw.download)
    && shown.start == Text(raw.start) && shown.rule == Text(raw.rule) && shown.rulePayload == Text(raw.rulePayload)
    && shown.chains == if raw.chains.Some? then raw.chains.value else []
  }

  /** Every entry shows its own line of the payload, and the totals are the payload's. */
  lemma MergeShowsPayload(m: Monitor, payload: Payload, m': Monitor)
    requires IsMerge(m', payload, m)
    ensures var next := payload.connections.GetOr([]);
      && |m'.active| == |next| && (forall i | 0 <= i < |next| :: Shows(m'.active[i], next[i]))
      && m'.uploadTotal == Count(payload.uploadTotal) && m'.downloadTotal == Count(payload.downloadTotal)
  {
    var next := payload.connections.GetOr([]);
    forall i | 0 <= i < |next| ensures Shows(m'.active[i], next[i]) {
      assert m'.active[i] == FreshConnection(next[i], Predecessor(next, i, ById(m.active)));
    }
  }

  /** Entry `j` is the last one with this id. */
  predicate LastOf(active: seq<Connection>, j: nat, id: string) {
    j < |active| && active[j].id == id && forall k | j < k < |active| :: active[k].id != id
  }

  lemma {:induction false} ByIdIsLast(active: seq<Connection>, j: nat, id: string)
    requires LastOf(active, j, id)
    ensures id in ById(active) && ById(active)[id] == active[j]
  {
    var n := |active| - 1;
    if j < n {
      assert forall k | 0 <= k < n :: active[..n][k] == active[k];
      ByIdIsLast(active[..n], j, id);
    }
  }

  /** No earlier line of the payload has the id of line `i`. */
  predicate FirstLine(next: seq<RawConnection>, i: nat)
    requires i < |next|
  {
    forall k | 0 <= k < i :: next[k].id != next[i].id
  }

  lemma FirstLineIff(next: seq<RawConnection>, i: nat)
    requires i < |next|
    ensures next[i].id in RawIds(next[..i]) <==> !FirstLine(next, i)
  {
    if !FirstLine(next, i) {
      var k :| 0 <= k < i && next[k].id == next[i].id;
      assert next[..i][k] == next[k] && next[k] in next[..i];
    }
    if next[i].id in RawIds(next[..i]) {
      var c :| c in next[..i] && c.id == next[i].id;
      var k :| 0 <= k < i && next[..i][k] == c;
      assert next[k].id == next[i].id;
    }
  }

  /**
   Current traffic, for every payload, ids repeated or not: the first line of an id has grown since the last entry
   with that id in the snapshot before; a later line, or a line with a new id, counts as new.
   */
  lemma MergeGivesGrowthSinceLast(m: Monitor, payload: Payload, m': Monitor, i: nat)
    requires IsMerge(m', payload, m) && i < |payload.connections.GetOr([])|
    ensures |m'.active| == |payload.connections.GetOr([])|
    ensures var (next, shown) := (payload.connections.GetOr([]), m'.active[i]);
      && (forall j: nat | FirstLine(next, i) && LastOf(m.active, j, next[i].id) ::
            && shown.curUpload == Count(next[i].upload) - m.active[j].upload
            && shown.curDownload == Count(next[i].download) - m.active[j].download)
      && (!FirstLine(next, i) || (forall c <- m.active :: c.id != next[i].id) ==>
            shown.curUpload == 0 && shown.curDownload == 0)
  {
    var next := payload.connections.GetOr([]);
    assert m'.active[i] == FreshConnection(next[i], Predecessor(next, i, ById(m.active)));
    FirstLineIff(next, i);
    ByIdHolds(m.active);
    forall j: nat | LastOf(m.active, j, next[i].id)
      ensures next[i].id in ById(m.active) && ById(m.active)[next[i].id] == m.active[j]
    {
      ByIdIsLast(m.active, j, next[i].id);
    }
  }

  // ---- Traffic in terms of the payloads -------------------------------------------------------

  /** The last line with this id. */
  function LineOf(next: seq<RawConnection>, id: string): Option<RawConnection> {
    if next == [] then None
    else if next[|next| - 1].id == id then Some(next[|next| - 1])
    else LineOf(next[..|next| - 1], id)
  }

  /** What the latest of the first `n` events that is a snapshot reported of a connection. */
  function Reported(events: seq<Event>, n: nat, id: string): Option<RawConnection>
    requires n <= |events|
  {
    if n == 0 then None
    else match events[n - 1]
      case Snapshot(payload) => LineOf(payload.connections.GetOr([]), id)
      case ClearClosed => Reported(events, n - 1, id)
  }

  lemma {:induction false} ShownLine(active: seq<Connection>, next: seq<RawConnection>, id: string)
    requires |active| == |next| && forall i | 0 <= i < |next| :: Shows(active[i], next[i])
    ensures id in ById(active) <==> LineOf(next, id).Some?
    ensures id in ById(active) ==> Shows(ById(active)[id], LineOf(next, id).value)
  {
    if next != [] {
      var n := |next| - 1;
      assert forall i | 0 <= i < n :: active[..n][i] == active[i] && next[..n][i] == next[i];
      ShownLine(active[..n], next[..n], id);
    }
  }

  /** In every state of a run, what is shown of a connection is what was last reported of it. */
  lemma {:induction false} EntryIsReported(ms: seq<Monitor>, events: seq<Event>, n: nat, id: string)
    requires IsRun(ms, events) && n <= |events|
    ensures Present(ms[n], id) <==> Reported(events, n, id).Some?
    ensures Present(ms[n], id) ==> Shows(Entry(ms[n], id), Reported(events, n, id).value)
  {
    if n > 0 {
      assert StepAt(ms, events, n - 1);
      match events[n - 1] {
        case Snapshot(payload) =>
          MergeShowsPayload(ms[n - 1], payload, ms[n]);
          ShownLine(ms[n].active, payload.connections.GetOr([]), id);
        case ClearClosed => EntryIsReported(ms, events, n - 1, id);
      }
    }
  }

  /**
   While a connection is reported, the traffic shown for it adds up to the last counters reported for it minus the
   first ones.
   */
  lemma ReportedTrafficAddsUp(ms: seq<Monitor>, events: seq<Event>, first: nat, last: nat, id: string)
    requires IsRun(ms, events) && first <= last <= |events|
    requires forall event <- events :: DistinctEvent(event)
    requires forall k | first <= k <= last :: Reported(events, k, id).Some?
    ensures forall k | first <= k <= last :: Present(ms[k], id)
    ensures var from, until := Reported(events, first, id).value, Reported(events, last, id).value;
      && UploadSum(ms, events, first, last, id) == Count(until.upload) - Count(from.upload)
      && DownloadSum(ms, events, first, last, id) == Count(until.download) - Count(from.download)
  {
    forall k | first <= k <= last ensures Present(ms[k], id) {
      EntryIsReported(ms, events, k, id);
    }
    TrafficAddsUp(ms, events, first, last, id);
    EntryIsReported(ms, events, first, id);
    EntryIsReported(ms, events, last, id);
  }

  /** The departures keep their order: they are those of any front of the list followed by those of the rest. */
  lemma {:induction false} DepartedAppend(a: seq<Connection>, b: seq<Connection>, next: set<string>)
    ensures Departed(a + b, next) == Departed(a, next) + Departed(b, next)
  {
    if b == [] {
      assert a + b == a;
    } else {
      assert (a + b)[..|a + b| - 1] == a + b[..|b| - 1];
      DepartedAppend(a, b[..|b| - 1], next);
    }
  }
}
