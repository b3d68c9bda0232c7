/**
 The connection monitor of src/hooks/use-connection-data.ts: each snapshot of open connections is compared with
 the one before, which gives the traffic since then and a bounded history of connections that have gone.
 */
module Connections {
  import opened Basics

  const MAX_CLOSED_CONNS_NUM: nat := 500

  datatype RawMetadata = RawMetadata(
    network: Option<string>, connectionType: Option<string>, host: Option<string>,
    sourceIP: Option<string>, sourcePort: Option<string>,
    destinationPort: Option<string>, destinationIP: Option<string>, remoteDestination: Option<string>,
    process: Option<string>, processPath: Option<string>)

  datatype Metadata = Metadata(
    network: string, connectionType: string, host: string,
    sourceIP: string, sourcePort: string,
    destinationPort: string, destinationIP: string, remoteDestination: string,
    process: string, processPath: string)

  datatype RawConnection = RawConnection(
    id: string, metadata: RawMetadata, upload: Option<int>, download: Option<int>, start: Option<string>,
    chains: Option<seq<string>>, rule: Option<string>, rulePayload: Option<string>)

  datatype Connection = Connection(
    id: string, metadata: Metadata, upload: int, download: int, start: string,
    chains: seq<string>, rule: string, rulePayload: string, curUpload: int, curDownload: int)

  datatype Payload = Payload(
    connections: Option<seq<RawConnection>>, uploadTotal: Option<int>, downloadTotal: Option<int>)

  datatype Monitor = Monitor(uploadTotal: int, downloadTotal: int, active: seq<Connection>, closed: seq<Connection>)

  const INITIAL: Monitor := Monitor(0, 0, [], [])

  // ---- Normalising one connection -------------------------------------------------------------

  /** A result and whether it is the previous object itself. */
  datatype Shared<T> = Shared(value: T, same: bool)

  predicate SameMetadata(left: Metadata, right: RawMetadata) {
    && left.network == right.network.GetOr("")
    && left.connectionType == right.connectionType.GetOr("")
    && left.host == right.host.GetOr("")
    && left.sourceIP == right.sourceIP.GetOr("")
    && left.sourcePort == right.sourcePort.GetOr("")
    && left.destinationPort == right.destinationPort.GetOr("")
    && left.destinationIP == right.destinationIP.GetOr("")
    && left.remoteDestination == right.remoteDestination.GetOr("")
    && left.process == right.process.GetOr("")
    && left.processPath == right.processPath.GetOr("")
  }

  function FreshMetadata(raw: RawMetadata): Metadata {
    Metadata(raw.network.GetOr(""), raw.connectionType.GetOr(""), raw.host.GetOr(""),
             raw.sourceIP.GetOr(""), raw.sourcePort.GetOr(""),
             raw.destinationPort.GetOr(""), raw.destinationIP.GetOr(""), raw.remoteDestination.GetOr(""),
             raw.process.GetOr(""), raw.processPath.GetOr(""))
  }

  function NormalizeMetadata(raw: RawMetadata, previous: Option<Metadata>): Shared<Metadata> {
    if previous.Some? && SameMetadata(previous.value, raw) then Shared(previous.value, true)
    else Shared(FreshMetadata(raw), false)
  }

  method SameChains(left: seq<string>, right: seq<string>) returns (same: bool)
    ensures same <==> left == right
  {
    if |left| != |right| {
      return false;
    }
    var i := 0;
    while i < |left|
      invariant i <= |left| && left[..i] == right[..i]
    {
      if left[i] != right[i] {
        return false;
      }
      i := i + 1;
    }
    return true;
  }

  function NormalizeChains(chains: seq<string>, previous: Option<seq<string>>): Shared<seq<string>> {
    if previous.Some? && previous.value == chains then Shared(previous.value, true) else Shared(chains, false)
  }

  /** What a connection looks like from a snapshot and its entry in the snapshot before, built afresh. */
  function FreshConnection(raw: RawConnection, previous: Option<Connection>): Connection {
    var upload, download := raw.upload.GetOr(0), raw.download.GetOr(0);
    Connection(raw.id, FreshMetadata(raw.metadata), upload, download, raw.start.GetOr(""),
               raw.chains.GetOr([]), raw.rule.GetOr(""), raw.rulePayload.GetOr(""),
               if previous.Some? then upload - previous.value.upload else 0,
               if previous.Some? then download - previous.value.download else 0)
  }

  function NormalizeConnection(raw: RawConnection, previous: Option<Connection>): Shared<Connection> {
    var metadata := NormalizeMetadata(raw.metadata, if previous.Some? then Some(previous.value.metadata) else None);
    var chains := NormalizeChains(raw.chains.GetOr([]), if previous.Some? then Some(previous.value.chains) else None);
    var upload, download := raw.upload.GetOr(0), raw.download.GetOr(0);
    var curUpload := if previous.Some? then upload - previous.value.upload else 0;
    var curDownload := if previous.Some? then download - previous.value.download else 0;
    var rule, rulePayload, start := raw.rule.GetOr(""), raw.rulePayload.GetOr(""), raw.start.GetOr("");
    if previous.Some? && metadata.same && chains.same
       && previous.value.upload == upload && previous.value.download == download
       && previous.value.curUpload == curUpload && previous.value.curDownload == curDownload
       && previous.value.rule == rule && previous.value.rulePayload == rulePayload && previous.value.start == start
    then Shared(previous.value, true)
    else Shared(Connection(raw.id, metadata.value, upload, download, start, chains.value, rule, rulePayload,
                           curUpload, curDownload), false)
  }

  /** Sharing objects never shows: the value is the fresh one, and the object is kept exactly when nothing changed. */
  lemma SharingIsInvisible(raw: RawConnection, previous: Option<Connection>)
    requires previous.Some? ==> previous.value.id == raw.id
    ensures NormalizeConnection(raw, previous).value == FreshConnection(raw, previous)
    ensures NormalizeConnection(raw, previous).same
       <==> previous.Some? && FreshConnection(raw, previous) == previous.value
  {
  }

  // ---- Comparing snapshots --------------------------------------------------------------------

  /** The connections of a snapshot by id; the last one wins. */
  function ById(active: seq<Connection>): map<string, Connection> {
    if active == [] then map[]
    else ById(active[..|active| - 1])[active[|active| - 1].id := active[|active| - 1]]
  }

  lemma {:induction false} ByIdHolds(active: seq<Connection>)
    ensures var m := ById(active);
            && m.Keys == Ids(active)
            && forall id <- m :: m[id].id == id && m[id] in active
  {
    if active != [] {
      ByIdHolds(active[..|active| - 1]);
      assert active == active[..|active| - 1] + [active[|active| - 1]];
    }
  }

  function Ids(active: seq<Connection>): set<string> {
    set c <- active :: c.id
  }

  function RawIds(next: seq<RawConnection>): set<string> {
    set c <- next :: c.id
  }

  /** The entry the snapshot before has for next[i]; only the first entry of an id is matched. */
  function Predecessor(next: seq<RawConnection>, i: nat, byId: map<string, Connection>): Option<Connection>
    requires i < |next|
  {
    var id := next[i].id;
    if id in RawIds(next[..i]) || id !in byId then None else Some(byId[id])
  }

  /** What is in the earlier snapshot and not in the later one, in order. */
  function Departed(active: seq<Connection>, next: set<string>): seq<Connection> {
    if active == [] then []
    else
      var last := active[|active| - 1];
      Departed(active[..|active| - 1], next) + if last.id in next then [] else [last]
  }

  lemma {:induction false} DepartedIff(active: seq<Connection>, next: set<string>)
    ensures forall c :: c in Departed(active, next) <==> c in active && c.id !in next
  {
    if active != [] {
      DepartedIff(active[..|active| - 1], next);
      assert active == active[..|active| - 1] + [active[|active| - 1]];
    }
  }

  /** The closed history after some departures with so many distinct ids. */
  function ClosedAfter(closed: seq<Connection>, gone: seq<Connection>, count: nat): seq<Connection>
    requires count <= |gone|
  {
    if count == 0 then closed
    else
      var drop := if |closed| + count > MAX_CLOSED_CONNS_NUM then |closed| + count - MAX_CLOSED_CONNS_NUM else 0;
      var kept := if drop >= |closed| then [] else closed[drop..];
      var room := MAX_CLOSED_CONNS_NUM - |kept|;
      kept + gone[if count > room then count - room else 0..]
  }

  ghost predicate IsMerge(m: Monitor, payload: Payload, previous: Monitor) {
    var next := payload.connections.GetOr([]);
    var gone := Departed(previous.active, RawIds(next));
    IdsAreFewer(gone);
    && m.uploadTotal == payload.uploadTotal.GetOr(0)
    && m.downloadTotal == payload.downloadTotal.GetOr(0)
    && |m.active| == |next|
    && (forall i | 0 <= i < |next| ::
          m.active[i] == FreshConnection(next[i], Predecessor(next, i, ById(previous.active))))
    && m.closed == ClosedAfter(previous.closed, gone, |Ids(gone)|)
  }

  method MergeConnectionSnapshot(payload: Payload, previous: Monitor) returns (m: Monitor)
    ensures IsMerge(m, payload, previous)
  {
    var nextConnections := payload.connections.GetOr([]);
    var previousActive, previousClosed := previous.active, previous.closed;
    var previousActiveById := IndexById(previousActive);
    ByIdHolds(previousActive);
    var activeConnections;
    activeConnections, previousActiveById := MatchActive(nextConnections, previousActiveById);
    ghost var next := RawIds(nextConnections);
    LeftOver(previousActive, next);
    IdsAreFewer(Departed(previousActive, next));
    assert |previousActiveById| == |previousActiveById.Keys|;

    var closedConnections := previousClosed;
    if |previousActiveById| > 0 {
      closedConnections := CloseRemoved(previousActive, previousClosed, previousActiveById.Keys, next);
    }
    return Monitor(payload.uploadTotal.GetOr(0), payload.downloadTotal.GetOr(0), activeConnections, closedConnections);
  }

  /** First loop of the merge: the connections of the snapshot before, by id. */
  method IndexById(active: seq<Connection>) returns (byId: map<string, Connection>)
    ensures byId == ById(active)
  {
    byId := map[];
    var i := 0;
    while i < |active|
      invariant i <= |active| && byId == ById(active[..i])
    {
      assert active[..i + 1][..i] == active[..i];
      byId := byId[active[i].id := active[i]];
      i := i + 1;
    }
    assert active[..i] == active;
  }

  /** Second loop of the merge: normalises each connection, taking its predecessor out of the map. */
  method MatchActive(next: seq<RawConnection>, byId: map<string, Connection>)
    returns (matched: seq<Connection>, left: map<string, Connection>)
    requires forall id <- byId :: byId[id].id == id
    ensures |matched| == |next|
    ensures forall k | 0 <= k < |next| :: matched[k] == FreshConnection(next[k], Predecessor(next, k, byId))
    ensures left == byId - RawIds(next)
  {
    matched, left := [], byId;
    var i := 0;
    while i < |next|
      invariant i <= |next| && |matched| == i
      invariant left == byId - RawIds(next[..i])
      invariant forall k | 0 <= k < i :: matched[k] == FreshConnection(next[k], Predecessor(next, k, byId))
    {
      var connection := next[i];
      var previousConnection := if connection.id in left then Some(left[connection.id]) else None;
      assert previousConnection == Predecessor(next, i, byId);
      RawIdsGrow(next, i);
      LessOne(byId, RawIds(next[..i]), connection.id);
      if previousConnection.Some? {
        left := left - {connection.id};
      }
      SharingIsInvisible(connection, previousConnection);
      matched := matched + [NormalizeConnection(connection, previousConnection).value];
      i := i + 1;
    }
    assert next[..i] == next;
  }

  lemma LessOne(byId: map<string, Connection>, ids: set<string>, id: string)
    ensures byId - (ids + {id}) == if id in byId - ids then (byId - ids) - {id} else byId - ids
  {
  }

  lemma RawIdsGrow(next: seq<RawConnection>, i: nat)
    requires i < |next|
    ensures RawIds(next[..i + 1]) == RawIds(next[..i]) + {next[i].id}
  {
    assert next[..i + 1] == next[..i] + [next[i]];
  }

  lemma LeftOver(active: seq<Connection>, next: set<string>)
    ensures (ById(active) - next).Keys == Ids(Departed(active, next))
    ensures forall c <- active :: c.id in (ById(active) - next).Keys <==> c.id !in next
  {
    var gone := Departed(active, next);
    ByIdHolds(active);
    DepartedIff(active, next);
    forall id ensures id in (ById(active) - next).Keys <==> id in Ids(gone) {
      if id in Ids(active) && id !in next {
        var c :| c in active && c.id == id;
        assert c in gone;
      }
    }
  }

  lemma {:induction false} IdsAreFewer(s: seq<Connection>)
    ensures |Ids(s)| <= |s|
  {
    if s != [] {
      var front, last := s[..|s| - 1], s[|s| - 1];
      IdsAreFewer(front);
      assert s == front + [last];
      assert Ids(s) == Ids(front) + {last.id};
    }
  }

  function DropFirst(s: seq<Connection>, skip: nat): seq<Connection> {
    if |s| < skip then [] else s[skip..]
  }

  lemma DepartedGrow(front: seq<Connection>, c: Connection, next: set<string>)
    ensures Departed(front + [c], next) == Departed(front, next) + if c.id in next then [] else [c]
  {
    assert (front + [c])[..|front + [c]| - 1] == front;
  }

  lemma DropFirstGrows(s: seq<Connection>, c: Connection, skip: nat)
    ensures DropFirst(s + [c], skip) == DropFirst(s, skip) + if |s| < skip then [] else [c]
  {
  }

  /** The last part of the merge: makes room in the history and appends the removed connections. */
  method CloseRemoved(previousActive: seq<Connection>, previousClosed: seq<Connection>, removedIds: set<string>,
                      ghost next: set<string>)
    returns (closed: seq<Connection>)
    requires forall c <- previousActive :: c.id in removedIds <==> c.id !in next
    requires 0 < |removedIds| <= |Departed(previousActive, next)|
    ensures closed == ClosedAfter(previousClosed, Departed(previousActive, next), |removedIds|)
  {
    var removedConnectionCount := |removedIds|;
    var excess := |previousClosed| + removedConnectionCount - MAX_CLOSED_CONNS_NUM;
    var dropFromClosed := if excess > 0 then excess else 0;
    var kept := if dropFromClosed >= |previousClosed| then [] else previousClosed[dropFromClosed..];
    var keepFromRemoved := MAX_CLOSED_CONNS_NUM - |kept|;
    var skipRemoved := if removedConnectionCount > keepFromRemoved then removedConnectionCount - keepFromRemoved else 0;
    var appended := SkipRemoved(previousActive, removedIds, skipRemoved, next);
    closed := kept + appended;
  }

  /** Its loop: the removed connections in order, without the first `skip` of them. */
  method SkipRemoved(previousActive: seq<Connection>, removedIds: set<string>, skip: nat, ghost next: set<string>)
    returns (appended: seq<Connection>)
    requires forall c <- previousActive :: c.id in removedIds <==> c.id !in next
    ensures appended == DropFirst(Departed(previousActive, next), skip)
  {
    var skipRemoved := skip;
    appended := [];
    ghost var seen: seq<Connection> := [];
    var i := 0;
    while i < |previousActive|
      invariant i <= |previousActive| && seen == Departed(previousActive[..i], next)
      invariant skipRemoved == if |seen| < skip then skip - |seen| else 0
      invariant appended == DropFirst(seen, skip)
    {
      var connection := previousActive[i];
      assert previousActive[..i + 1] == previousActive[..i] + [connection];
      DepartedGrow(previousActive[..i], connection, next);
      DropFirstGrows(seen, connection, skip);
      assert connection in previousActive;
      i := i + 1;
      if connection.id !in removedIds {
        continue;
      }
      seen := seen + [connection];
      if skipRemoved > 0 {
        skipRemoved := skipRemoved - 1;
        continue;
      }
      appended := appended + [connection];
    }
    assert previousActive[..i] == previousActive;
  }

  // ---- The module's state ---------------------------------------------------------------------

  class ConnectionStore {
    var connectionData: Monitor

    constructor ()
      ensures connectionData == INITIAL
    {
      connectionData := INITIAL;
    }

    /** A pending message, if it parsed, is merged as long as someone listens. */
    method FlushPendingMessage(message: Option<Payload>, listeners: nat)
      modifies this
      ensures message.None? || listeners == 0 ==> connectionData == old(connectionData)
      ensures message.Some? && listeners > 0 ==> IsMerge(connectionData, message.value, old(connectionData))
    {
      if message.None? || listeners == 0 {
        return;
      }
      connectionData := MergeConnectionSnapshot(message.value, connectionData);
    }

    method ClearClosedConnectionData()
      modifies this
      ensures connectionData == old(connectionData).(closed := [])
    {
      if |connectionData.closed| == 0 {
        return;
      }
      connectionData := connectionData.(closed := []);
    }
  }
}
