/**
 The traffic sampler of src/utils/traffic-sampler.ts: recent points as they came, older ones averaged in
 groups, both in buffers trimmed by a moving head. Clock readings are parameters; numbers are reals.
 */
module Sampler {
  import opened Ring

  const RAW_SLACK: nat := 512
  const COMPRESSED_SLACK: nat := 256

  datatype Point = Point(up: real, down: real, timestamp: real)

  datatype CompressedPoint = CompressedPoint(up: real, down: real, timestamp: real, samples: nat)

  datatype Config = Config(rawDataMinutes: real, compressedDataMinutes: real, compressionRatio: real)

  datatype Stats = Stats(rawBufferSize: nat, compressedBufferSize: nat, compressionQueueSize: nat,
                         totalMemoryPoints: nat)

  datatype State = State(raw: Ring<Point>, compressed: Ring<CompressedPoint>, queue: seq<Point>) {
    predicate Valid() {
      raw.Valid() && compressed.Valid()
    }
  }

  const EMPTY: State := State(Ring([], 0), Ring([], 0), [])

  /** The clock reading so many minutes ago, in milliseconds. */
  function Before(now: real, minutes: real): real {
    now - minutes * 60000.0
  }

  function PointTime(p: Point): real {
    p.timestamp
  }

  function CompressedTime(p: CompressedPoint): real {
    p.timestamp
  }

  function Sum(s: seq<Point>, f: Point -> real): real {
    if s == [] then 0.0 else Sum(s[..|s| - 1], f) + f(s[|s| - 1])
  }

  function Average(group: seq<Point>): CompressedPoint
    requires group != []
  {
    var n := |group| as real;
    CompressedPoint(Sum(group, (p: Point) => p.up) / n, Sum(group, (p: Point) => p.down) / n,
                    Sum(group, PointTime) / n, |group|)
  }

  predicate Full(config: Config, queue: seq<Point>) {
    |queue| as real >= config.compressionRatio
  }

  function AddedRaw(config: Config, raw: Ring<Point>, point: Point, now: real): Ring<Point>
    requires raw.Valid()
  {
    Trimmed(Pushed(raw, [point]), PointTime, Before(now, config.rawDataMinutes), RAW_SLACK)
  }

  /** The group that a full queue becomes, if it is full. */
  function Flush(config: Config, queue: seq<Point>): seq<CompressedPoint> {
    if queue != [] && Full(config, queue) then [Average(queue)] else []
  }

  function AddedCompressed(config: Config, compressed: Ring<CompressedPoint>, queue: seq<Point>, now: real)
    : Ring<CompressedPoint>
    requires compressed.Valid()
  {
    Trimmed(Pushed(compressed, Flush(config, queue)), CompressedTime,
            Before(now, config.compressedDataMinutes), COMPRESSED_SLACK)
  }

  function Added(config: Config, s: State, point: Point, rawNow: real, compressedNow: real): State
    requires s.Valid()
  {
    var queue := s.queue + [point];
    State(AddedRaw(config, s.raw, point, rawNow),
          AddedCompressed(config, s.compressed, queue, compressedNow),
          if Full(config, queue) then [] else queue)
  }

  // ---- Stable sorting by time -----------------------------------------------------------------

  /** Puts x behind everything that is not later. */
  function Insert(s: seq<Point>, x: Point): seq<Point> {
    if s == [] || s[|s| - 1].timestamp <= x.timestamp then s + [x]
    else Insert(s[..|s| - 1], x) + [s[|s| - 1]]
  }

  function SortByTime(s: seq<Point>): seq<Point> {
    if s == [] then [] else Insert(SortByTime(s[..|s| - 1]), s[|s| - 1])
  }

  // ---- Queries --------------------------------------------------------------------------------

  function AtMost(s: seq<CompressedPoint>, cutoff: real): seq<Point> {
    if s == [] then []
    else (if s[0].timestamp <= cutoff then [Point(s[0].up, s[0].down, s[0].timestamp)] else [])
         + AtMost(s[1..], cutoff)
  }

  function RangeOf(config: Config, s: State, minutes: real, now: real, later: real): seq<Point>
    requires s.Valid()
  {
    var cutoff := Before(now, minutes);
    var raw := s.raw.buf[Skip(s.raw.buf, PointTime, s.raw.head, cutoff)..];
    if minutes <= config.rawDataMinutes then raw
    else
      var start := Skip(s.compressed.buf, CompressedTime, s.compressed.head, cutoff);
      SortByTime(AtMost(s.compressed.buf[start..], Before(later, config.rawDataMinutes)) + raw)
  }

  class TrafficDataSampler {
    const config: Config
    var rawBuffer: seq<Point>
    var rawHead: nat
    var compressedBuffer: seq<CompressedPoint>
    var compressedHead: nat
    var compressionQueue: seq<Point>

    ghost predicate Valid()
      reads this
    {
      rawHead <= |rawBuffer| && compressedHead <= |compressedBuffer|
    }

    ghost function Value(): State
      reads this
    {
      State(Ring(rawBuffer, rawHead), Ring(compressedBuffer, compressedHead), compressionQueue)
    }

    constructor (config: Config)
      ensures Valid() && this.config == config && Value() == EMPTY
    {
      this.config := config;
      rawBuffer, rawHead, compressedBuffer, compressedHead, compressionQueue := [], 0, [], 0, [];
    }

    method AddDataPoint(point: Point, rawNow: real, compressedNow: real)
      requires Valid()
      modifies this
      ensures Valid() && Value() == Added(config, old(Value()), point, rawNow, compressedNow)
    {
      ghost var before := Value();
      rawBuffer := rawBuffer + [point];
      TrimRaw(Before(rawNow, config.rawDataMinutes));
      assert Ring(rawBuffer, rawHead) == AddedRaw(config, before.raw, point, rawNow);
      compressionQueue := compressionQueue + [point];
      if |compressionQueue| as real >= config.compressionRatio {
        CompressData();
      }
      ghost var queue := before.queue + [point];
      assert Ring(compressedBuffer, compressedHead) == Pushed(before.compressed, Flush(config, queue));
      TrimCompressed(Before(compressedNow, config.compressedDataMinutes));
    }

    /** First trimming loop of addDataPoint. */
    method TrimRaw(rawCutoff: real)
      requires Valid()
      modifies `rawBuffer, `rawHead
      ensures Valid()
      ensures Ring(rawBuffer, rawHead) == Trimmed(Ring(old(rawBuffer), old(rawHead)), PointTime, rawCutoff, RAW_SLACK)
    {
      ghost var live := Skip(rawBuffer, PointTime, rawHead, rawCutoff);
      while rawHead < |rawBuffer| && rawBuffer[rawHead].timestamp <= rawCutoff
        invariant rawHead <= live
        decreases |rawBuffer| - rawHead
        modifies `rawHead
      {
        rawHead := rawHead + 1;
      }
      assert rawHead == live;
      if rawHead > RAW_SLACK && 2 * rawHead > |rawBuffer| {
        rawBuffer := rawBuffer[rawHead..];
        rawHead := 0;
      }
    }

    /** Second trimming loop of addDataPoint. */
    method TrimCompressed(compressedCutoff: real)
      requires Valid()
      modifies `compressedBuffer, `compressedHead
      ensures Valid()
      ensures Ring(compressedBuffer, compressedHead)
           == Trimmed(Ring(old(compressedBuffer), old(compressedHead)), CompressedTime, compressedCutoff,
                      COMPRESSED_SLACK)
    {
      ghost var live := Skip(compressedBuffer, CompressedTime, compressedHead, compressedCutoff);
      while compressedHead < |compressedBuffer| && compressedBuffer[compressedHead].timestamp <= compressedCutoff
        invariant compressedHead <= live
        decreases |compressedBuffer| - compressedHead
        modifies `compressedHead
      {
        compressedHead := compressedHead + 1;
      }
      assert compressedHead == live;
      if compressedHead > COMPRESSED_SLACK && 2 * compressedHead > |compressedBuffer| {
        compressedBuffer := compressedBuffer[compressedHead..];
        compressedHead := 0;
      }
    }

    method CompressData()
      modifies `compressedBuffer, `compressionQueue
      ensures compressionQueue == []
      ensures compressedBuffer
           == old(compressedBuffer) + if old(compressionQueue) == [] then [] else [Average(old(compressionQueue))]
    {
      if |compressionQueue| == 0 {
        return;
      }
      var n := |compressionQueue| as real;
      var totalUp := Sum(compressionQueue, (p: Point) => p.up);
      var totalDown := Sum(compressionQueue, (p: Point) => p.down);
      var avgTimestamp := Sum(compressionQueue, PointTime) / n;
      compressedBuffer := compressedBuffer
        + [CompressedPoint(totalUp / n, totalDown / n, avgTimestamp, |compressionQueue|)];
      compressionQueue := [];
    }

    method GetDataForTimeRange(minutes: real, now: real, later: real) returns (points: seq<Point>)
      requires Valid()
      ensures points == RangeOf(config, Value(), minutes, now, later)
    {
      var cutoff := Before(now, minutes);
      var rawStart := rawHead;
      ghost var firstRaw := Skip(rawBuffer, PointTime, rawHead, cutoff);
      while rawStart < |rawBuffer| && rawBuffer[rawStart].timestamp <= cutoff
        invariant rawHead <= rawStart <= firstRaw
      {
        rawStart := rawStart + 1;
      }
      var rawData := rawBuffer[rawStart..];
      if minutes <= config.rawDataMinutes {
        return rawData;
      }
      var compressedCutoffUpper := Before(later, config.rawDataMinutes);
      var compressedStart := compressedHead;
      ghost var firstCompressed := Skip(compressedBuffer, CompressedTime, compressedHead, cutoff);
      while compressedStart < |compressedBuffer| && compressedBuffer[compressedStart].timestamp <= cutoff
        invariant compressedHead <= compressedStart <= firstCompressed
      {
        compressedStart := compressedStart + 1;
      }
      var compressedData := AtMost(compressedBuffer[compressedStart..], compressedCutoffUpper);
      points := SortByTime(compressedData + rawData);
    }

    method GetStats() returns (stats: Stats)
      requires Valid()
      ensures stats.rawBufferSize == |Value().raw.Live()|
      ensures stats.compressedBufferSize == |Value().compressed.Live()|
      ensures stats.compressionQueueSize == |Value().queue|
      ensures stats.totalMemoryPoints == |Value().raw.Live()| + |Value().compressed.Live()|
    {
      stats := Stats(|rawBuffer| - rawHead, |compressedBuffer| - compressedHead, |compressionQueue|,
                     |rawBuffer| - rawHead + (|compressedBuffer| - compressedHead));
    }

    method Clear()
      modifies this
      ensures Valid() && Value() == EMPTY
    {
      rawBuffer, rawHead, compressedBuffer, compressedHead, compressionQueue := [], 0, [], 0, [];
    }
  }
}
