/**
 A time-ordered history trimmed from the front by moving a head index, with the storage before the head
 reclaimed only now and then. Shared by the two histories of the traffic sampler.
 */
module Ring {

  datatype Ring<A> = Ring(buf: seq<A>, head: nat) {
    predicate Valid() {
      head <= |buf|
    }

    function Live(): seq<A>
      requires Valid()
    {
      buf[head..]
    }
  }

  type Clock<!A> = A -> real

  /** First index from `head` on whose time is after the cutoff. */
  function Skip<A>(buf: seq<A>, time: Clock<A>, head: nat, cutoff: real): (r: nat)
    requires head <= |buf|
    ensures head <= r <= |buf|
    ensures forall k | head <= k < r :: time(buf[k]) <= cutoff
    ensures r < |buf| ==> time(buf[r]) > cutoff
    decreases |buf| - head
  {
    if head < |buf| && time(buf[head]) <= cutoff then Skip(buf, time, head + 1, cutoff) else head
  }

  predicate Compacts<A>(r: Ring<A>, slack: nat) {
    r.head > slack && 2 * r.head > |r.buf|
  }

  function Compacted<A>(r: Ring<A>, slack: nat): Ring<A>
    requires r.Valid()
  {
    if Compacts(r, slack) then Ring(r.Live(), 0) else r
  }

  /** Advance the head past everything up to the cutoff, then reclaim storage if worthwhile. */
  function Trimmed<A>(r: Ring<A>, time: Clock<A>, cutoff: real, slack: nat): Ring<A>
    requires r.Valid()
  {
    Compacted(r.(head := Skip(r.buf, time, r.head, cutoff)), slack)
  }

  function Pushed<A>(r: Ring<A>, added: seq<A>): Ring<A> {
    r.(buf := r.buf + added)
  }

  // ---- Space and cost -------------------------------------------------------------------------

  /** After a trim the storage is at most twice the live entries, or the live entries and the slack. */
  lemma TrimBoundsSpace<A>(r: Ring<A>, time: Clock<A>, cutoff: real, slack: nat)
    requires r.Valid()
    ensures var r' := Trimmed(r, time, cutoff, slack);
            r'.Valid() && (|r'.buf| <= 2 * |r'.Live()| || |r'.buf| <= |r'.Live()| + slack)
  {
  }

  /** Steps of the head, and entries copied when reclaiming. */
  function Advances<A>(r: Ring<A>, time: Clock<A>, cutoff: real): nat
    requires r.Valid()
  {
    Skip(r.buf, time, r.head, cutoff) - r.head
  }

  function Copies<A>(r: Ring<A>, time: Clock<A>, cutoff: real, slack: nat): nat
    requires r.Valid()
  {
    var moved := r.(head := Skip(r.buf, time, r.head, cutoff));
    if Compacts(moved, slack) then |moved.Live()| else 0
  }

  /** Copying is paid for by the head steps since the last copy. */
  lemma TrimCost<A>(r: Ring<A>, time: Clock<A>, cutoff: real, slack: nat)
    requires r.Valid()
    ensures var r' := Trimmed(r, time, cutoff, slack);
            && r'.Valid()
            && Copies(r, time, cutoff, slack) + r'.head <= r.head + Advances(r, time, cutoff)
            && |r'.Live()| + Advances(r, time, cutoff) == |r.Live()|
  {
  }

  // ---- Agreement with a filter ----------------------------------------------------------------

  ghost predicate Sorted<A>(s: seq<A>, time: Clock<A>) {
    forall i, j | 0 <= i < j < |s| :: time(s[i]) <= time(s[j])
  }

  /** The entries after the cutoff, in order. */
  function After<A>(s: seq<A>, time: Clock<A>, cutoff: real): seq<A> {
    if s == [] then []
    else (if time(s[0]) > cutoff then [s[0]] else []) + After(s[1..], time, cutoff)
  }

  lemma {:induction false} AfterAppend<A>(s: seq<A>, t: seq<A>, time: Clock<A>, cutoff: real)
    ensures After(s + t, time, cutoff) == After(s, time, cutoff) + After(t, time, cutoff)
  {
    if s == [] {
      assert s + t == t;
    } else {
      assert (s + t)[1..] == s[1..] + t;
      AfterAppend(s[1..], t, time, cutoff);
    }
  }

  /** Where everything up to some index is at or before the cutoff and the rest after it, filtering drops a prefix. */
  lemma {:induction false} AfterIsSuffix<A>(s: seq<A>, time: Clock<A>, cutoff: real, n: nat)
    requires n <= |s|
    requires forall k | 0 <= k < n :: time(s[k]) <= cutoff
    requires forall k | n <= k < |s| :: time(s[k]) > cutoff
    ensures After(s, time, cutoff) == s[n..]
  {
    if s != [] {
      var m := if n > 0 then n - 1 else 0;
      AfterIsSuffix(s[1..], time, cutoff, m);
      assert n > 0 ==> s[1..][m..] == s[n..];
      assert n == 0 ==> [s[0]] + s[1..] == s;
    }
  }

  lemma {:induction false} AfterAfter<A>(s: seq<A>, time: Clock<A>, c: real, d: real)
    ensures After(After(s, time, c), time, d) == After(s, time, if c <= d then d else c)
  {
    if s != [] {
      var first := if time(s[0]) > c then [s[0]] else [];
      AfterAppend(first, After(s[1..], time, c), time, d);
      AfterAfter(s[1..], time, c, d);
    }
  }

  /** Skipping from the head is filtering, provided the live entries are in time order. */
  lemma SkipIsFilter<A>(r: Ring<A>, time: Clock<A>, cutoff: real)
    requires r.Valid() && Sorted(r.Live(), time)
    ensures r.buf[Skip(r.buf, time, r.head, cutoff)..] == After(r.Live(), time, cutoff)
  {
    var n := Skip(r.buf, time, r.head, cutoff);
    var live := r.Live();
    var m := n - r.head;
    forall k | m <= k < |live| ensures time(live[k]) > cutoff {
      assert live[m] == r.buf[n];
    }
    AfterIsSuffix(live, time, cutoff, m);
    assert r.buf[n..] == live[m..];
  }

  /** Filtering keeps the time order, also with later entries behind. */
  lemma {:induction false} AfterKeepsOrder<A>(s: seq<A>, added: seq<A>, time: Clock<A>, cutoff: real)
    requires Sorted(s + added, time)
    ensures Sorted(After(s, time, cutoff) + added, time)
  {
    if s == [] {
      assert s + added == added == After(s, time, cutoff) + added;
    } else {
      assert (s + added)[1..] == s[1..] + added;
      forall i, j | 0 <= i < j < |s[1..] + added| ensures time((s[1..] + added)[i]) <= time((s[1..] + added)[j]) {
        assert (s[1..] + added)[i] == (s + added)[i + 1] && (s[1..] + added)[j] == (s + added)[j + 1];
      }
      AfterKeepsOrder(s[1..], added, time, cutoff);
      var rest := After(s[1..], time, cutoff) + added;
      FirstIsEarliest(s, added, time, cutoff);
      if time(s[0]) > cutoff {
        assert After(s, time, cutoff) + added == [s[0]] + rest;
      } else {
        assert After(s, time, cutoff) + added == rest;
      }
    }
  }

  lemma FirstIsEarliest<A>(s: seq<A>, added: seq<A>, time: Clock<A>, cutoff: real)
    requires s != [] && Sorted(s + added, time)
    ensures forall x <- After(s[1..], time, cutoff) + added :: time(s[0]) <= time(x)
  {
    forall x <- After(s[1..], time, cutoff) + added ensures time(s[0]) <= time(x) {
      if x in After(s[1..], time, cutoff) {
        AfterIsWithin(s[1..], time, cutoff, x);
      }
      assert x in s[1..] + added;
      var j :| 0 <= j < |s[1..] + added| && (s[1..] + added)[j] == x;
      assert (s + added)[0] == s[0] && (s + added)[j + 1] == x;
    }
  }

  lemma {:induction false} AfterIsWithin<A>(s: seq<A>, time: Clock<A>, cutoff: real, x: A)
    requires x in After(s, time, cutoff)
    ensures x in s
  {
    if x !in (if time(s[0]) > cutoff then [s[0]] else []) {
      AfterIsWithin(s[1..], time, cutoff, x);
    }
  }

  lemma TrimmedLive<A>(r: Ring<A>, time: Clock<A>, cutoff: real, slack: nat)
    requires r.Valid()
    ensures var r' := Trimmed(r, time, cutoff, slack);
            r'.Valid() && r'.Live() == r.buf[Skip(r.buf, time, r.head, cutoff)..]
  {
  }

  /** Filtering by an earlier cutoff first makes no difference. */
  lemma FilterTwice<A>(all: seq<A>, time: Clock<A>, bound: real, added: seq<A>, cutoff: real)
    requires all == [] || bound <= cutoff
    ensures After(After(all, time, bound) + added, time, cutoff) == After(all + added, time, cutoff)
  {
    AfterAppend(After(all, time, bound), added, time, cutoff);
    AfterAppend(all, added, time, cutoff);
    AfterAfter(all, time, bound, cutoff);
  }

  /** After a push and a trim the ring holds what a filter of the whole history keeps. */
  lemma PushTrimIsFilter<A>(r: Ring<A>, time: Clock<A>, all: seq<A>, bound: real, added: seq<A>, cutoff: real,
                            slack: nat)
    requires r.Valid() && r.Live() == After(all, time, bound) && Sorted(all + added, time)
    requires all == [] || bound <= cutoff
    ensures var r' := Trimmed(Pushed(r, added), time, cutoff, slack);
            r'.Valid() && r'.Live() == After(all + added, time, cutoff)
  {
    var p := Pushed(r, added);
    var live := r.Live() + added;
    assert p.Valid() && p.Live() == live;
    TrimmedLive(p, time, cutoff, slack);
    assert Sorted(live, time) by { AfterKeepsOrder(all, added, time, bound); }
    SkipIsFilter(p, time, cutoff);
    FilterTwice(all, time, bound, added, cutoff);
  }
}
