/** Writing a chain and reading it back: when the reader stops, and exactly when it returns the chain. */
module ChainLaws {
  import opened Basics
  import opened Yaml
  import opened ProxyChain

  function AsValues(names: seq<string>): seq<Value> {
    seq(|names|, i requires 0 <= i < |names| => Str(names[i]))
  }

  function Chained(proxies: seq<Value>, names: seq<string>): seq<Value> {
    Rechained(proxies, Some(Sequence(AsValues(names))))
  }

  ghost predicate AllPresent(proxies: seq<Value>, names: seq<string>) {
    forall i | 0 <= i < |names| :: FindNamed(proxies, Str(names[i])).Some?
  }

  /** The proxies `r` carry exactly these names, in order. */
  ghost predicate NamedBy(r: seq<Value>, names: seq<string>) {
    |r| == |names| && forall i | 0 <= i < |r| :: KeyOf(r[i]) == Some(Some(names[i]))
  }

  // ---- What the writer leaves -----------------------------------------------------------------

  /** Only links change. */
  ghost predicate SameButLinks(proxies: seq<Value>, proxies': seq<Value>) {
    |proxies| == |proxies'| && forall k | 0 <= k < |proxies| :: Unlinked(proxies'[k]) == Unlinked(proxies[k])
  }

  lemma SameNames(proxies: seq<Value>, proxies': seq<Value>, name: Value)
    requires SameButLinks(proxies, proxies')
    ensures forall k | 0 <= k < |proxies| :: Get(proxies'[k], NAME) == Get(proxies[k], NAME)
    ensures FindNamed(proxies', name) == FindNamed(proxies, name)
  {
    forall k | 0 <= k < |proxies| ensures Get(proxies'[k], NAME) == Get(proxies[k], NAME) {
      UnlinkedKeepsName(proxies[k]);
      UnlinkedKeepsName(proxies'[k]);
    }
  }

  lemma UnlinkedKeepsName(proxy: Value)
    ensures Get(Unlinked(proxy), NAME) == Get(proxy, NAME)
  {
    assert |NAME| != |DIALER|;
  }

  lemma ClearedIsUnlinked(proxies: seq<Value>)
    ensures SameButLinks(proxies, Cleared(proxies))
    ensures forall k | 0 <= k < |proxies| :: Get(Cleared(proxies)[k], DIALER).None?
  {
    forall k | 0 <= k < |proxies| ensures Unlinked(Unlinked(proxies[k])) == Unlinked(proxies[k]) {
      if proxies[k].Mapping? {
        assert proxies[k].entries - {Str(DIALER)} - {Str(DIALER)} == proxies[k].entries - {Str(DIALER)};
      }
    }
  }

  lemma WithLinkIsUnlinked(proxy: Value, to: Value)
    requires proxy.Mapping?
    ensures Unlinked(WithLink(proxy, to)) == Unlinked(proxy)
  {
    assert proxy.entries[Str(DIALER) := to] - {Str(DIALER)} == proxy.entries - {Str(DIALER)};
  }

  lemma {:induction false} LinkedSame(proxies: seq<Value>, chain: seq<Value>, n: nat)
    requires n <= |chain|
    ensures SameButLinks(proxies, Linked(proxies, chain, n))
  {
    if n > 0 {
      LinkedSame(proxies, chain, n - 1);
      var before := Linked(proxies, chain, n - 1);
      var k := FindNamed(before, chain[n - 1]);
      if n > 1 && k.Some? {
        WithLinkIsUnlinked(before[k.value], chain[n - 2]);
      }
    }
  }

  /** Linking changes only links, and only of proxies the chain names after its first entry. */
  lemma {:induction false} LinkedOnlyLinks(proxies: seq<Value>, chain: seq<Value>, n: nat)
    requires n <= |chain|
    ensures SameButLinks(proxies, Linked(proxies, chain, n))
    ensures forall k | 0 <= k < |proxies|
                    && Get(proxies[k], DIALER).None? && Get(Linked(proxies, chain, n)[k], DIALER).Some? ::
              exists i :: 1 <= i < n && FindNamed(proxies, chain[i]) == Some(k)
  {
    LinkedSame(proxies, chain, n);
    if n > 0 {
      LinkedOnlyLinks(proxies, chain, n - 1);
      SameNames(proxies, Linked(proxies, chain, n - 1), chain[n - 1]);
    }
  }

  lemma LinkedKeepsNames(proxies: seq<Value>, chain: seq<Value>, n: nat, name: Value)
    requires n <= |chain|
    ensures forall k | 0 <= k < |proxies| :: Get(Linked(proxies, chain, n)[k], NAME) == Get(proxies[k], NAME)
    ensures FindNamed(Linked(proxies, chain, n), name) == FindNamed(proxies, name)
  {
    LinkedOnlyLinks(proxies, chain, n);
    SameNames(proxies, Linked(proxies, chain, n), name);
  }

  lemma LinkedUnfolds(proxies: seq<Value>, chain: seq<Value>, n: nat, m: nat)
    requires 2 <= n <= |chain| && FindNamed(Linked(proxies, chain, n - 1), chain[n - 1]) == Some(m)
    ensures m < |proxies| && Linked(proxies, chain, n - 1)[m].Mapping?
    ensures Linked(proxies, chain, n)
         == Linked(proxies, chain, n - 1)[m := WithLink(Linked(proxies, chain, n - 1)[m], chain[n - 2])]
  {
  }

  /** Linking one more entry links its proxy to the entry before it ... */
  lemma LinkedToLast(proxies: seq<Value>, chain: seq<Value>, n: nat, m: nat)
    requires 2 <= n <= |chain| && FindNamed(proxies, chain[n - 1]) == Some(m)
    ensures m < |proxies| && Get(Linked(proxies, chain, n)[m], DIALER) == Some(chain[n - 2])
  {
    assert FindNamed(Linked(proxies, chain, n - 1), chain[n - 1]) == Some(m) by {
      LinkedKeepsNames(proxies, chain, n - 1, chain[n - 1]);
    }
    LinkedUnfolds(proxies, chain, n, m);
    LinkIsRead(Linked(proxies, chain, n - 1)[m], chain[n - 2]);
  }

  lemma LinkIsRead(proxy: Value, to: Value)
    requires proxy.Mapping?
    ensures Get(WithLink(proxy, to), DIALER) == Some(to)
  {
  }

  /** ... and no proxy with another name. */
  lemma LinkedStays(proxies: seq<Value>, chain: seq<Value>, n: nat, m: nat)
    requires 0 < n <= |chain| && m < |proxies| && Get(proxies[m], NAME) != Some(chain[n - 1])
    ensures Get(Linked(proxies, chain, n)[m], DIALER) == Get(Linked(proxies, chain, n - 1)[m], DIALER)
  {
    LinkedKeepsNames(proxies, chain, n - 1, chain[n - 1]);
  }

  /** In a chain without repeats every present entry after the first links to the one before it. */
  lemma {:induction false} LinkedTo(proxies: seq<Value>, chain: seq<Value>, n: nat, i: nat, m: nat)
    requires 1 <= i < n <= |chain| && FindNamed(proxies, chain[i]) == Some(m)
    requires forall k | i < k < n :: chain[i] != chain[k]
    ensures m < |proxies| && Get(Linked(proxies, chain, n)[m], DIALER) == Some(chain[i - 1])
    decreases n
  {
    if i == n - 1 {
      LinkedToLast(proxies, chain, n, m);
    } else {
      LinkedTo(proxies, chain, n - 1, i, m);
      LinkedStays(proxies, chain, n, m);
    }
  }

  // ---- Reading a chain without repeats --------------------------------------------------------

  /** Writing a chain keeps every name, and links only what it names after its first entry. */
  lemma ChainedOnlyLinks(proxies: seq<Value>, names: seq<string>)
    ensures SameButLinks(proxies, Chained(proxies, names))
    ensures forall m | 0 <= m < |proxies| && Get(Chained(proxies, names)[m], DIALER).Some? ::
              exists i :: 1 <= i < |names| && FindNamed(proxies, Str(names[i])) == Some(m)
  {
    var chain, clear, n := AsValues(names), Cleared(proxies), |names|;
    ClearedIsUnlinked(proxies);
    LinkedOnlyLinks(clear, chain, n);
    forall m | 0 <= m < |proxies| && Get(Chained(proxies, names)[m], DIALER).Some?
      ensures exists i :: 1 <= i < n && FindNamed(proxies, Str(names[i])) == Some(m)
    {
      var i :| 1 <= i < n && FindNamed(clear, chain[i]) == Some(m);
      SameNames(proxies, clear, chain[i]);
    }
  }

  lemma ClearedKeepsFound(proxies: seq<Value>, name: Value)
    ensures FindNamed(Cleared(proxies), name) == FindNamed(proxies, name)
  {
    ClearedIsUnlinked(proxies);
    SameNames(proxies, Cleared(proxies), name);
  }

  /** No later entry has the name of entry `i`. */
  ghost predicate IsLast(names: seq<string>, i: nat)
    requires i < |names|
  {
    forall k | i < k < |names| :: names[k] != names[i]
  }

  lemma LastValue(names: seq<string>, i: nat)
    requires i < |names| && IsLast(names, i)
    ensures |AsValues(names)| == |names| && AsValues(names)[i] == Str(names[i])
    ensures forall k | i < k < |names| :: AsValues(names)[i] != AsValues(names)[k]
  {
    forall k | i < k < |names| ensures AsValues(names)[i] != AsValues(names)[k] {
      assert names[i] != names[k];
    }
  }

  lemma RechainedTo(proxies: seq<Value>, chain: seq<Value>, i: nat, m: nat)
    requires 1 <= i < |chain| && FindNamed(proxies, chain[i]) == Some(m)
    requires forall k | i < k < |chain| :: chain[i] != chain[k]
    ensures m < |proxies| == |Rechained(proxies, Some(Sequence(chain)))|
    ensures Get(Rechained(proxies, Some(Sequence(chain)))[m], DIALER) == Some(chain[i - 1])
  {
    var clear := Cleared(proxies);
    ClearedKeepsFound(proxies, chain[i]);
    LinkedTo(clear, chain, |chain|, i, m);
  }

  /** The last entry of each name after the first links to the entry before it. */
  lemma ChainedTo(proxies: seq<Value>, names: seq<string>, i: nat)
    requires 1 <= i < |names| && IsLast(names, i) && FindNamed(proxies, Str(names[i])).Some?
    ensures Get(Chained(proxies, names)[FindNamed(proxies, Str(names[i])).value], DIALER) == Some(Str(names[i - 1]))
  {
    LastValue(names, i);
    RechainedTo(proxies, AsValues(names), i, FindNamed(proxies, Str(names[i])).value);
  }

  lemma KeyIsName(proxies: seq<Value>, name: string)
    ensures FindKey(proxies, Some(name)) == FindNamed(proxies, Str(name))
  {
    assert forall p :: KeyOf(p) == Some(Some(name)) <==> Get(p, NAME) == Some(Str(name));
  }

  /** A link stands only on the first proxy of a name, and only if the chain has that name after its first entry. */
  lemma OnlyEntriesAreLinked(proxies: seq<Value>, names: seq<string>, name: string, m: nat)
    requires m < |proxies| == |Chained(proxies, names)|
    requires KeyOf(proxies[m]) == Some(Some(name)) && Get(Chained(proxies, names)[m], DIALER).Some?
    ensures FindNamed(proxies, Str(name)) == Some(m)
    ensures exists j :: 1 <= j < |names| && names[j] == name
  {
    ChainedOnlyLinks(proxies, names);
    var j :| 1 <= j < |names| && FindNamed(proxies, Str(names[j])) == Some(m);
    assert names[j] == name;
  }

  lemma FindLinkedIs(proxies: seq<Value>, key: Key, k: nat)
    requires k < |proxies| && LinksOn(proxies[k], key)
    requires forall m | 0 <= m < |proxies| && LinksOn(proxies[m], key) :: m == k
    ensures FindLinked(proxies, key) == Some(k)
  {
  }

  predicate LeadsTo(proxies: seq<Value>, from: string, to: string) {
    var k := FindLinked(proxies, Some(from));
    k.Some? && NextKey(proxies[k.value]) == Some(to)
  }

  /** The reader goes from the last entry of a name to the entry before it ... */
  lemma LastLeadsBack(proxies: seq<Value>, names: seq<string>, i: nat)
    requires 1 <= i < |names| && IsLast(names, i) && FindNamed(proxies, Str(names[i])).Some?
    ensures LeadsTo(Chained(proxies, names), names[i], names[i - 1])
  {
    var proxies', k := Chained(proxies, names), FindNamed(proxies, Str(names[i])).value;
    ChainedKeepsKeys(proxies, names);
    ChainedTo(proxies, names, i);
    forall m | 0 <= m < |proxies'| && KeyOf(proxies'[m]) == Some(Some(names[i])) && Get(proxies'[m], DIALER).Some?
      ensures m == k
    {
      OnlyEntriesAreLinked(proxies, names, names[i], m);
    }
    FindLinkedIs(proxies', Some(names[i]), k);
  }

  /** ... and stops at a name that no proxy has, or that the chain has as its first entry only. */
  lemma StopsAt(proxies: seq<Value>, names: seq<string>, name: string)
    requires FindNamed(proxies, Str(name)).None? || forall j | 1 <= j < |names| :: names[j] != name
    ensures FindLinked(Chained(proxies, names), Some(name)).None?
  {
    var proxies' := Chained(proxies, names);
    ChainedKeepsKeys(proxies, names);
    var k := FindLinked(proxies', Some(name));
    if k.Some? {
      OnlyEntriesAreLinked(proxies, names, name, k.value);
    }
  }

  /** Each of these names leads to a linked proxy that leads to the name before it, down to the first. */
  ghost predicate LeadsDown(proxies: seq<Value>, names: seq<string>) {
    && names != [] && FindLinked(proxies, Some(names[0])).None? && FindKey(proxies, Some(names[0])).Some?
    && forall i | 1 <= i < |names| :: LeadsTo(proxies, names[i], names[i - 1])
  }

  lemma ChainLeadsDown(proxies: seq<Value>, names: seq<string>)
    requires names != [] && NoRepeats(names) && AllPresent(proxies, names)
    ensures LeadsDown(Chained(proxies, names), names)
  {
    StopsAt(proxies, names, names[0]);
    assert FindKey(Chained(proxies, names), Some(names[0])).Some? by {
      ChainedKeepsKeys(proxies, names);
      KeyIsName(proxies, names[0]);
    }
    forall i | 1 <= i < |names| ensures LeadsTo(Chained(proxies, names), names[i], names[i - 1]) {
      LastLeadsBack(proxies, names, i);
    }
  }

  /** The walk from position `i` passes the proxies of entries `i` down to 1, and ends at entry 0. */
  lemma {:induction false} WalkDown(proxies: seq<Value>, names: seq<string>, i: nat)
    requires LeadsDown(proxies, names) && i < |names|
    ensures var walk := Walk(proxies, Some(names[i]), i);
      && walk.Some? && walk.value.1 == Some(names[0]) && |walk.value.0| == i
      && forall k | 0 <= k < i :: KeyOf(walk.value.0[k]) == Some(Some(names[i - k]))
  {
    if i > 0 {
      assert LeadsTo(proxies, names[i], names[i - 1]);
      WalkDown(proxies, names, i - 1);
    }
  }

  /** Turning round what the walk passed, behind the entry it ended at, gives the chain. */
  lemma PassedIsChain(proxies: seq<Value>, names: seq<string>, passed: seq<Value>)
    requires 2 <= |names| && |passed| == |names| - 1 && FindKey(proxies, Some(names[0])).Some?
    requires forall k | 0 <= k < |passed| :: KeyOf(passed[k]) == Some(Some(names[|names| - 1 - k]))
    ensures NamedBy(ChainFrom(proxies, (passed, Some(names[0]))), names)
  {
    ReversedAt(passed);
    var r, back := ChainFrom(proxies, (passed, Some(names[0]))), Reversed(passed);
    assert r == [proxies[FindKey(proxies, Some(names[0])).value]] + back;
    forall i | 0 <= i < |r| ensures KeyOf(r[i]) == Some(Some(names[i])) {
      if i > 0 {
        assert r[i] == back[i - 1] == passed[|passed| - i];
      }
    }
  }

  /** Reading a written chain terminates and gives it back. */
  lemma RoundTrip(proxies: seq<Value>, names: seq<string>)
    requires 2 <= |names| && NoRepeats(names) && AllPresent(proxies, names)
    ensures var proxies', n := Chained(proxies, names), |names|;
      var walk := Walk(proxies', Some(names[n - 1]), n);
      walk.Some? && NamedBy(ChainFrom(proxies', walk.value), names)
  {
    var proxies', n := Chained(proxies, names), |names|;
    ChainLeadsDown(proxies, names);
    WalkDown(proxies', names, n - 1);
    MoreFuel(proxies', Some(names[n - 1]), n - 1, n);
    PassedIsChain(proxies', names, Walk(proxies', Some(names[n - 1]), n - 1).value.0);
  }

  // ---- Exactly when the round trip works -------------------------------------------------------

  /** A walk that ends passes no key twice, and its last key is not among those it passed. */
  lemma {:induction false} WalkHasNoRepeats(proxies: seq<Value>, key: Key, fuel: nat)
    requires Walk(proxies, key, fuel).Some?
    ensures var (passed, last) := Walk(proxies, key, fuel).value;
      && KeysDistinct(passed)
      && (forall i | 0 <= i < |passed| :: KeyOf(passed[i]) != Some(last))
      && (passed != [] ==> KeyOf(passed[0]) == Some(key))
      && (passed == [] ==> last == key)
    decreases fuel
  {
    var k := FindLinked(proxies, key);
    if k.Some? {
      var next := NextKey(proxies[k.value]);
      var (rest, last) := Walk(proxies, next, fuel - 1).value;
      WalkHasNoRepeats(proxies, next, fuel - 1);
      WalkEndsUnlinked(proxies, next, fuel - 1);
      forall j | 0 <= j < |rest| ensures KeyOf(rest[j]) != Some(key) {
        if KeyOf(rest[j]) == Some(key) {
          WalkSuffix(proxies, next, fuel - 1, j);
          MoreFuel(proxies, key, fuel - 1 - j, fuel);
        }
      }
    }
  }

  lemma {:induction false} WalkEndsUnlinked(proxies: seq<Value>, key: Key, fuel: nat)
    requires Walk(proxies, key, fuel).Some?
    ensures FindLinked(proxies, Walk(proxies, key, fuel).value.1).None?
    decreases fuel
  {
    var k := FindLinked(proxies, key);
    if k.Some? {
      WalkEndsUnlinked(proxies, NextKey(proxies[k.value]), fuel - 1);
    }
  }

  /** From the `j`-th proxy passed on, the walk is the walk from that proxy's own key. */
  lemma {:induction false} WalkSuffix(proxies: seq<Value>, key: Key, fuel: nat, j: nat)
    requires Walk(proxies, key, fuel).Some? && j < |Walk(proxies, key, fuel).value.0|
    ensures var passed := Walk(proxies, key, fuel).value.0;
      && j <= fuel && KeyOf(passed[j]).Some?
      && Walk(proxies, KeyOf(passed[j]).value, fuel - j).Some?
      && Walk(proxies, KeyOf(passed[j]).value, fuel - j).value.0 == passed[j..]
    decreases fuel
  {
    var k := FindLinked(proxies, key);
    if j > 0 {
      WalkSuffix(proxies, NextKey(proxies[k.value]), fuel - 1, j - 1);
    }
  }

  /** Whatever is read back names only distinct proxies that exist. */
  lemma ReadNamesAreDistinct(proxies: seq<Value>, names: seq<string>, exit: string, fuel: nat)
    requires Walk(proxies, Some(exit), fuel).Some?
    requires NamedBy(ChainFrom(proxies, Walk(proxies, Some(exit), fuel).value), names)
    ensures NoRepeats(names)
  {
    var (passed, last) := Walk(proxies, Some(exit), fuel).value;
    var r := ChainFrom(proxies, (passed, last));
    WalkHasNoRepeats(proxies, Some(exit), fuel);
    DistinctReversed(passed);
    ReversedAt(passed);
    assert forall p <- Reversed(passed) :: KeyOf(p) != Some(last);
    if r != Reversed(passed) {
      DistinctPrepended(r[0], Reversed(passed));
    }
    assert KeysDistinct(r);
    forall i, j | 0 <= i < j < |names| ensures names[i] != names[j] {
      assert KeyOf(r[i]) != KeyOf(r[j]);
    }
  }

  ghost predicate KeysDistinct(s: seq<Value>) {
    forall i, j | 0 <= i < j < |s| :: KeyOf(s[i]) != KeyOf(s[j])
  }

  lemma DistinctReversed(passed: seq<Value>)
    requires KeysDistinct(passed)
    ensures KeysDistinct(Reversed(passed))
  {
    var r, n := Reversed(passed), |passed|;
    ReversedAt(passed);
    forall i, j | 0 <= i < j < |r| ensures KeyOf(r[i]) != KeyOf(r[j]) {
      assert r[i] == passed[n - 1 - i] && r[j] == passed[n - 1 - j];
    }
  }

  lemma DistinctPrepended(entry: Value, s: seq<Value>)
    requires KeysDistinct(s) && forall p <- s :: KeyOf(p) != KeyOf(entry)
    ensures KeysDistinct([entry] + s)
  {
    var all := [entry] + s;
    forall i, j | 0 <= i < j < |all| ensures KeyOf(all[i]) != KeyOf(all[j]) {
      assert all[j] == s[j - 1] && all[j] in s;
      assert i > 0 ==> all[i] == s[i - 1];
    }
  }

  /** A chain of one name writes no link at all, and reads back as nothing. */
  lemma SingleChainReadsEmpty(proxies: seq<Value>, name: string, fuel: nat)
    ensures var proxies' := Chained(proxies, [name]);
            Walk(proxies', Some(name), fuel) == Some(([], Some(name)))
            && ChainFrom(proxies', ([], Some(name))) == []
  {
    ChainedOnlyLinks(proxies, [name]);
  }

  lemma ReadNamesExist(proxies: seq<Value>, names: seq<string>, exit: string, fuel: nat)
    requires var proxies' := Chained(proxies, names);
             Walk(proxies', Some(exit), fuel).Some?
             && NamedBy(ChainFrom(proxies', Walk(proxies', Some(exit), fuel).value), names)
    ensures AllPresent(proxies, names)
  {
    var proxies' := Chained(proxies, names);
    var (passed, last) := Walk(proxies', Some(exit), fuel).value;
    var r := ChainFrom(proxies', (passed, last));
    WalkPassesMembers(proxies', Some(exit), fuel);
    ReversedAt(passed);
    ChainedOnlyLinks(proxies, names);
    forall i | 0 <= i < |names| ensures FindNamed(proxies, Str(names[i])).Some? {
      assert KeyOf(r[i]) == Some(Some(names[i]));
      assert r[i] in proxies' by {
        var entry := FindKey(proxies', last);
        if !(entry.Some? && passed != [] && i == 0) {
          assert r[i] in passed;
        }
      }
      SameNames(proxies, proxies', Str(names[i]));
    }
  }

  lemma {:induction false} WalkPassesMembers(proxies: seq<Value>, key: Key, fuel: nat)
    requires Walk(proxies, key, fuel).Some?
    ensures forall p <- Walk(proxies, key, fuel).value.0 :: p in proxies
    decreases fuel
  {
    var k := FindLinked(proxies, key);
    if k.Some? {
      WalkPassesMembers(proxies, NextKey(proxies[k.value]), fuel - 1);
    }
  }

  ghost predicate ReadsBack(proxies: seq<Value>, names: seq<string>, fuel: nat)
    requires names != []
  {
    var proxies' := Chained(proxies, names);
    var walk := Walk(proxies', Some(names[|names| - 1]), fuel);
    walk.Some? && NamedBy(ChainFrom(proxies', walk.value), names)
  }

  /**
   The reader terminates and returns the chain that was written exactly when the chain has at least two
   names, repeats none, and every one names a proxy.
   */
  lemma RoundTripIff(proxies: seq<Value>, names: seq<string>)
    requires names != []
    ensures (exists fuel :: ReadsBack(proxies, names, fuel)) <==>
            2 <= |names| && NoRepeats(names) && AllPresent(proxies, names)
  {
    if 2 <= |names| && NoRepeats(names) && AllPresent(proxies, names) {
      RoundTrip(proxies, names);
      assert ReadsBack(proxies, names, |names|);
    }
    if fuel :| ReadsBack(proxies, names, fuel) {
      var exit := names[|names| - 1];
      ReadNamesAreDistinct(Chained(proxies, names), names, exit, fuel);
      ReadNamesExist(proxies, names, exit, fuel);
      if |names| == 1 {
        assert names == [exit];
        SingleChainReadsEmpty(proxies, exit, fuel);
      }
    }
  }

  lemma ChainedKeepsKeys(proxies: seq<Value>, names: seq<string>)
    ensures |Chained(proxies, names)| == |proxies|
    ensures forall k | 0 <= k < |proxies| :: KeyOf(Chained(proxies, names)[k]) == KeyOf(proxies[k])
  {
    ChainedOnlyLinks(proxies, names);
    SameNames(proxies, Chained(proxies, names), Str(""));
  }

  // ---- Exactly when the reader stops ----------------------------------------------------------

  /** Where the chain's last stretch of present names begins: behind the last name that no proxy has. */
  function Tail(proxies: seq<Value>, names: seq<string>): (t: nat)
    ensures t <= |names|
    ensures forall i | t <= i < |names| :: FindNamed(proxies, Str(names[i])).Some?
    ensures t > 0 ==> FindNamed(proxies, Str(names[t - 1])).None?
  {
    if names == [] then 0
    else if FindNamed(proxies, Str(names[|names| - 1])).None? then |names|
    else Tail(proxies, names[..|names| - 1])
  }

  /** Where the entries behind `b` lead down to it and its name leads no further, the walk ends. */
  lemma {:induction false} DownToStop(proxies: seq<Value>, names: seq<string>, b: nat, i: nat)
    requires b <= i < |names| && FindLinked(proxies, Some(names[b])).None?
    requires forall k | b < k < |names| :: LeadsTo(proxies, names[k], names[k - 1])
    ensures Walk(proxies, Some(names[i]), i).Some?
    decreases i
  {
    if b < i {
      assert LeadsTo(proxies, names[i], names[i - 1]);
      DownToStop(proxies, names, b, i - 1);
    }
  }

  lemma OnlyOnceInTail(names: seq<string>, t: nat, i: nat)
    requires t <= i < |names| && NoRepeats(names[t..])
    ensures IsLast(names, i)
    ensures forall k | t <= k < |names| && k != i :: names[k] != names[i]
  {
    forall k | t <= k < |names| && k != i ensures names[k] != names[i] {
      assert names[k] == names[t..][k - t] && names[i] == names[t..][i - t];
    }
  }

  /** Without a repeat in that stretch the walk goes down it, and stops at its start or just in front of it. */
  lemma TailStops(proxies: seq<Value>, names: seq<string>)
    requires names != [] && NoRepeats(names[Tail(proxies, names)..])
    ensures Stops(Chained(proxies, names), names[|names| - 1])
  {
    var t, n := Tail(proxies, names), |names|;
    var b := if t == 0 then 0 else t - 1;
    if t == 0 {
      OnlyOnceInTail(names, t, 0);
    }
    StopsAt(proxies, names, names[b]);
    forall k | b < k < n ensures LeadsTo(Chained(proxies, names), names[k], names[k - 1]) {
      OnlyOnceInTail(names, t, k);
      LastLeadsBack(proxies, names, k);
    }
    DownToStop(Chained(proxies, names), names, b, n - 1);
  }

  /** Among entries from `t` on that are repeated later, the last: everything behind it is there for the last time. */
  lemma {:induction false} FindLastRepeat(names: seq<string>, t: nat, i: nat, j: nat) returns (p: nat, q: nat)
    requires t <= i < j < |names| && names[i] == names[j]
    ensures t <= p < q < |names| && names[p] == names[q]
    ensures forall k | p < k < |names| :: IsLast(names, k)
    decreases |names| - i
  {
    if k :| i < k < |names| && !IsLast(names, k) {
      var l :| k < l < |names| && names[l] == names[k];
      p, q := FindLastRepeat(names, t, k, l);
    } else {
      p, q := i, j;
    }
  }

  /** Where the entries behind `p` lead down to it and its name is there again, the walk goes round for ever. */
  lemma {:induction false} RoundAndRound(proxies: seq<Value>, names: seq<string>, p: nat, q: nat, i: nat, fuel: nat)
    requires p < q < |names| && names[p] == names[q] && p <= i < |names|
    requires forall k | p < k < |names| :: LeadsTo(proxies, names[k], names[k - 1])
    ensures Walk(proxies, Some(names[i]), fuel).None?
    decreases fuel
  {
    var at := if i == p then q else i;
    assert LeadsTo(proxies, names[at], names[at - 1]);
    if fuel > 0 {
      RoundAndRound(proxies, names, p, q, at - 1, fuel - 1);
    }
    FollowedUntil(proxies, names[i], names[at - 1], fuel);
  }

  lemma FollowedUntil(proxies: seq<Value>, from: string, to: string, fuel: nat)
    requires LeadsTo(proxies, from, to) && (fuel > 0 ==> Walk(proxies, Some(to), fuel - 1).None?)
    ensures Walk(proxies, Some(from), fuel).None?
  {
  }

  /** The reader's loop ends, after some number of links. */
  ghost predicate Stops(proxies: seq<Value>, exit: string) {
    exists fuel :: Walk(proxies, Some(exit), fuel).Some?
  }

  /**
   For every non-empty chain: after writing it, the walk from its last name ends exactly when no name repeats
   behind the last one that no proxy has.
   */
  lemma ReaderStopsIff(proxies: seq<Value>, names: seq<string>)
    requires names != []
    ensures Stops(Chained(proxies, names), names[|names| - 1]) <==> NoRepeats(names[Tail(proxies, names)..])
  {
    var t := Tail(proxies, names);
    if NoRepeats(names[t..]) {
      TailStops(proxies, names);
    } else {
      var p, q := FindTailRepeat(names, t);
      RepeatNeverStops(proxies, names, p, q);
    }
  }

  lemma RepeatNeverStops(proxies: seq<Value>, names: seq<string>, p: nat, q: nat)
    requires Tail(proxies, names) <= p < q < |names| && names[p] == names[q]
    requires forall k | p < k < |names| :: IsLast(names, k)
    ensures !Stops(Chained(proxies, names), names[|names| - 1])
  {
    forall k | p < k < |names| ensures LeadsTo(Chained(proxies, names), names[k], names[k - 1]) {
      LastLeadsBack(proxies, names, k);
    }
    NeverStops(Chained(proxies, names), names, p, q);
  }

  lemma NeverStops(proxies: seq<Value>, names: seq<string>, p: nat, q: nat)
    requires p < q < |names| && names[p] == names[q]
    requires forall k | p < k < |names| :: LeadsTo(proxies, names[k], names[k - 1])
    ensures !Stops(proxies, names[|names| - 1])
  {
    var exit := names[|names| - 1];
    if fuel :| Walk(proxies, Some(exit), fuel).Some? {
      RoundAndRound(proxies, names, p, q, |names| - 1, fuel);
    }
  }

  lemma FindTailRepeat(names: seq<string>, t: nat) returns (p: nat, q: nat)
    requires t <= |names| && !NoRepeats(names[t..])
    ensures t <= p < q < |names| && names[p] == names[q]
    ensures forall k | p < k < |names| :: IsLast(names, k)
  {
    var i, j :| 0 <= i < j < |names[t..]| && names[t..][i] == names[t..][j];
    p, q := FindLastRepeat(names, t, t + i, t + j);
  }

  /** Where every name is present, that is: exactly when the chain repeats no name. */
  lemma PresentChainStopsIff(proxies: seq<Value>, names: seq<string>)
    requires names != [] && AllPresent(proxies, names)
    ensures Stops(Chained(proxies, names), names[|names| - 1]) <==> NoRepeats(names)
  {
    ReaderStopsIff(proxies, names);
    assert Tail(proxies, names) == 0;
    assert names[0..] == names;
  }

  /** An instance: the chain a, b, a of two proxies is written as a cycle, which the reader follows for ever. */
  lemma CycleNeverEnds(proxies: seq<Value>, a: string, b: string)
    requires FindNamed(proxies, Str(a)).Some? && FindNamed(proxies, Str(b)).Some?
    ensures !Stops(Chained(proxies, [a, b, a]), a)
  {
    var names := [a, b, a];
    assert names[0] == names[2];
    PresentChainStopsIff(proxies, names);
  }

  /** Another: with no proxy of the middle name the same chain leaves one link, and the reader stops. */
  lemma AbsentNameBreaksCycle(proxies: seq<Value>, a: string, gone: string)
    requires FindNamed(proxies, Str(gone)).None?
    ensures Stops(Chained(proxies, [a, gone, a]), a)
  {
    var names := [a, gone, a];
    assert names[1] == gone && Tail(proxies, names) >= 2;
    ReaderStopsIff(proxies, names);
  }

  // ---- Every other key, and clearing ----------------------------------------------------------

  /** Unlinking takes away the one key. */
  lemma UnlinkedKeeps(proxy: Value, key: Value)
    requires key != Str(DIALER)
    ensures Unlinked(proxy).Mapping? == proxy.Mapping? && (!proxy.Mapping? ==> Unlinked(proxy) == proxy)
    ensures proxy.Mapping? ==>
              (key in Unlinked(proxy).entries <==> key in proxy.entries)
              && (key in proxy.entries ==> Unlinked(proxy).entries[key] == proxy.entries[key])
  {
  }

  /** Every key but the link is as it was. */
  ghost predicate KeepsOtherKeys(proxies: seq<Value>, proxies': seq<Value>) {
    && |proxies'| == |proxies|
    && forall k | 0 <= k < |proxies| ::
         && proxies'[k].Mapping? == proxies[k].Mapping?
         && (!proxies[k].Mapping? ==> proxies'[k] == proxies[k])
         && (proxies[k].Mapping? ==>
               forall key | key != Str(DIALER) ::
                 && (key in proxies'[k].entries <==> key in proxies[k].entries)
                 && (key in proxies[k].entries ==> proxies'[k].entries[key] == proxies[k].entries[key]))
  }

  lemma SameButLinksKeeps(proxies: seq<Value>, proxies': seq<Value>)
    requires SameButLinks(proxies, proxies')
    ensures KeepsOtherKeys(proxies, proxies')
  {
    forall k | 0 <= k < |proxies|
      ensures proxies'[k].Mapping? == proxies[k].Mapping? && (!proxies[k].Mapping? ==> proxies'[k] == proxies[k])
      ensures proxies[k].Mapping? ==>
                forall key | key != Str(DIALER) ::
                  && (key in proxies'[k].entries <==> key in proxies[k].entries)
                  && (key in proxies[k].entries ==> proxies'[k].entries[key] == proxies[k].entries[key])
    {
      assert Unlinked(proxies'[k]) == Unlinked(proxies[k]);
      if proxies[k].Mapping? {
        forall key | key != Str(DIALER)
          ensures key in proxies'[k].entries <==> key in proxies[k].entries
          ensures key in proxies[k].entries ==> proxies'[k].entries[key] == proxies[k].entries[key]
        {
          UnlinkedKeeps(proxies[k], key);
          UnlinkedKeeps(proxies'[k], key);
        }
      }
    }
  }

  /** Whatever the chain, of whatever entries: no proxy loses or changes anything but its link. */
  lemma RechainedOnlyLinks(proxies: seq<Value>, chain: Option<Value>)
    ensures SameButLinks(proxies, Rechained(proxies, chain))
    ensures KeepsOtherKeys(proxies, Rechained(proxies, chain))
  {
    ClearedIsUnlinked(proxies);
    if chain.Some? && chain.value.Sequence? {
      LinkedOnlyLinks(Cleared(proxies), chain.value.items, |chain.value.items|);
    }
    SameButLinksKeeps(proxies, Rechained(proxies, chain));
  }

  /** There is no chain to write: none is given, or what is given is no list. */
  predicate IsNoChain(chain: Option<Value>) {
    chain.None? || !chain.value.Sequence?
  }

  /** Without a chain every link goes, and from any exit the reader stops at once with nothing. */
  lemma NoChainClears(proxies: seq<Value>, chain: Option<Value>, exit: string, steps: nat)
    requires IsNoChain(chain)
    ensures |Rechained(proxies, chain)| == |proxies|
    ensures forall k | 0 <= k < |proxies| :: Get(Rechained(proxies, chain)[k], "dialer-proxy").None?
    ensures Walk(Rechained(proxies, chain), Some(exit), steps) == Some(([], Some(exit)))
    ensures ChainFrom(Rechained(proxies, chain), ([], Some(exit))) == []
  {
    ClearedIsUnlinked(proxies);
  }

  function ProxiesIn(config: Entries): Option<seq<Value>> {
    if Str("proxies") in config && config[Str("proxies")].Sequence? then Some(config[Str("proxies")].items) else None
  }

  /** In the whole configuration: nothing but the proxies' links changes, and without a chain they are gone. */
  lemma UpdateKeepsRest(config: Entries, chain: Option<Value>)
    ensures Updated(config, chain).Keys == config.Keys
    ensures forall key <- config | key != Str("proxies") :: Updated(config, chain)[key] == config[key]
    ensures ProxiesIn(config).None? ==> Updated(config, chain) == config
    ensures ProxiesIn(config).Some? ==>
              ProxiesIn(Updated(config, chain)).Some?
              && KeepsOtherKeys(ProxiesIn(config).value, ProxiesIn(Updated(config, chain)).value)
    ensures ProxiesIn(config).Some? && IsNoChain(chain) ==>
              forall proxy <- ProxiesIn(Updated(config, chain)).value :: Get(proxy, "dialer-proxy").None?
  {
    if ProxiesIn(config).Some? {
      var proxies := ProxiesIn(config).value;
      RechainedOnlyLinks(proxies, chain);
      if IsNoChain(chain) {
        NoChainClears(proxies, chain, "", 0);
      }
    }
  }

  /** Reading after clearing, through the reader itself. */
  method ClearedReadsEmpty(config: Entries, chain: Option<Value>, exit: string, steps: nat)
    returns (r: Option<Result<seq<Value>, Error>>)
    requires IsNoChain(chain)
    ensures r == Some(if ProxiesIn(config).Some? then Ok([]) else Err(NoProxies))
  {
    UpdateKeepsRest(config, chain);
    if ProxiesIn(config).Some? {
      NoChainClears(ProxiesIn(config).value, chain, exit, steps);
    }
    r := GetProxyChain(Some(Updated(config, chain)), exit, steps);
  }
}
