/**
 Writing an ordered proxy chain into `dialer-proxy` links, and reading the chain back by following the
 links from its exit node.
 */
module ProxyChain {
  import opened Basics
  import opened Yaml

  const NAME := "name"
  const DIALER := "dialer-proxy"
  const PROXIES := "proxies"

  // ---- Writing --------------------------------------------------------------------------------

  function Unlinked(proxy: Value): Value {
    if proxy.Mapping? then Mapping(proxy.entries - {Str(DIALER)}) else proxy
  }

  function WithLink(proxy: Value, to: Value): Value
    requires proxy.Mapping?
  {
    Mapping(proxy.entries[Str(DIALER) := to])
  }

  /** First proxy whose `name` is exactly this value. */
  function FindNamed(proxies: seq<Value>, name: Value): (r: Option<nat>)
    ensures r.Some? ==> r.value < |proxies| && Get(proxies[r.value], NAME) == Some(name)
    ensures r.Some? ==> forall k | 0 <= k < r.value :: Get(proxies[k], NAME) != Some(name)
    ensures r.None? ==> forall k | 0 <= k < |proxies| :: Get(proxies[k], NAME) != Some(name)
  {
    if proxies == [] then None
    else if Get(proxies[0], NAME) == Some(name) then Some(0)
    else
      var r := FindNamed(proxies[1..], name);
      assert forall k | 1 <= k < |proxies| :: proxies[k] == proxies[1..][k - 1];
      if r.Some? then Some(r.value + 1) else None
  }

  function Cleared(proxies: seq<Value>): seq<Value> {
    seq(|proxies|, i requires 0 <= i < |proxies| => Unlinked(proxies[i]))
  }

  /** Links each of the first `n` chain entries to the one before it. */
  function Linked(proxies: seq<Value>, chain: seq<Value>, n: nat): (r: seq<Value>)
    requires n <= |chain|
    ensures |r| == |proxies|
  {
    if n == 0 then proxies
    else
      var before := Linked(proxies, chain, n - 1);
      var k := FindNamed(before, chain[n - 1]);
      if n == 1 || k.None? then before else before[k.value := WithLink(before[k.value], chain[n - 2])]
  }

  /** The proxies after the chain `chain` has replaced whatever links there were. */
  function Rechained(proxies: seq<Value>, chain: Option<Value>): seq<Value> {
    if chain.Some? && chain.value.Sequence? then Linked(Cleared(proxies), chain.value.items, |chain.value.items|)
    else Cleared(proxies)
  }

  function Updated(config: Entries, chain: Option<Value>): Entries {
    if Str(PROXIES) in config && config[Str(PROXIES)].Sequence? then
      config[Str(PROXIES) := Sequence(Rechained(config[Str(PROXIES)].items, chain))]
    else config
  }

  class IRuntime {
    var config: Option<Entries>

    constructor (config: Option<Entries>)
      ensures this.config == config
    {
      this.config := config;
    }

    method UpdateProxyChainConfig(chain: Option<Value>)
      modifies this
      ensures config == if old(config).None? then None else Some(Updated(old(config).value, chain))
    {
      if config.None? {
        return;
      }
      var entries := config.value;
      if Str(PROXIES) !in entries || !entries[Str(PROXIES)].Sequence? {
        return;
      }
      var proxies := entries[Str(PROXIES)].items;
      ghost var before := proxies;
      for i := 0 to |proxies|
        invariant |proxies| == |before|
        invariant forall k | 0 <= k < i :: proxies[k] == Unlinked(before[k])
        invariant forall k | i <= k < |before| :: proxies[k] == before[k]
      {
        if proxies[i].Mapping? {
          if Str(DIALER) in proxies[i].entries {
            proxies := proxies[i := Mapping(proxies[i].entries - {Str(DIALER)})];
          } else {
            assert proxies[i].entries - {Str(DIALER)} == proxies[i].entries;
          }
        }
      }
      assert proxies == Cleared(before);
      if chain.Some? && chain.value.Sequence? {
        var names := chain.value.items;
        for i := 0 to |names|
          invariant proxies == Linked(Cleared(before), names, i)
        {
          var k := FindNamed(proxies, names[i]);
          if k.Some? && i != 0 {
            proxies := proxies[k.value := Mapping(proxies[k.value].entries[Str(DIALER) := names[i - 1]])];
          }
        }
      }
      config := Some(entries[Str(PROXIES) := Sequence(proxies)]);
    }
  }

  // ---- Reading --------------------------------------------------------------------------------

  /** A name as the reader compares it: a value that is not a string counts as a name without text. */
  type Key = Option<string>

  function KeyOf(proxy: Value): Option<Key> {
    var name := Get(proxy, NAME);
    if name.Some? then Some(AsStr(name.value)) else None
  }

  predicate LinksOn(proxy: Value, key: Key) {
    KeyOf(proxy) == Some(key) && Get(proxy, DIALER).Some?
  }

  /** First proxy with this key that links on. */
  function FindLinked(proxies: seq<Value>, key: Key): (r: Option<nat>)
    ensures r.Some? ==> r.value < |proxies| && LinksOn(proxies[r.value], key)
    ensures r.Some? ==> forall k | 0 <= k < r.value :: !LinksOn(proxies[k], key)
    ensures r.None? ==> forall k | 0 <= k < |proxies| :: !LinksOn(proxies[k], key)
  {
    if proxies == [] then None
    else if LinksOn(proxies[0], key) then Some(0)
    else
      var r := FindLinked(proxies[1..], key);
      assert forall k | 1 <= k < |proxies| :: proxies[k] == proxies[1..][k - 1];
      if r.Some? then Some(r.value + 1) else None
  }

  /** First proxy with this key, linked or not. */
  function FindKey(proxies: seq<Value>, key: Key): (r: Option<nat>)
    ensures r.Some? ==> r.value < |proxies| && KeyOf(proxies[r.value]) == Some(key)
    ensures r.Some? ==> forall k | 0 <= k < r.value :: KeyOf(proxies[k]) != Some(key)
    ensures r.None? ==> forall k | 0 <= k < |proxies| :: KeyOf(proxies[k]) != Some(key)
  {
    if proxies == [] then None
    else if KeyOf(proxies[0]) == Some(key) then Some(0)
    else
      var r := FindKey(proxies[1..], key);
      assert forall k | 1 <= k < |proxies| :: proxies[k] == proxies[1..][k - 1];
      if r.Some? then Some(r.value + 1) else None
  }

  function NextKey(proxy: Value): Key
    requires Get(proxy, DIALER).Some?
  {
    AsStr(Get(proxy, DIALER).value)
  }

  /** A walk as it looks from further back, with the proxies passed until then in front. */
  function Behind(passed: seq<Value>, walk: Option<(seq<Value>, Key)>): Option<(seq<Value>, Key)> {
    if walk.None? then None else Some((passed + walk.value.0, walk.value.1))
  }

  /** The proxies passed by following links from `key`, and the key at the end; `None` past `fuel` links. */
  function Walk(proxies: seq<Value>, key: Key, fuel: nat): Option<(seq<Value>, Key)>
    decreases fuel
  {
    var k := FindLinked(proxies, key);
    if k.None? then Some(([], key))
    else if fuel == 0 then None
    else Behind([proxies[k.value]], Walk(proxies, NextKey(proxies[k.value]), fuel - 1))
  }

  /** What the reader returns for a walk: the entry proxy if found, then the linked ones up to the exit. */
  function ChainFrom(proxies: seq<Value>, walk: (seq<Value>, Key)): seq<Value> {
    var entry := FindKey(proxies, walk.1);
    if entry.Some? && walk.0 != [] then [proxies[entry.value]] + Reversed(walk.0) else Reversed(walk.0)
  }

  datatype Error = NoConfig | NoProxies

  function ProxiesOf(config: Option<Entries>): Result<seq<Value>, Error> {
    if config.None? then Err(NoConfig)
    else if Str(PROXIES) in config.value && config.value[Str(PROXIES)].Sequence? then
      Ok(config.value[Str(PROXIES)].items)
    else Err(NoProxies)
  }

  lemma {:induction false} MoreFuel(proxies: seq<Value>, key: Key, fuel: nat, more: nat)
    requires Walk(proxies, key, fuel).Some? && fuel <= more
    ensures Walk(proxies, key, more) == Walk(proxies, key, fuel)
    decreases fuel
  {
    var k := FindLinked(proxies, key);
    if k.Some? {
      MoreFuel(proxies, NextKey(proxies[k.value]), fuel - 1, more - 1);
    }
  }

  /**
   The reader, watched for `steps` links. Its walk has no bound of its own; `None` means that it is still
   walking by then, and a walk that never ends is one that is still going after any number of them.
   */
  method GetProxyChain(config: Option<Entries>, exit: string, steps: nat) returns (r: Option<Result<seq<Value>, Error>>)
    ensures r == if ProxiesOf(config).Err? then Some(Err(ProxiesOf(config).error))
                 else
                   var walk := Walk(ProxiesOf(config).value, Some(exit), steps);
                   if walk.None? then None else Some(Ok(ChainFrom(ProxiesOf(config).value, walk.value)))
    ensures r == Some(Err(NoConfig)) <==> config.None?
    ensures r == Some(Err(NoProxies)) <==>
            config.Some? && (Str(PROXIES) !in config.value || !config.value[Str(PROXIES)].Sequence?)
  {
    if config.None? {
      return Some(Err(NoConfig));
    }
    if Str(PROXIES) !in config.value || !config.value[Str(PROXIES)].Sequence? {
      return Some(Err(NoProxies));
    }
    var proxies := config.value[Str(PROXIES)].items;
    var walked, key := FollowLinks(proxies, Some(exit), steps);
    if walked.None? {
      return None;
    }
    var chain := walked.value;
    var entry := FindKey(proxies, key);
    if entry.Some? && chain != [] {
      chain := chain + [proxies[entry.value]];
      assert chain[..|chain| - 1] == walked.value;
    }
    r := Some(Ok(Reversed(chain)));
  }

  /** Its loop: the proxies passed and the key at the end, or nothing if it is still going. */
  method FollowLinks(proxies: seq<Value>, exit: Key, steps: nat) returns (chain: Option<seq<Value>>, key: Key)
    ensures Walk(proxies, exit, steps) == if chain.None? then None else Some((chain.value, key))
  {
    key := exit;
    var passed: seq<Value> := [];
    var left := steps;
    var found := FindLinked(proxies, key);
    assert Behind([], Walk(proxies, key, left)) == Walk(proxies, key, left) by {
      assert forall s: seq<Value> :: [] + s == s;
    }
    while found.Some?
      invariant found == FindLinked(proxies, key)
      invariant Walk(proxies, exit, steps) == Behind(passed, Walk(proxies, key, left))
      decreases left
    {
      if left == 0 {
        return None, key;
      }
      var proxy := proxies[found.value];
      BehindOneMore(passed, proxy, Walk(proxies, NextKey(proxy), left - 1));
      passed := passed + [proxy];
      key := NextKey(proxy);
      left := left - 1;
      found := FindLinked(proxies, key);
    }
    assert passed + [] == passed;
    chain := Some(passed);
  }

  lemma BehindOneMore(passed: seq<Value>, proxy: Value, rest: Option<(seq<Value>, Key)>)
    ensures Behind(passed, Behind([proxy], rest)) == Behind(passed + [proxy], rest)
  {
    if rest.Some? {
      assert passed + ([proxy] + rest.value.0) == (passed + [proxy]) + rest.value.0;
    }
  }
}
