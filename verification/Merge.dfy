/** Overlaying one configuration on another: the recursive merge, and the merge with two special keys. */
module Merge {
  import opened Basics
  import opened Yaml

  const DNS := Str("dns")
  const HOSTS := Str("hosts")

  // ---- Lower-casing keys ----------------------------------------------------------------------

  function Lower(s: string): string {
    seq(|s|, i requires 0 <= i < |s| => LowerChar(s[i]))
  }

  /** A mapping as it is iterated: its entries in order. */
  type Listing = seq<(Value, Value)>

  /** Later entries win where lower-casing makes keys equal; keys that are not strings are dropped. */
  function Lowercased(listing: Listing): Entries {
    if listing == [] then map[]
    else
      var (key, value) := listing[|listing| - 1];
      var before := Lowercased(listing[..|listing| - 1]);
      if key.Str? then before[Str(Lower(key.s)) := value] else before
  }

  method UseLowercase(listing: Listing) returns (lowercased: Entries)
    ensures lowercased == Lowercased(listing)
  {
    lowercased := map[];
    for i := 0 to |listing|
      invariant lowercased == Lowercased(listing[..i])
    {
      assert listing[..i + 1][..i] == listing[..i];
      var (key, value) := listing[i];
      if key.Str? {
        lowercased := lowercased[Str(Lower(key.s)) := value];
      }
    }
    assert listing[..|listing|] == listing;
  }

  // ---- The merges -----------------------------------------------------------------------------

  /** `b` laid over `a`. */
  function Merged(a: Value, b: Value): Value
    decreases b
  {
    if a.Mapping? && b.Mapping? then
      Mapping(map k | k in a.entries.Keys + b.entries.Keys ::
        if k !in b.entries then a.entries[k]
        else if k in a.entries then Merged(a.entries[k], b.entries[k])
        else b.entries[k])
    else b
  }

  /** How one overlay value is laid over what the configuration has under that key, if anything. */
  function Overlaid(key: Value, existing: Option<Value>, value: Value): Value {
    if existing.None? || (key == HOSTS) then value
    else if key == DNS && existing.value.Mapping? && value.Mapping? then
      Mapping(existing.value.entries + value.entries)
    else Merged(existing.value, value)
  }

  function Lookup(config: Entries, key: Value): Option<Value> {
    if key in config then Some(config[key]) else None
  }

  function OverlaidAll(overlay: Entries, config: Entries): Entries {
    map k | k in config.Keys + overlay.Keys ::
      if k in overlay then Overlaid(k, Lookup(config, k), overlay[k]) else config[k]
  }

  function UseMerged(listing: Listing, config: Entries): Entries {
    OverlaidAll(Lowercased(listing), config)
  }

  /** Merges key by key, in whatever order the overlay's keys come. */
  method DeepMerge(a: Value, b: Value) returns (r: Value)
    ensures r == Merged(a, b)
    decreases b
  {
    if !a.Mapping? || !b.Mapping? {
      return b;
    }
    var entries := a.entries;
    var keys := b.entries.Keys;
    while keys != {}
      invariant keys <= b.entries.Keys
      invariant entries.Keys == a.entries.Keys + (b.entries.Keys - keys)
      invariant forall k <- entries :: entries[k] ==
                  if k in keys || k !in b.entries then a.entries[k] else Merged(a, b).entries[k]
      decreases keys
    {
      var key :| key in keys;
      keys := keys - {key};
      if key in entries {
        var merged := DeepMerge(entries[key], b.entries[key]);
        entries := entries[key := merged];
      } else {
        entries := entries[key := b.entries[key]];
      }
    }
    r := Mapping(entries);
  }

  method UseMerge(listing: Listing, config: Entries) returns (r: Entries)
    ensures r == UseMerged(listing, config)
  {
    var overlay := UseLowercase(listing);
    r := config;
    var keys := overlay.Keys;
    while keys != {}
      invariant keys <= overlay.Keys
      invariant r.Keys == config.Keys + (overlay.Keys - keys)
      invariant forall k <- r :: r[k] ==
                  if k in keys || k !in overlay then config[k] else Overlaid(k, Lookup(config, k), overlay[k])
      decreases keys
    {
      var key :| key in keys;
      keys := keys - {key};
      var value := overlay[key];
      assert Lookup(r, key) == Lookup(config, key);
      if key in r && r[key].Mapping? && value.Mapping? && key == DNS {
        r := r[key := Mapping(r[key].entries + value.entries)];
      } else if key in r && key != HOSTS {
        var merged := DeepMerge(r[key], value);
        r := r[key := merged];
      } else {
        r := r[key := value];
      }
      assert r[key] == Overlaid(key, Lookup(config, key), value);
    }
  }

  // ---- Idempotence ----------------------------------------------------------------------------

  lemma {:induction false} MergedSelf(b: Value)
    ensures Merged(b, b) == b
  {
    if b.Mapping? {
      forall k <- b.entries ensures Merged(b.entries[k], b.entries[k]) == b.entries[k] {
        MergedSelf(b.entries[k]);
      }
    }
  }

  /** Laying the same overlay again changes nothing, at any depth. */
  lemma {:induction false} MergedIdempotent(a: Value, b: Value)
    ensures Merged(Merged(a, b), b) == Merged(a, b)
    decreases b
  {
    if a.Mapping? && b.Mapping? {
      forall k <- b.entries ensures Merged(Merged(a, b).entries[k], b.entries[k]) == Merged(a, b).entries[k] {
        if k in a.entries {
          MergedIdempotent(a.entries[k], b.entries[k]);
        } else {
          MergedSelf(b.entries[k]);
        }
      }
    } else {
      MergedSelf(b);
    }
  }

  lemma OverlaidIdempotent(key: Value, existing: Option<Value>, value: Value)
    ensures var once := Overlaid(key, existing, value); Overlaid(key, Some(once), value) == once
  {
    MergedSelf(value);
    if existing.Some? {
      MergedIdempotent(existing.value, value);
      if key == DNS && existing.value.Mapping? && value.Mapping? {
        var e, v := existing.value.entries, value.entries;
        assert e + v + v == e + v;
      }
    }
    if key == DNS && value.Mapping? {
      assert value.entries + value.entries == value.entries;
    }
  }

  /** The merge with its shallow `dns` and replacing `hosts` is idempotent in the overlay too. */
  lemma UseMergeIdempotent(listing: Listing, config: Entries)
    ensures UseMerged(listing, UseMerged(listing, config)) == UseMerged(listing, config)
  {
    var overlay := Lowercased(listing);
    var once := OverlaidAll(overlay, config);
    forall k <- overlay ensures Overlaid(k, Lookup(once, k), overlay[k]) == once[k] {
      OverlaidIdempotent(k, Lookup(config, k), overlay[k]);
    }
  }

  // ---- Associativity --------------------------------------------------------------------------

  /** Nothing of `a` shows through `c`. */
  predicate Covered(a: Value, c: Value)
    decreases c
  {
    a.Mapping? && c.Mapping? ==>
      a.entries.Keys <= c.entries.Keys && forall k <- a.entries :: Covered(a.entries[k], c.entries[k])
  }

  lemma {:induction false} CoveredIff(a: Value, c: Value)
    ensures Covered(a, c) <==> Merged(a, c) == c
    decreases c
  {
    if a.Mapping? && c.Mapping? {
      forall k <- a.entries | k in c.entries
        ensures Covered(a.entries[k], c.entries[k]) <==> Merged(a.entries[k], c.entries[k]) == c.entries[k]
      {
        CoveredIff(a.entries[k], c.entries[k]);
      }
      if Merged(a, c) == c {
        forall k <- a.entries ensures k in c.entries && Covered(a.entries[k], c.entries[k]) {
          assert k in Merged(a, c).entries;
          assert Merged(a, c).entries[k] == c.entries[k];
        }
      }
    }
  }

  /**
   Merging commutes with grouping here: nowhere is the middle value a non-mapping between two mappings,
   unless the upper one hides the lower one completely.
   */
  predicate Groups(a: Value, b: Value, c: Value)
    decreases c
  {
    a.Mapping? && c.Mapping? ==>
      if b.Mapping? then
        forall k <- c.entries | k in a.entries && k in b.entries :: Groups(a.entries[k], b.entries[k], c.entries[k])
      else Covered(a, c)
  }

  lemma MergedAt(a: Value, b: Value, k: Value)
    requires a.Mapping? && b.Mapping?
    ensures Merged(a, b).Mapping?
    ensures Lookup(Merged(a, b).entries, k) ==
            if k !in b.entries then Lookup(a.entries, k)
            else if k in a.entries then Some(Merged(a.entries[k], b.entries[k])) else Some(b.entries[k])
  {
  }

  /** Laying overlays one by one or merged beforehand is the same exactly under this condition. */
  lemma {:induction false} AssociativeIff(a: Value, b: Value, c: Value)
    ensures Merged(a, Merged(b, c)) == Merged(Merged(a, b), c) <==> Groups(a, b, c)
    decreases c
  {
    if a.Mapping? && c.Mapping? {
      if !b.Mapping? {
        CoveredIff(a, c);
      } else {
        var left, right := Merged(a, Merged(b, c)), Merged(Merged(a, b), c);
        forall k ensures Lookup(left.entries, k) == Lookup(right.entries, k) <==>
          (k in a.entries && k in b.entries && k in c.entries ==> Groups(a.entries[k], b.entries[k], c.entries[k]))
        {
          MergedAt(b, c, k);
          MergedAt(a, b, k);
          MergedAt(a, Merged(b, c), k);
          MergedAt(Merged(a, b), c, k);
          if k in a.entries && k in b.entries && k in c.entries {
            AssociativeIff(a.entries[k], b.entries[k], c.entries[k]);
          }
        }
        LookupsDecide(left.entries, right.entries);
      }
    }
  }

  lemma LookupsDecide(m: Entries, n: Entries)
    ensures m == n <==> forall k :: Lookup(m, k) == Lookup(n, k)
  {
    if forall k :: Lookup(m, k) == Lookup(n, k) {
      forall k ensures k in m <==> k in n {
        assert Lookup(m, k) == Lookup(n, k);
      }
      forall k <- m ensures m[k] == n[k] {
        assert Lookup(m, k) == Lookup(n, k);
      }
    }
  }

  /** Where no value of the middle overlay replaces a mapping, grouping never matters. */
  predicate NeverReplaces(a: Value, b: Value)
    decreases b
  {
    a.Mapping? ==> b.Mapping? && forall k <- b.entries | k in a.entries :: NeverReplaces(a.entries[k], b.entries[k])
  }

  lemma {:induction false} Associative(a: Value, b: Value, c: Value)
    requires NeverReplaces(a, b)
    ensures Merged(a, Merged(b, c)) == Merged(Merged(a, b), c)
  {
    GroupsWhenNeverReplaces(a, b, c);
    AssociativeIff(a, b, c);
  }

  lemma {:induction false} GroupsWhenNeverReplaces(a: Value, b: Value, c: Value)
    requires NeverReplaces(a, b)
    ensures Groups(a, b, c)
    decreases c
  {
    if a.Mapping? && c.Mapping? {
      forall k <- c.entries | k in a.entries && k in b.entries
        ensures Groups(a.entries[k], b.entries[k], c.entries[k])
      {
        GroupsWhenNeverReplaces(a.entries[k], b.entries[k], c.entries[k]);
      }
    }
  }

  // ---- Paths ----------------------------------------------------------------------------------

  /** The value at a path of keys. */
  function At(v: Value, path: seq<Value>): Option<Value> {
    if path == [] then Some(v)
    else if v.Mapping? && path[0] in v.entries then At(v.entries[path[0]], path[1..]) else None
  }

  /** The overlay says nothing about this path: it is a mapping up to a point where the key is missing. */
  predicate Silent(b: Value, path: seq<Value>) {
    path != [] && b.Mapping? && (path[0] in b.entries ==> Silent(b.entries[path[0]], path[1..]))
  }

  /** The overlay decides this path: it has a non-mapping here or above, or a mapping the base lacks. */
  predicate Decides(a: Value, b: Value, path: seq<Value>) {
    !b.Mapping? || !a.Mapping?
    || (path != [] && path[0] in b.entries
        && (path[0] !in a.entries || Decides(a.entries[path[0]], b.entries[path[0]], path[1..])))
  }

  /**
   Every path of a merge: where the overlay is silent the base shows through unchanged; where it decides,
   the overlay is taken as it is.
   */
  lemma {:induction false} MergedByPath(a: Value, b: Value, path: seq<Value>)
    ensures At(a, path).Some? && Silent(b, path) ==> At(Merged(a, b), path) == At(a, path)
    ensures Decides(a, b, path) ==> At(Merged(a, b), path) == At(b, path)
    decreases path
  {
    if a.Mapping? && b.Mapping? && path != [] {
      var k := path[0];
      MergedAt(a, b, k);
      if k in a.entries && k in b.entries {
        MergedByPath(a.entries[k], b.entries[k], path[1..]);
      }
    }
  }

  /** Between silent and decided there is nothing but mappings merged with mappings. */
  lemma {:induction false} PathIsSettled(a: Value, b: Value, path: seq<Value>)
    requires At(Merged(a, b), path).Some?
    ensures Silent(b, path) || Decides(a, b, path)
      || (At(a, path).Some? && At(a, path).value.Mapping? && At(b, path).Some? && At(b, path).value.Mapping?)
    decreases path
  {
    if a.Mapping? && b.Mapping? && path != [] {
      MergedAt(a, b, path[0]);
      if path[0] in a.entries && path[0] in b.entries {
        PathIsSettled(a.entries[path[0]], b.entries[path[0]], path[1..]);
      }
    }
  }

  lemma {:induction false} LowercasedIff(listing: Listing, key: string)
    ensures Lookup(Lowercased(listing), Str(key)).Some? <==>
            exists i :: 0 <= i < |listing| && listing[i].0.Str? && Lower(listing[i].0.s) == key
    ensures forall k <- Lowercased(listing) :: k.Str?
  {
    if listing != [] {
      var n := |listing| - 1;
      LowercasedIff(listing[..n], key);
      assert forall i | 0 <= i < n :: listing[..n][i] == listing[i];
      if i :| 0 <= i < |listing| && listing[i].0.Str? && Lower(listing[i].0.s) == key {
        assert i == n || listing[..n][i] == listing[i];
      }
    }
  }

  /** A configuration key no overlay key lower-cases to keeps its value; nothing is ever removed. */
  lemma UseMergeKeepsOthers(listing: Listing, config: Entries, key: Value)
    requires key in config
    ensures key in UseMerged(listing, config)
    ensures (forall i | 0 <= i < |listing| :: !(listing[i].0.Str? && Str(Lower(listing[i].0.s)) == key)) ==>
              UseMerged(listing, config)[key] == config[key]
  {
    LowercasedIff(listing, if key.Str? then key.s else "");
  }

  // ---- Paths of the merge with special keys ---------------------------------------------------

  /** Both sides have a mapping under `dns`, which are then merged one level deep. */
  predicate MergesDns(config: Entries, overlay: Entries) {
    DNS in config && DNS in overlay && config[DNS].Mapping? && overlay[DNS].Mapping?
  }

  /** The overlay leaves this path alone. */
  predicate LeavesAlone(config: Entries, overlay: Entries, path: seq<Value>) {
    && path != []
    && (path[0] in overlay ==>
          if path[0] == HOSTS then false
          else if path[0] == DNS && MergesDns(config, overlay) then |path| > 1 && path[1] !in overlay[DNS].entries
          else Silent(overlay[path[0]], path[1..]))
  }

  /** The overlay's value stands at this path, whatever the configuration had. */
  predicate TakesOver(config: Entries, overlay: Entries, path: seq<Value>) {
    && path != [] && path[0] in overlay
    && (path[0] in config ==>
          if path[0] == HOSTS then true
          else if path[0] == DNS && MergesDns(config, overlay) then |path| > 1 && path[1] in overlay[DNS].entries
          else Decides(config[path[0]], overlay[path[0]], path[1..]))
  }

  lemma AtKey(entries: Entries, path: seq<Value>)
    requires path != []
    ensures At(Mapping(entries), path) == if path[0] in entries then At(entries[path[0]], path[1..]) else None
  {
  }

  /** The shallow merge under `dns`: each of its keys comes whole from one side. */
  lemma DnsByPath(config: Entries, overlay: Entries, path: seq<Value>)
    requires MergesDns(config, overlay) && path != []
    ensures At(Mapping(config[DNS].entries + overlay[DNS].entries), path)
         == if path[0] in overlay[DNS].entries then At(overlay[DNS], path) else At(config[DNS], path)
  {
    AtKey(config[DNS].entries + overlay[DNS].entries, path);
    AtKey(config[DNS].entries, path);
    AtKey(overlay[DNS].entries, path);
    assert config[DNS] == Mapping(config[DNS].entries) && overlay[DNS] == Mapping(overlay[DNS].entries);
  }

  /**
   Every path of the merge with its shallow `dns` and replacing `hosts`: what the overlay leaves alone shows
   through unchanged, and where it takes over its lower-cased value is taken as it is.
   */
  lemma UseMergedByPath(listing: Listing, config: Entries, path: seq<Value>)
    ensures var overlay, r := Lowercased(listing), UseMerged(listing, config);
      && (At(Mapping(config), path).Some? && LeavesAlone(config, overlay, path) ==>
            At(Mapping(r), path) == At(Mapping(config), path))
      && (TakesOver(config, overlay, path) ==> At(Mapping(r), path) == At(Mapping(overlay), path))
  {
    if path != [] {
      var overlay, r, key := Lowercased(listing), UseMerged(listing, config), path[0];
      AtKey(config, path);
      AtKey(overlay, path);
      AtKey(r, path);
      if key in overlay && key in config && key != HOSTS {
        if key == DNS && MergesDns(config, overlay) {
          if |path| > 1 {
            DnsByPath(config, overlay, path[1..]);
          }
        } else {
          MergedByPath(config[key], overlay[key], path[1..]);
        }
      }
    }
  }

  /** Between the two there is nothing but mappings merged with mappings. */
  lemma UseMergedIsSettled(listing: Listing, config: Entries, path: seq<Value>)
    requires At(Mapping(UseMerged(listing, config)), path).Some? && path != []
    ensures var overlay := Lowercased(listing);
      || LeavesAlone(config, overlay, path) || TakesOver(config, overlay, path)
      || (&& At(Mapping(config), path).Some? && At(Mapping(config), path).value.Mapping?
          && At(Mapping(overlay), path).Some? && At(Mapping(overlay), path).value.Mapping?)
  {
    var overlay, r, key := Lowercased(listing), UseMerged(listing, config), path[0];
    AtKey(config, path);
    AtKey(overlay, path);
    AtKey(r, path);
    if key in overlay && key in config && key != HOSTS && !(key == DNS && MergesDns(config, overlay)) {
      PathIsSettled(config[key], overlay[key], path[1..]);
    }
  }

  // ---- The overlay's values -------------------------------------------------------------------

  /** Lower-casing touches capital letters only, and leaves none. */
  lemma LowerIsLower(s: string)
    ensures |Lower(s)| == |s|
    ensures forall i | 0 <= i < |s| :: !('A' <= Lower(s)[i] <= 'Z')
    ensures forall i | 0 <= i < |s| ::
              if 'A' <= s[i] <= 'Z' then Lower(s)[i] as int == s[i] as int + 32 else Lower(s)[i] == s[i]
  {
  }

  /** Entry `i` is the last one whose key lower-cases to `key`. */
  predicate LastFor(listing: Listing, i: nat, key: string) {
    && i < |listing| && listing[i].0.Str? && Lower(listing[i].0.s) == key
    && forall j | i < j < |listing| :: listing[j].0.Str? ==> Lower(listing[j].0.s) != key
  }

  /** Each lower-cased key has the value of the last entry that lower-cases to it. */
  lemma {:induction false} LowercasedValue(listing: Listing, i: nat, key: string)
    requires LastFor(listing, i, key)
    ensures Lookup(Lowercased(listing), Str(key)) == Some(listing[i].1)
  {
    var n := |listing| - 1;
    if i < n {
      assert forall j | 0 <= j < n :: listing[..n][j] == listing[j];
      LowercasedValue(listing[..n], i, key);
    }
  }

  /**
   What the merge takes over is that entry's own value: where it replaces, all of it, and at every path at which the
   overlay takes over, what the entry has there.
   */
  lemma UseMergeTakes(listing: Listing, config: Entries, i: nat, key: string, path: seq<Value>)
    requires LastFor(listing, i, key)
    ensures var r := UseMerged(listing, config);
      && Str(key) in r
      && (Str(key) !in config || !config[Str(key)].Mapping? || !listing[i].1.Mapping? || key == "hosts" ==>
            r[Str(key)] == listing[i].1)
      && (TakesOver(config, Lowercased(listing), [Str(key)] + path) ==>
            At(Mapping(r), [Str(key)] + path) == At(listing[i].1, path))
  {
    var overlay, whole := Lowercased(listing), [Str(key)] + path;
    LowercasedValue(listing, i, key);
    UseMergedByPath(listing, config, whole);
    AtKey(overlay, whole);
    assert whole[1..] == path;
  }
}
