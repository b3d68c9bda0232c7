/** The port decision as a whole: what it reads, which answer it gives, and exactly what is left to probe. */
module ListenerLaws {
  import opened Basics
  import opened Yaml
  import opened Listener

  predicate AllSpace(s: string) {
    forall c <- s :: IsSpace(c)
  }

  /** The text is this one with nothing but space around it. */
  predicate Around(s: string, before: string, middle: string, after: string) {
    s == before + middle + after && AllSpace(before) && AllSpace(after)
  }

  lemma SpaceInFront(c: char, s: string, before: string, middle: string, after: string)
    requires IsSpace(c) && Around(s, before, middle, after)
    ensures Around([c] + s, [c] + before, middle, after)
  {
    assert [c] + (before + middle + after) == ([c] + before) + middle + after;
  }

  lemma SpaceBehind(c: char, s: string, before: string, middle: string, after: string)
    requires IsSpace(c) && Around(s, before, middle, after)
    ensures Around(s + [c], before, middle, after + [c])
  {
    assert (before + middle + after) + [c] == before + middle + (after + [c]);
  }

  lemma {:induction false} TrimmedEnds(s: string)
    ensures var t := Trimmed(s); t != [] ==> !IsSpace(t[0]) && !IsSpace(t[|t| - 1])
    decreases |s|
  {
    if s != [] && IsSpace(s[0]) {
      TrimmedEnds(s[1..]);
    } else if s != [] && IsSpace(s[|s| - 1]) {
      TrimmedEnds(s[..|s| - 1]);
    }
  }

  /** Trimming takes nothing but space from around a text; that it takes all of it is `TrimmedEnds`. */
  lemma {:induction false} TrimmedIs(s: string) returns (before: string, after: string)
    ensures Around(s, before, Trimmed(s), after)
    decreases |s|
  {
    if s != [] && IsSpace(s[0]) {
      before, after := TrimmedIs(s[1..]);
      SpaceInFront(s[0], s[1..], before, Trimmed(s[1..]), after);
      before := [s[0]] + before;
      assert [s[0]] + s[1..] == s;
    } else if s != [] && IsSpace(s[|s| - 1]) {
      before, after := TrimmedIs(s[..|s| - 1]);
      SpaceBehind(s[|s| - 1], s[..|s| - 1], before, Trimmed(s[..|s| - 1]), after);
      after := after + [s[|s| - 1]];
      assert s[..|s| - 1] + [s[|s| - 1]] == s;
    } else {
      before, after := [], [];
      assert [] + s + [] == s;
    }
  }

  /** The text looked at is the configured one without the space around it, or empty. */
  lemma BindTextIs(config: Entries) returns (before: string, after: string)
    ensures Str("bind-address") in config && config[Str("bind-address")].Str? ==>
              Around(config[Str("bind-address")].s, before, BindText(config), after)
    ensures Str("bind-address") !in config || !config[Str("bind-address")].Str? ==> BindText(config) == ""
    ensures var t := BindText(config); t != [] ==> !IsSpace(t[0]) && !IsSpace(t[|t| - 1])
  {
    before, after := [], [];
    if Str("bind-address") in config && config[Str("bind-address")].Str? {
      before, after := TrimmedIs(config[Str("bind-address")].s);
      TrimmedEnds(config[Str("bind-address")].s);
    }
  }

  /** Access from the network must be allowed outright; version 6 must be turned off outright. */
  lemma FlagsAre(config: Entries)
    ensures AllowsLan(config) <==> Str("allow-lan") in config && config[Str("allow-lan")] == Bool(true)
    ensures BoolOr(config, "ipv6", true) <==> !(Str("ipv6") in config && config[Str("ipv6")] == Bool(false))
  {
  }

  /** The same letter, capital or small. */
  predicate SameLetter(c: char, d: char) {
    c == d || ('A' <= c <= 'Z' && d as int == c as int + 32) || ('A' <= d <= 'Z' && c as int == d as int + 32)
  }

  lemma EqIgnoreCaseIff(s: string, t: string)
    ensures EqIgnoreCase(s, t) <==> |s| == |t| && forall i | 0 <= i < |s| :: SameLetter(s[i], t[i])
  {
    forall c: char, d: char ensures LowerChar(c) == LowerChar(d) <==> SameLetter(c, d) {
    }
  }

  /** The addresses that the configured text stands for, whatever it is. */
  lemma BindAddressesAre(config: Entries, parse: IpParser)
    requires AllowsLan(config)
    ensures BindText(config) in ["", "*"] ==>
              BindAddresses(config, parse) == Ok([V4(0)] + if BoolOr(config, "ipv6", true) then [V6(0)] else [])
    ensures |BindText(config)| == 9 && (forall i | 0 <= i < 9 :: SameLetter(BindText(config)[i], "localhost"[i])) ==>
              BindAddresses(config, parse) == Ok([V4(0x7f00_0001)])
    ensures forall t :: BindText(config) == "[" + t + "]" && parse(t).Some? ==>
              BindAddresses(config, parse) == Ok([parse(t).value])
    ensures (forall t :: BindText(config) != "[" + t + "]") && BindText(config) !in ["", "*"]
            && !(|BindText(config)| == 9
                 && forall i | 0 <= i < 9 :: SameLetter(BindText(config)[i], "localhost"[i])) ==>
              BindAddresses(config, parse)
              == if parse(BindText(config)).Some? then Ok([parse(BindText(config)).value])
                 else Err(BadAddress(BindText(config)))
  {
    var text := BindText(config);
    EqIgnoreCaseIff(text, "localhost");
    forall t | text == "[" + t + "]" ensures Unbracketed(text) == t && !MeansAll(text) && !SameLetter(text[0], 'l') {
      assert text[0] == '[' && text[|text| - 1] == ']' && text[1..|text| - 1] == t;
    }
    if 2 <= |text| && text[0] == '[' && text[|text| - 1] == ']' {
      assert text == "[" + text[1..|text| - 1] + "]";
    }
  }

  predicate FirstBadPort(config: Entries, rows: seq<Row>, i: nat, error: Error)
    requires i < |rows|
  {
    MappingPort(config, rows[i].key) == Err(error) && forall k | 0 <= k < i :: MappingPort(config, rows[k].key).Ok?
  }

  /** The listeners configured are those with a port, in table order; the first bad port is the error. */
  lemma {:induction false} ConfiguredListenersIs(config: Entries, rows: seq<Row>)
    ensures var r := ConfiguredListeners(config, rows);
      && (r.Ok? <==> forall row <- rows :: MappingPort(config, row.key).Ok?)
      && (r.Ok? ==> forall l :: l in r.value <==>
            l.row in rows && MappingPort(config, l.row.key) == Ok(Some(l.port)))
      && (r.Err? ==> exists i :: 0 <= i < |rows| && FirstBadPort(config, rows, i, r.error))
  {
    if rows != [] {
      var n := |rows| - 1;
      ConfiguredListenersIs(config, rows[..n]);
      assert rows == rows[..n] + [rows[n]];
      var before := ConfiguredListeners(config, rows[..n]);
      if before.Err? {
        var i :| 0 <= i < n && FirstBadPort(config, rows[..n], i, before.error);
        assert forall k | 0 <= k <= i :: rows[..n][k] == rows[k];
        assert FirstBadPort(config, rows, i, before.error);
      } else {
        forall k | 0 <= k < n ensures MappingPort(config, rows[k].key).Ok? {
          assert rows[..n][k] in rows[..n];
        }
        if MappingPort(config, rows[n].key).Err? {
          assert FirstBadPort(config, rows, n, MappingPort(config, rows[n].key).error);
        }
      }
    }
  }

  /** A socket on the claim's address takes this address too. */
  predicate Covers(claim: BindClaim, ip: Ip) {
    claim.address.V4? == ip.V4? && (claim.address == ip || claim.address.bits == 0)
  }

  /** Claims overlap exactly if some address would be taken by both, on one port with one transport. */
  lemma OverlapIff(left: BindClaim, right: BindClaim)
    ensures Overlap(left, right) <==>
            left.port == right.port && left.transport == right.transport
            && exists ip :: Covers(left, ip) && Covers(right, ip)
  {
    if Overlap(left, right) {
      var ip := if left.address.bits == 0 then right.address else left.address;
      assert Covers(left, ip) && Covers(right, ip);
    }
  }

  /** The key, the name and the transports of each proxy listener. */
  predicate IsListener(key: string, name: string, udp: bool) {
    || (key == "mixed-port" && name == "mixed" && udp)
    || (key == "socks-port" && name == "socks" && udp)
    || (key == "port" && name == "http" && !udp)
    || (key == "redir-port" && name == "redir" && !udp)
    || (key == "tproxy-port" && name == "tproxy" && udp)
  }

  lemma TableIff(row: Row)
    ensures row in PROXY_LISTENERS <==>
            exists udp :: IsListener(row.key, row.name, udp) && row.transports == if udp then [Tcp, Udp] else [Tcp]
  {
    if row in PROXY_LISTENERS {
      assert IsListener(row.key, row.name, |row.transports| == 2);
    }
  }

  /** The listener under this key has the claim's name and port, and takes its transport. */
  predicate Asks(config: Entries, key: string, udp: bool, c: BindClaim) {
    IsListener(key, c.name, udp) && MappingPort(config, key) == Ok(Some(c.port)) && (c.transport == Tcp || udp)
  }

  lemma AskedFor(config: Entries, addresses: seq<Ip>, l: Configured, c: BindClaim) returns (udp: bool)
    requires l.row in PROXY_LISTENERS && MappingPort(config, l.row.key) == Ok(Some(l.port))
    requires ClaimedBy(l, addresses, c)
    ensures Asks(config, l.row.key, udp, c)
  {
    TableIff(l.row);
    udp :| IsListener(l.row.key, l.row.name, udp) && l.row.transports == if udp then [Tcp, Udp] else [Tcp];
  }

  lemma AskingListener(config: Entries, addresses: seq<Ip>, key: string, udp: bool, c: BindClaim)
    returns (l: Configured)
    requires Asks(config, key, udp, c) && c.address in addresses
    ensures l.row in PROXY_LISTENERS && MappingPort(config, l.row.key) == Ok(Some(l.port))
    ensures ClaimedBy(l, addresses, c)
  {
    l := Configured(Row(key, c.name, if udp then [Tcp, Udp] else [Tcp]), c.port);
    assert IsListener(l.row.key, l.row.name, udp);
    TableIff(l.row);
  }

  /** What a configuration claims: each listener with a port claims it on every address, over UDP too if it can. */
  lemma ClaimedIff(config: Entries, parse: IpParser, c: BindClaim)
    requires ProxyClaims(config, parse).Ok?
    ensures BindAddresses(config, parse).Ok?
    ensures c in ProxyClaims(config, parse).value <==>
            c.address in BindAddresses(config, parse).value && exists key, udp :: Asks(config, key, udp, c)
  {
    var addresses, listeners := BindAddresses(config, parse).value, ConfiguredListeners(config, PROXY_LISTENERS).value;
    ConfiguredListenersIs(config, PROXY_LISTENERS);
    ClaimsOfIff(listeners, addresses, c);
    if l :| l in listeners && ClaimedBy(l, addresses, c) {
      var udp := AskedFor(config, addresses, l, c);
    }
    if c.address in addresses && exists key, udp :: Asks(config, key, udp, c) {
      var key, udp :| Asks(config, key, udp, c);
      var l := AskingListener(config, addresses, key, udp, c);
      assert l in listeners;
    }
  }

  /** Two of the claims overlap. */
  ghost predicate Conflicting(claims: seq<BindClaim>) {
    exists i, j :: 0 <= i < j < |claims| && Overlap(claims[i], claims[j])
  }

  lemma {:induction false} FirstConflictIs(claims: seq<BindClaim>)
    ensures FirstConflict(claims).Some? <==> Conflicting(claims)
    ensures FirstConflict(claims).Some? ==> FirstConflict(claims).value in claims
  {
    if claims != [] {
      var n := |claims| - 1;
      FirstConflictIs(claims[..n]);
      assert forall k | 0 <= k < n :: claims[..n][k] == claims[k];
      if i, j :| 0 <= i < j < |claims| && Overlap(claims[i], claims[j]) {
        assert j < n ==> Overlap(claims[..n][i], claims[..n][j]);
        assert j == n ==> Overlap(claims[..n][i], claims[n]);
      }
    }
  }

  /** When nothing is held every claim is new. */
  lemma {:induction false} NothingHeld(claims: seq<BindClaim>)
    ensures NewClaims([], claims) == claims
  {
    if claims != [] {
      var n := |claims| - 1;
      NothingHeld(claims[..n]);
      assert claims == claims[..n] + [claims[n]];
    }
  }

  /**
   Which answer is given. The running core's own configuration matters only while it runs, and its error comes first;
   then the candidate's error, then a conflict within the candidate, and only then anything is probed.
   */
  lemma DecisionIs(current: Entries, candidate: Entries, running: bool, parse: IpParser)
    ensures var r := Decide(current, candidate, running, parse);
      var mine, wanted := ProxyClaims(current, parse), ProxyClaims(candidate, parse);
      && (r.CurrentInvalid? <==> running && mine.Err?)
      && (r.CandidateInvalid? <==> !(running && mine.Err?) && wanted.Err?)
      && (r.Conflict? <==> !(running && mine.Err?) && wanted.Ok? && Conflicting(wanted.value))
      && (r.CurrentInvalid? ==> r.error == mine.error) && (r.CandidateInvalid? ==> r.error == wanted.error)
  {
    if ProxyClaims(candidate, parse).Ok? {
      FirstConflictIs(ProxyClaims(candidate, parse).value);
    }
  }

  lemma OverlapsAnyIff(claims: seq<BindClaim>, c: BindClaim)
    ensures OverlapsAny(claims, c) <==> exists d <- claims :: Overlap(d, c)
  {
    if d :| d in claims && Overlap(d, c) {
      var i :| 0 <= i < |claims| && claims[i] == d;
      assert Overlap(claims[i], c);
    }
  }

  /** What is probed: the candidate's claims that overlap none of the running core's; all of them if nothing runs. */
  lemma ProbedIff(current: Entries, candidate: Entries, running: bool, parse: IpParser, c: BindClaim)
    requires Decide(current, candidate, running, parse).Probe?
    ensures ProxyClaims(candidate, parse).Ok? && (running ==> ProxyClaims(current, parse).Ok?)
    ensures c in Decide(current, candidate, running, parse).claims <==>
            c in ProxyClaims(candidate, parse).value
            && !(running && exists d <- ProxyClaims(current, parse).value :: Overlap(d, c))
    ensures !running ==> Decide(current, candidate, running, parse).claims == ProxyClaims(candidate, parse).value
  {
    var held := if running then ProxyClaims(current, parse).value else [];
    NewClaimsIff(held, ProxyClaims(candidate, parse).value);
    OverlapsAnyIff(held, c);
    NothingHeld(ProxyClaims(candidate, parse).value);
  }
}
