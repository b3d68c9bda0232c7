/**
 The bind claims of a configuration's proxy listeners, conflicts among them, and which of them still need
 probing when a running core is about to release its own. (Platforms other than Windows.)
 */
module Listener {
  import opened Basics
  import opened Yaml

  datatype Ip = V4(bits: nat) | V6(bits: nat)

  const LOCALHOST := V4(0x7f00_0001)
  const UNSPECIFIED_V4 := V4(0)
  const UNSPECIFIED_V6 := V6(0)

  datatype Transport = Tcp | Udp

  datatype BindClaim = BindClaim(name: string, address: Ip, port: nat, transport: Transport)

  /** One row of the listener table. */
  datatype Row = Row(key: string, name: string, transports: seq<Transport>)

  const PROXY_LISTENERS := [
    Row("mixed-port", "mixed", [Tcp, Udp]),
    Row("socks-port", "socks", [Tcp, Udp]),
    Row("port", "http", [Tcp]),
    Row("redir-port", "redir", [Tcp]),
    Row("tproxy-port", "tproxy", [Tcp, Udp])
  ]

  datatype Error = BadPort(key: string) | BadAddress(text: string)

  /** Parsing of textual addresses is the standard library's. */
  type IpParser = string -> Option<Ip>

  // ---- Ports ----------------------------------------------------------------------------------

  function Digit(c: char): Option<nat> {
    if '0' <= c <= '9' then Some((c - '0') as nat) else None
  }

  /** Decimal digits only, at least one. */
  function ParseDigits(s: string): Option<nat> {
    if s == [] then None
    else
      var d := Digit(s[|s| - 1]);
      if d.None? then None
      else if |s| == 1 then d
      else
        var high := ParseDigits(s[..|s| - 1]);
        if high.None? then None else Some(10 * high.value + d.value)
  }

  /** A 16-bit number, with an optional plus sign. */
  function ParseU16(s: string): Option<nat> {
    var n := ParseDigits(if s != [] && s[0] == '+' then s[1..] else s);
    if n.Some? && n.value <= 65535 then n else None
  }

  /** The value is this number, or its decimal text, perhaps with leading zeros and a plus sign. */
  predicate Denotes(value: Value, n: nat) {
    value == Int(n)
    || (value.Str? && ParseDigits(if value.s != [] && value.s[0] == '+' then value.s[1..] else value.s) == Some(n))
  }

  function MappingPort(config: Entries, key: string): (r: Result<Option<nat>, Error>)
    ensures forall n: nat :: r == Ok(Some(n)) <==> 1 <= n <= 65535 && Str(key) in config && Denotes(config[Str(key)], n)
    ensures r.Err? ==> r == Err(BadPort(key))
    ensures r.Ok? && r.value.None? <==> Str(key) !in config
  {
    if Str(key) !in config then Ok(None)
    else
      var value := config[Str(key)];
      var port :=
        match value
        case Int(n) => if 0 <= n <= 65535 then Some(n as nat) else None
        case Str(s) => ParseU16(s)
        case _ => None;
      if port.None? || port.value == 0 then Err(BadPort(key)) else Ok(port)
  }

  /** The decimal text of a number. */
  function Decimal(n: nat): (text: string)
    ensures text != []
  {
    var digit := '0' + (n % 10) as char;
    if n < 10 then [digit] else Decimal(n / 10) + [digit]
  }

  lemma {:induction false} ParseDecimal(n: nat)
    ensures ParseDigits(Decimal(n)) == Some(n) && Decimal(n)[0] != '+'
  {
    var text, digit := Decimal(n), '0' + (n % 10) as char;
    assert Digit(digit) == Some(n % 10);
    if n < 10 {
      assert text == [digit];
    } else {
      ParseDecimal(n / 10);
      assert text[..|text| - 1] == Decimal(n / 10);
    }
  }

  /** A port is read back from each way of writing it, and rejected exactly outside 1 to 65535. */
  lemma PortIsReadBack(config: Entries, key: string, n: nat)
    requires Str(key) in config
    requires config[Str(key)] in [Int(n), Str(Decimal(n)), Str("+" + Decimal(n))]
    ensures MappingPort(config, key) == if 1 <= n <= 65535 then Ok(Some(n)) else Err(BadPort(key))
  {
    ParseDecimal(n);
    assert ("+" + Decimal(n))[1..] == Decimal(n);
  }

  // ---- Addresses ------------------------------------------------------------------------------

  predicate IsSpace(c: char) {
    '\t' <= c <= '\r' || c in " \U{85}\U{A0}\U{1680}\U{2028}\U{2029}\U{202F}\U{205F}\U{3000}"
    || '\U{2000}' <= c <= '\U{200A}'
  }

  function Trimmed(s: string): string {
    if s == [] then s
    else if IsSpace(s[0]) then Trimmed(s[1..])
    else if IsSpace(s[|s| - 1]) then Trimmed(s[..|s| - 1])
    else s
  }

  predicate EqIgnoreCase(s: string, t: string) {
    |s| == |t| && forall i | 0 <= i < |s| :: LowerChar(s[i]) == LowerChar(t[i])
  }

  function Unbracketed(s: string): string {
    if 2 <= |s| && s[0] == '[' && s[|s| - 1] == ']' then s[1..|s| - 1] else s
  }

  function BoolOr(config: Entries, key: string, default: bool): bool {
    if Str(key) in config && config[Str(key)].Bool? then config[Str(key)].b else default
  }

  /** The configured bind address, without surrounding space; empty if there is none. */
  function BindText(config: Entries): string {
    if Str("bind-address") in config && config[Str("bind-address")].Str? then Trimmed(config[Str("bind-address")].s)
    else ""
  }

  predicate AllowsLan(config: Entries) {
    BoolOr(config, "allow-lan", false)
  }

  /** The text names no address by itself: blank or a star means all of them. */
  predicate MeansAll(text: string) {
    text == "" || text == "*"
  }

  function BindAddresses(config: Entries, parse: IpParser): (r: Result<seq<Ip>, Error>)
    ensures r.Ok? ==> |r.value| == 1 || r.value == [UNSPECIFIED_V4, UNSPECIFIED_V6]
    ensures !AllowsLan(config) ==> r == Ok([LOCALHOST])
    ensures AllowsLan(config) && MeansAll(BindText(config)) ==>
              r.Ok? && UNSPECIFIED_V4 in r.value && (UNSPECIFIED_V6 in r.value <==> BoolOr(config, "ipv6", true))
    ensures AllowsLan(config) && EqIgnoreCase(BindText(config), "localhost") ==> r == Ok([LOCALHOST])
    ensures r.Err? ==> r.error == BadAddress(BindText(config))
    ensures r.Err? <==> AllowsLan(config) && !MeansAll(BindText(config)) && !EqIgnoreCase(BindText(config), "localhost")
                        && parse(Unbracketed(BindText(config))).None?
    ensures AllowsLan(config) && !MeansAll(BindText(config)) && !EqIgnoreCase(BindText(config), "localhost")
            && r.Ok? ==>
              r.value == [parse(Unbracketed(BindText(config))).value]
  {
    if !AllowsLan(config) then Ok([LOCALHOST])
    else
      var text := BindText(config);
      if MeansAll(text) then
        Ok([UNSPECIFIED_V4] + if BoolOr(config, "ipv6", true) then [UNSPECIFIED_V6] else [])
      else if EqIgnoreCase(text, "localhost") then Ok([LOCALHOST])
      else
        var ip := parse(Unbracketed(text));
        if ip.Some? then Ok([ip.value]) else Err(BadAddress(text))
  }

  // ---- Claims ---------------------------------------------------------------------------------

  /** A configured listener: its row and its port. */
  datatype Configured = Configured(row: Row, port: nat)

  function ConfiguredListeners(config: Entries, rows: seq<Row>): Result<seq<Configured>, Error> {
    if rows == [] then Ok([])
    else
      var before := ConfiguredListeners(config, rows[..|rows| - 1]);
      var row := rows[|rows| - 1];
      if before.Err? then before
      else
        var port := MappingPort(config, row.key);
        if port.Err? then Err(port.error)
        else if port.value.None? then before
        else Ok(before.value + [Configured(row, port.value.value)])
  }

  function TransportClaims(listener: Configured, address: Ip): seq<BindClaim> {
    seq(|listener.row.transports|, i requires 0 <= i < |listener.row.transports| =>
      BindClaim(listener.row.name, address, listener.port, listener.row.transports[i]))
  }

  function ListenerClaims(listener: Configured, addresses: seq<Ip>): seq<BindClaim> {
    if addresses == [] then []
    else ListenerClaims(listener, addresses[..|addresses| - 1]) + TransportClaims(listener, addresses[|addresses| - 1])
  }

  function ClaimsOf(listeners: seq<Configured>, addresses: seq<Ip>): seq<BindClaim> {
    if listeners == [] then []
    else ClaimsOf(listeners[..|listeners| - 1], addresses) + ListenerClaims(listeners[|listeners| - 1], addresses)
  }

  function ProxyClaims(config: Entries, parse: IpParser): Result<seq<BindClaim>, Error> {
    var addresses := BindAddresses(config, parse);
    if addresses.Err? then Err(addresses.error)
    else
      var listeners := ConfiguredListeners(config, PROXY_LISTENERS);
      if listeners.Err? then Err(listeners.error) else Ok(ClaimsOf(listeners.value, addresses.value))
  }

  method CollectListenerClaims(listener: Configured, addresses: seq<Ip>) returns (claims: seq<BindClaim>)
    ensures claims == ListenerClaims(listener, addresses)
  {
    claims := [];
    for j := 0 to |addresses|
      invariant claims == ListenerClaims(listener, addresses[..j])
    {
      assert addresses[..j + 1][..j] == addresses[..j];
      ghost var before := claims;
      for k := 0 to |listener.row.transports|
        invariant claims == before + TransportClaims(listener, addresses[j])[..k]
      {
        claims := claims + [BindClaim(listener.row.name, addresses[j], listener.port, listener.row.transports[k])];
      }
    }
    assert addresses[..|addresses|] == addresses;
  }

  method CollectClaims(config: Entries, rows: seq<Row>, addresses: seq<Ip>) returns (r: Result<seq<BindClaim>, Error>)
    ensures var listeners := ConfiguredListeners(config, rows);
            r == if listeners.Err? then Err(listeners.error) else Ok(ClaimsOf(listeners.value, addresses))
  {
    var claims: seq<BindClaim> := [];
    ghost var listeners: seq<Configured> := [];
    for i := 0 to |rows|
      invariant ConfiguredListeners(config, rows[..i]) == Ok(listeners)
      invariant claims == ClaimsOf(listeners, addresses)
    {
      assert rows[..i + 1][..i] == rows[..i];
      var port := MappingPort(config, rows[i].key);
      if port.Err? {
        ErrorStays(config, rows, i + 1);
        return Err(port.error);
      }
      if port.value.Some? {
        var listener := Configured(rows[i], port.value.value);
        var more := CollectListenerClaims(listener, addresses);
        claims := claims + more;
        assert (listeners + [listener])[..|listeners|] == listeners;
        listeners := listeners + [listener];
      }
    }
    assert rows[..|rows|] == rows;
    r := Ok(claims);
  }

  method CollectProxyClaims(config: Entries, parse: IpParser) returns (r: Result<seq<BindClaim>, Error>)
    ensures r == ProxyClaims(config, parse)
  {
    var bind := BindAddresses(config, parse);
    if bind.Err? {
      return Err(bind.error);
    }
    r := CollectClaims(config, PROXY_LISTENERS, bind.value);
  }

  lemma {:induction false} ErrorStays(config: Entries, rows: seq<Row>, i: nat)
    requires i <= |rows| && ConfiguredListeners(config, rows[..i]).Err?
    ensures ConfiguredListeners(config, rows) == ConfiguredListeners(config, rows[..i])
    decreases |rows| - i
  {
    if i < |rows| {
      assert rows[..i + 1][..i] == rows[..i];
      ErrorStays(config, rows, i + 1);
    } else {
      assert rows[..i] == rows;
    }
  }

  // ---- Conflicts ------------------------------------------------------------------------------

  predicate IsUnspecified(ip: Ip) {
    ip.bits == 0
  }

  predicate Overlap(left: BindClaim, right: BindClaim) {
    && left.port == right.port && left.transport == right.transport
    && left.address.V4? == right.address.V4?
    && (left.address == right.address || IsUnspecified(left.address) || IsUnspecified(right.address))
  }

  predicate OverlapsAny(claims: seq<BindClaim>, claim: BindClaim) {
    exists i :: 0 <= i < |claims| && Overlap(claims[i], claim)
  }

  /** The first claim that overlaps an earlier one. */
  function FirstConflict(claims: seq<BindClaim>): Option<BindClaim> {
    if claims == [] then None
    else
      var n := |claims| - 1;
      var before := FirstConflict(claims[..n]);
      if before.Some? then before else if OverlapsAny(claims[..n], claims[n]) then Some(claims[n]) else None
  }

  method InternalConflict(claims: seq<BindClaim>) returns (r: Option<BindClaim>)
    ensures r == FirstConflict(claims)
  {
    for index := 0 to |claims|
      invariant FirstConflict(claims[..index]) == None
    {
      assert claims[..index + 1][..index] == claims[..index];
      for i := 0 to index
        invariant forall k | 0 <= k < i :: !Overlap(claims[k], claims[index])
      {
        if Overlap(claims[i], claims[index]) {
          assert Overlap(claims[..index][i], claims[index]);
          ConflictStays(claims, index + 1);
          return Some(claims[index]);
        }
      }
    }
    assert claims[..|claims|] == claims;
    r := None;
  }

  lemma {:induction false} ConflictStays(claims: seq<BindClaim>, n: nat)
    requires n <= |claims| && FirstConflict(claims[..n]).Some?
    ensures FirstConflict(claims) == FirstConflict(claims[..n])
    decreases |claims| - n
  {
    if n < |claims| {
      assert claims[..n + 1][..n] == claims[..n];
      ConflictStays(claims, n + 1);
    } else {
      assert claims[..n] == claims;
    }
  }

  /** The claims not already held by the running core. */
  function NewClaims(current: seq<BindClaim>, candidate: seq<BindClaim>): seq<BindClaim> {
    if candidate == [] then []
    else NewClaims(current, candidate[..|candidate| - 1]) +
         if OverlapsAny(current, candidate[|candidate| - 1]) then [] else [candidate[|candidate| - 1]]
  }

  method RetainNew(current: seq<BindClaim>, candidate: seq<BindClaim>) returns (retained: seq<BindClaim>)
    ensures retained == NewClaims(current, candidate)
  {
    retained := [];
    for i := 0 to |candidate|
      invariant retained == NewClaims(current, candidate[..i])
    {
      assert candidate[..i + 1][..i] == candidate[..i];
      if !OverlapsAny(current, candidate[i]) {
        retained := retained + [candidate[i]];
      }
    }
    assert candidate[..|candidate|] == candidate;
  }

  /** What a port change leads to before any socket is opened. */
  datatype Decision =
    | CurrentInvalid(error: Error)
    | CandidateInvalid(error: Error)
    | Conflict(port: nat, transport: Transport)
    | Probe(claims: seq<BindClaim>)

  function Decide(current: Entries, candidate: Entries, running: bool, parse: IpParser): Decision {
    var held := if running then ProxyClaims(current, parse) else Ok([]);
    if held.Err? then CurrentInvalid(held.error)
    else
      var wanted := ProxyClaims(candidate, parse);
      if wanted.Err? then CandidateInvalid(wanted.error)
      else
        var conflict := FirstConflict(wanted.value);
        if conflict.Some? then Conflict(conflict.value.port, conflict.value.transport)
        else Probe(NewClaims(held.value, wanted.value))
  }

  method ProbeProxyPortChange(current: Entries, candidate: Entries, running: bool, parse: IpParser)
    returns (r: Decision)
    ensures r == Decide(current, candidate, running, parse)
  {
    var held: seq<BindClaim> := [];
    if running {
      var claims := CollectProxyClaims(current, parse);
      if claims.Err? {
        return CurrentInvalid(claims.error);
      }
      held := claims.value;
    }
    var wanted := CollectProxyClaims(candidate, parse);
    if wanted.Err? {
      return CandidateInvalid(wanted.error);
    }
    var conflict := InternalConflict(wanted.value);
    if conflict.Some? {
      return Conflict(conflict.value.port, conflict.value.transport);
    }
    var retained := RetainNew(held, wanted.value);
    r := Probe(retained);
  }

  // ---- Conflicts are repeated ports -----------------------------------------------------------

  /** The port of the first listener, in table order, whose port an earlier one has. */
  function FirstRepeat(listeners: seq<Configured>): Option<nat> {
    if listeners == [] then None
    else
      var n := |listeners| - 1;
      var before := FirstRepeat(listeners[..n]);
      if before.Some? then before
      else if HasPort(listeners[..n], listeners[n].port) then Some(listeners[n].port) else None
  }

  predicate HasPort(listeners: seq<Configured>, port: nat) {
    exists i :: 0 <= i < |listeners| && listeners[i].port == port
  }

  /** Every listener of the table takes TCP first, and no transport twice. */
  predicate WellListed(listener: Configured) {
    listener.row.transports == [Tcp] || listener.row.transports == [Tcp, Udp]
  }

  /** At most one address of each family. */
  predicate OneOfEachFamily(addresses: seq<Ip>) {
    |addresses| == 1 || addresses == [UNSPECIFIED_V4, UNSPECIFIED_V6]
  }

  ghost predicate Clashes(claims: seq<BindClaim>, more: seq<BindClaim>) {
    exists i, j :: 0 <= i < |claims| && 0 <= j < |more| && Overlap(claims[i], more[j])
  }

  lemma {:induction false} ConfiguredAreWellListed(config: Entries, rows: seq<Row>)
    requires forall i | 0 <= i < |rows| :: rows[i].transports == [Tcp] || rows[i].transports == [Tcp, Udp]
    ensures var r := ConfiguredListeners(config, rows);
            r.Ok? ==> AllWellListed(r.value)
  {
    if rows != [] {
      ConfiguredAreWellListed(config, rows[..|rows| - 1]);
    }
  }

  /** Claims from disjoint ports cannot clash. */
  lemma {:induction false} AddingFreshClaims(claims: seq<BindClaim>, more: seq<BindClaim>)
    requires FirstConflict(claims).None? && FirstConflict(more).None? && !Clashes(claims, more)
    ensures FirstConflict(claims + more).None?
  {
    if more == [] {
      assert claims + more == claims;
    } else {
      var n := |more| - 1;
      assert !Clashes(claims, more[..n]) by {
        assert forall j | 0 <= j < n :: more[..n][j] == more[j];
      }
      AddingFreshClaims(claims, more[..n]);
      var all := claims + more;
      assert all[..|all| - 1] == claims + more[..n];
      forall i | 0 <= i < |all| - 1 ensures !Overlap(all[i], more[n]) {
        if i >= |claims| {
          assert all[i] == more[..n][i - |claims|];
        }
      }
    }
  }

  lemma FewClaimsHaveNoConflict(c: BindClaim, d: BindClaim)
    ensures FirstConflict([c]).None?
    ensures !Overlap(c, d) ==> FirstConflict([c, d]).None?
  {
    assert [c][..0] == [] && [c, d][..1] == [c];
  }

  /** The claims of one listener on one address: TCP first, perhaps UDP, which do not overlap. */
  lemma OneAddressHasNoConflict(listener: Configured, address: Ip)
    requires WellListed(listener)
    ensures var claims := TransportClaims(listener, address);
      && FirstConflict(claims).None? && 0 < |claims|
      && claims[0] == BindClaim(listener.row.name, address, listener.port, Tcp)
      && forall c <- claims :: c.port == listener.port && c.address == address
  {
    var claims := TransportClaims(listener, address);
    var tcp := BindClaim(listener.row.name, address, listener.port, Tcp);
    var udp := BindClaim(listener.row.name, address, listener.port, Udp);
    FewClaimsHaveNoConflict(tcp, udp);
    assert claims == if |listener.row.transports| == 1 then [tcp] else [tcp, udp];
  }

  lemma FamiliesDoNotClash(left: seq<BindClaim>, right: seq<BindClaim>)
    requires forall c <- left :: c.address == UNSPECIFIED_V4
    requires forall c <- right :: c.address == UNSPECIFIED_V6
    ensures !Clashes(left, right)
  {
    forall i, j | 0 <= i < |left| && 0 <= j < |right| ensures !Overlap(left[i], right[j]) {
      assert left[i] in left && right[j] in right;
    }
  }

  lemma ClaimsOnOne(listener: Configured, address: Ip)
    ensures ListenerClaims(listener, [address]) == TransportClaims(listener, address)
  {
    assert [address][..0] == [];
  }

  lemma ClaimsOnTwo(listener: Configured, a: Ip, b: Ip)
    ensures ListenerClaims(listener, [a, b]) == TransportClaims(listener, a) + TransportClaims(listener, b)
  {
    assert [a, b][..1] == [a];
    ClaimsOnOne(listener, a);
  }

  lemma BothFamiliesHaveNoConflict(listener: Configured, first: seq<BindClaim>, second: seq<BindClaim>)
    requires WellListed(listener)
    requires first == TransportClaims(listener, UNSPECIFIED_V4) && second == TransportClaims(listener, UNSPECIFIED_V6)
    ensures FirstConflict(first + second).None? && 0 < |first|
    ensures first[0] == BindClaim(listener.row.name, UNSPECIFIED_V4, listener.port, Tcp)
    ensures forall c <- first + second ::
              c.port == listener.port && (c.address == UNSPECIFIED_V4 || c.address == UNSPECIFIED_V6)
  {
    OneAddressHasNoConflict(listener, UNSPECIFIED_V4);
    OneAddressHasNoConflict(listener, UNSPECIFIED_V6);
    FamiliesDoNotClash(first, second);
    AddingFreshClaims(first, second);
  }

  lemma OneListenerHasNoConflict(listener: Configured, addresses: seq<Ip>)
    requires WellListed(listener) && OneOfEachFamily(addresses)
    ensures var claims := ListenerClaims(listener, addresses);
      && FirstConflict(claims).None? && 0 < |claims|
      && claims[0] == BindClaim(listener.row.name, addresses[0], listener.port, Tcp)
      && forall c <- claims :: c.port == listener.port && c.address in addresses
  {
    if |addresses| == 1 {
      assert addresses == [addresses[0]];
      ClaimsOnOne(listener, addresses[0]);
      OneAddressHasNoConflict(listener, addresses[0]);
    } else {
      ClaimsOnTwo(listener, UNSPECIFIED_V4, UNSPECIFIED_V6);
      BothFamiliesHaveNoConflict(listener, TransportClaims(listener, UNSPECIFIED_V4),
                                 TransportClaims(listener, UNSPECIFIED_V6));
    }
  }

  predicate AllWellListed(listeners: seq<Configured>) {
    forall i | 0 <= i < |listeners| :: WellListed(listeners[i])
  }

  lemma {:induction false} ClaimsHavePorts(listeners: seq<Configured>, addresses: seq<Ip>, c: BindClaim)
    requires AllWellListed(listeners) && OneOfEachFamily(addresses) && c in ClaimsOf(listeners, addresses)
    ensures HasPort(listeners, c.port)
  {
    var n := |listeners| - 1;
    if c in ClaimsOf(listeners[..n], addresses) {
      ClaimsHavePorts(listeners[..n], addresses, c);
      var i :| 0 <= i < n && listeners[..n][i].port == c.port;
      assert listeners[i].port == c.port;
    } else {
      OneListenerHasNoConflict(listeners[n], addresses);
      assert listeners[n].port == c.port;
    }
  }

  lemma ListenersClaimTcp(listeners: seq<Configured>, addresses: seq<Ip>, i: nat)
    requires AllWellListed(listeners) && OneOfEachFamily(addresses) && i < |listeners|
    ensures BindClaim(listeners[i].row.name, addresses[0], listeners[i].port, Tcp) in ClaimsOf(listeners, addresses)
  {
    var c := BindClaim(listeners[i].row.name, addresses[0], listeners[i].port, Tcp);
    assert WellListed(listeners[i]);
    assert ClaimedBy(listeners[i], addresses, c);
    ClaimsOfIff(listeners, addresses, c);
  }

  lemma RepeatedPortConflicts(before: seq<BindClaim>, block: seq<BindClaim>, earlier: BindClaim)
    requires FirstConflict(before).None? && block != [] && earlier in before && Overlap(earlier, block[0])
    ensures FirstConflict(before + block) == Some(block[0])
  {
    var all, n := before + block, |before|;
    var k :| 0 <= k < n && before[k] == earlier;
    assert all[..n + 1][..n] == before && all[..n + 1][n] == block[0];
    assert Overlap(before[k], block[0]);
    ConflictStays(all, n + 1);
  }

  lemma FreshPortIsSafe(listeners: seq<Configured>, addresses: seq<Ip>, listener: Configured)
    requires AllWellListed(listeners) && WellListed(listener) && OneOfEachFamily(addresses)
    requires !HasPort(listeners, listener.port)
    ensures !Clashes(ClaimsOf(listeners, addresses), ListenerClaims(listener, addresses))
  {
    var before, block := ClaimsOf(listeners, addresses), ListenerClaims(listener, addresses);
    OneListenerHasNoConflict(listener, addresses);
    forall i, j | 0 <= i < |before| && 0 <= j < |block| ensures !Overlap(before[i], block[j]) {
      ClaimsHavePorts(listeners, addresses, before[i]);
      assert block[j] in block;
    }
  }

  /** The claims conflict exactly when a port repeats, and the first conflict is that port over TCP. */
  lemma {:induction false} ConflictIsFirstRepeat(listeners: seq<Configured>, addresses: seq<Ip>)
    requires AllWellListed(listeners) && OneOfEachFamily(addresses)
    ensures var conflict, port := FirstConflict(ClaimsOf(listeners, addresses)), FirstRepeat(listeners);
            if port.None? then conflict.None?
            else conflict.Some? && conflict.value.port == port.value && conflict.value.transport == Tcp
  {
    if listeners != [] {
      var n := |listeners| - 1;
      var before, block := ClaimsOf(listeners[..n], addresses), ListenerClaims(listeners[n], addresses);
      ConflictIsFirstRepeat(listeners[..n], addresses);
      OneListenerHasNoConflict(listeners[n], addresses);
      if FirstRepeat(listeners[..n]).Some? {
        assert (before + block)[..|before|] == before;
        ConflictStays(before + block, |before|);
      } else if HasPort(listeners[..n], listeners[n].port) {
        var i :| 0 <= i < n && listeners[..n][i].port == listeners[n].port;
        ListenersClaimTcp(listeners[..n], addresses, i);
        RepeatedPortConflicts(before, block,
          BindClaim(listeners[..n][i].row.name, addresses[0], listeners[..n][i].port, Tcp));
      } else {
        FreshPortIsSafe(listeners[..n], addresses, listeners[n]);
        AddingFreshClaims(before, block);
      }
    }
  }

  /**
   For every valid configuration a conflict is reported exactly when two configured listeners share a
   port; it names the first repeated port in table order, always over TCP.
   */
  lemma ConfigurationConflicts(config: Entries, parse: IpParser)
    requires ProxyClaims(config, parse).Ok?
    ensures var listeners := ConfiguredListeners(config, PROXY_LISTENERS);
      && listeners.Ok?
      && var conflict, port := FirstConflict(ProxyClaims(config, parse).value), FirstRepeat(listeners.value);
         if port.None? then conflict.None?
         else conflict.Some? && conflict.value.port == port.value && conflict.value.transport == Tcp
  {
    ConfiguredAreWellListed(config, PROXY_LISTENERS);
    ConflictIsFirstRepeat(ConfiguredListeners(config, PROXY_LISTENERS).value, BindAddresses(config, parse).value);
  }

  lemma {:induction false} FirstRepeatIff(listeners: seq<Configured>)
    ensures FirstRepeat(listeners).Some? <==>
            exists i, j :: 0 <= i < j < |listeners| && listeners[i].port == listeners[j].port
  {
    if listeners != [] {
      var n := |listeners| - 1;
      FirstRepeatIff(listeners[..n]);
      assert forall i | 0 <= i < n :: listeners[..n][i] == listeners[i];
      if i, j :| 0 <= i < j < |listeners| && listeners[i].port == listeners[j].port {
        assert j < n ==> listeners[..n][i].port == listeners[..n][j].port;
        assert j == n ==> listeners[..n][i].port == listeners[n].port;
      }
    }
  }

  // ---- Claims of a running core ---------------------------------------------------------------

  lemma {:induction false} NewClaimsIff(current: seq<BindClaim>, candidate: seq<BindClaim>)
    ensures forall c :: c in NewClaims(current, candidate) <==> c in candidate && !OverlapsAny(current, c)
  {
    if candidate != [] {
      var n := |candidate| - 1;
      NewClaimsIff(current, candidate[..n]);
      assert candidate == candidate[..n] + [candidate[n]];
    }
  }

  lemma {:induction false} NoClaimsLeft(current: seq<BindClaim>, candidate: seq<BindClaim>)
    requires forall c <- candidate :: OverlapsAny(current, c)
    ensures NewClaims(current, candidate) == []
  {
    if candidate != [] {
      var n := |candidate| - 1;
      assert candidate[n] in candidate;
      NoClaimsLeft(current, candidate[..n]);
    }
  }

  /** Restarting a running core on its own valid, conflict-free configuration opens no socket at all. */
  lemma SameConfigurationProbesNothing(config: Entries, parse: IpParser)
    requires ProxyClaims(config, parse).Ok? && FirstConflict(ProxyClaims(config, parse).value).None?
    ensures Decide(config, config, true, parse) == Probe([])
  {
    var claims := ProxyClaims(config, parse).value;
    forall c <- claims ensures OverlapsAny(claims, c) {
      var i :| 0 <= i < |claims| && claims[i] == c;
      assert Overlap(claims[i], c);
    }
    NoClaimsLeft(claims, claims);
  }

  ghost predicate ClaimedBy(listener: Configured, addresses: seq<Ip>, c: BindClaim) {
    && c.name == listener.row.name && c.port == listener.port
    && c.address in addresses && c.transport in listener.row.transports
  }

  lemma {:induction false} ListenerClaimsIff(listener: Configured, addresses: seq<Ip>, c: BindClaim)
    ensures c in ListenerClaims(listener, addresses) <==> ClaimedBy(listener, addresses, c)
  {
    if addresses != [] {
      var n := |addresses| - 1;
      ListenerClaimsIff(listener, addresses[..n], c);
      assert addresses == addresses[..n] + [addresses[n]];
      var more := TransportClaims(listener, addresses[n]);
      if c in more {
        var k :| 0 <= k < |more| && more[k] == c;
      }
      if c.transport in listener.row.transports {
        var k :| 0 <= k < |listener.row.transports| && listener.row.transports[k] == c.transport;
        assert more[k] == BindClaim(listener.row.name, addresses[n], listener.port, c.transport);
      }
    }
  }

  /** A claim is made exactly by a listener, for one of its transports, on one of the addresses. */
  lemma {:induction false} ClaimsOfIff(listeners: seq<Configured>, addresses: seq<Ip>, c: BindClaim)
    ensures c in ClaimsOf(listeners, addresses) <==> exists l <- listeners :: ClaimedBy(l, addresses, c)
  {
    if listeners != [] {
      var n := |listeners| - 1;
      ClaimsOfIff(listeners[..n], addresses, c);
      ListenerClaimsIff(listeners[n], addresses, c);
      assert listeners == listeners[..n] + [listeners[n]];
    }
  }

  /**
   When the addresses stay the same, a candidate claim is probed exactly if no listener of the running
   core has its port with its transport.
   */
  lemma OnlyNewPortsAreProbed(current: seq<Configured>, candidate: seq<Configured>, addresses: seq<Ip>, c: BindClaim)
    requires OneOfEachFamily(addresses) && c in ClaimsOf(candidate, addresses)
    ensures c in NewClaims(ClaimsOf(current, addresses), ClaimsOf(candidate, addresses)) <==>
            forall l <- current | l.port == c.port :: c.transport !in l.row.transports
  {
    var held := ClaimsOf(current, addresses);
    NewClaimsIff(held, ClaimsOf(candidate, addresses));
    ClaimsOfIff(candidate, addresses, c);
    if OverlapsAny(held, c) {
      var i :| 0 <= i < |held| && Overlap(held[i], c);
      assert held[i] in held;
      ClaimsOfIff(current, addresses, held[i]);
    }
    forall l <- current | l.port == c.port && c.transport in l.row.transports ensures OverlapsAny(held, c) {
      var twin := BindClaim(l.row.name, c.address, c.port, c.transport);
      assert ClaimedBy(l, addresses, twin);
      ClaimsOfIff(current, addresses, twin);
      var i :| 0 <= i < |held| && held[i] == twin;
      assert Overlap(held[i], c);
    }
  }
}
