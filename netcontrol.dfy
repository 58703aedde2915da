/** The network control interface: how the reconciler talks to the host.
    Every operation is one run of the `ip` tool; what the tool prints and
    whether it fails is decided by an oracle, so the kernel stays abstract
    while the commands issued are recorded exactly. */
module NetControl {
  import opened Wrappers
  import opened Strings
  import opened Desired

  /** One external command: the program and its argument vector. */
  datatype Invocation = Invocation(command: string, args: seq<string>)

  /** Every command issued so far, oldest first. */
  type History = seq<Invocation>

  /** What a command printed on stdout, and its error (None when it succeeded). */
  datatype Reply = Reply(output: string, err: Option<Error>)

  /** The host's answer to a command, given everything issued before it. */
  type Oracle = (History, Invocation) -> Reply

  /** `execCommand`: runs a command and returns its stdout and its error.
      Every call is appended to `log`; the answer comes from `oracle`. */
  class Executor {
    const oracle: Oracle
    var log: History

    constructor (oracle: Oracle)
      ensures this.oracle == oracle && log == []
    {
      this.oracle := oracle;
      log := [];
    }

    method Exec(command: string, args: seq<string>) returns (output: string, err: Option<Error>)
      modifies this
      ensures log == old(log) + [Invocation(command, args)]
      ensures Reply(output, err) == oracle(old(log), Invocation(command, args))
    {
      var reply := oracle(log, Invocation(command, args));
      log := log + [Invocation(command, args)];
      output, err := reply.output, reply.err;
    }
  }

  function Ip(args: seq<string>): Invocation {
    Invocation("ip", args)
  }

  // ---------------------------------------------------------------------
  // Argument vectors of the `ip` commands the reconciler issues

  const TunnelShowArgs: seq<string> := ["tunnel", "show"]

  function TunnelDelArgs(name: string): seq<string> {
    ["tunnel", "del", name]
  }

  function TunnelAddArgs(t: Tunnel): seq<string> {
    ["tunnel", "add", t.name, "mode", "gre", "local", t.localIp, "remote", t.remoteIp]
  }

  /** The interior address is `TunnelIP/SubnetMask`. */
  function AddrAddArgs(t: Tunnel): seq<string> {
    ["addr", "add", t.tunnelIp + "/" + t.subnetMask, "dev", t.name]
  }

  function LinkUpArgs(t: Tunnel): seq<string> {
    ["link", "set", t.name, "up"]
  }

  const RouteShowArgs: seq<string> := ["route", "show"]

  function RouteAddArgs(r: StaticRoute): seq<string> {
    ["route", "add", r.destination, "via", r.gateway]
  }

  function TableShowArgs(table: string): seq<string> {
    ["route", "show", "table", table]
  }

  /** The seven arguments that attach one nexthop to a multipath route. */
  function NexthopArgs(nh: Nexthop): seq<string> {
    ["nexthop", "dev", nh.dev, "via", nh.via, "weight", Itoa(nh.weight)]
  }

  /** The nexthop arguments of every nexthop, in order. */
  function NexthopsArgs(nhs: seq<Nexthop>): seq<string>
    decreases |nhs|
  {
    if nhs == [] then [] else NexthopsArgs(nhs[..|nhs| - 1]) + NexthopArgs(nhs[|nhs| - 1])
  }

  /** The argument vector of the single `ip route add` that installs an ECMP group. */
  function EcmpArgs(e: EcmpRoute): seq<string> {
    ["route", "add", e.route, "proto", "static", "scope", "global", "table", e.table]
      + NexthopsArgs(e.nexthops)
  }

  lemma {:induction false} NexthopsLayout(nhs: seq<Nexthop>)
    ensures |NexthopsArgs(nhs)| == 7 * |nhs|
    ensures forall i :: 0 <= i < |nhs| ==> NexthopsArgs(nhs)[7 * i..7 * i + 7] == NexthopArgs(nhs[i])
    decreases |nhs|
  {
    if nhs != [] {
      var init := nhs[..|nhs| - 1];
      NexthopsLayout(init);
      var a, b := NexthopsArgs(init), NexthopArgs(nhs[|nhs| - 1]);
      assert NexthopsArgs(nhs) == a + b;
      forall i | 0 <= i < |nhs|
        ensures (a + b)[7 * i..7 * i + 7] == NexthopArgs(nhs[i])
      {
        if i < |nhs| - 1 {
          assert (a + b)[7 * i..7 * i + 7] == a[7 * i..7 * i + 7];
          assert init[i] == nhs[i];
        } else {
          assert (a + b)[7 * i..7 * i + 7] == b;
        }
      }
    }
  }

  /** The exact layout of the ECMP command: nine fixed-position header
      arguments, then seven arguments per nexthop in the group's order. */
  lemma EcmpArgsLayout(e: EcmpRoute)
    ensures |EcmpArgs(e)| == 9 + 7 * |e.nexthops|
    ensures EcmpArgs(e)[..9] == ["route", "add", e.route, "proto", "static", "scope", "global", "table", e.table]
    ensures forall i :: 0 <= i < |e.nexthops| ==>
              EcmpArgs(e)[9 + 7 * i..16 + 7 * i] ==
              ["nexthop", "dev", e.nexthops[i].dev, "via", e.nexthops[i].via, "weight", Itoa(e.nexthops[i].weight)]
  {
    NexthopsLayout(e.nexthops);
    var head := ["route", "add", e.route, "proto", "static", "scope", "global", "table", e.table];
    var tail := NexthopsArgs(e.nexthops);
    assert EcmpArgs(e) == head + tail;
    forall i | 0 <= i < |e.nexthops|
      ensures EcmpArgs(e)[9 + 7 * i..16 + 7 * i] == NexthopArgs(e.nexthops[i])
    {
      assert (head + tail)[9 + 7 * i..16 + 7 * i] == tail[7 * i..7 * i + 7];
    }
  }

  /** Each nexthop's weight can be read back from the command's text. */
  lemma EcmpWeightsRecoverable(e: EcmpRoute, i: nat)
    requires i < |e.nexthops|
    ensures 15 + 7 * i < |EcmpArgs(e)|
    ensures SignedDecimalValue(EcmpArgs(e)[15 + 7 * i]) == e.nexthops[i].weight
  {
    EcmpArgsLayout(e);
    assert EcmpArgs(e)[15 + 7 * i] == EcmpArgs(e)[9 + 7 * i..16 + 7 * i][6];
    ItoaRoundTrip(e.nexthops[i].weight);
  }

  /** The argument-building loop of `setupECMPRoutes`. */
  method BuildEcmpArgs(e: EcmpRoute) returns (args: seq<string>)
    ensures args == EcmpArgs(e)
  {
    var nexthopArgs: seq<string> := [];
    for i := 0 to |e.nexthops|
      invariant nexthopArgs == NexthopsArgs(e.nexthops[..i])
    {
      var nh := e.nexthops[i];
      nexthopArgs := nexthopArgs + ["nexthop", "dev", nh.dev, "via", nh.via, "weight", Itoa(nh.weight)];
      assert e.nexthops[..i + 1][..i] == e.nexthops[..i];
    }
    assert e.nexthops[..|e.nexthops|] == e.nexthops;
    args := ["route", "add", e.route, "proto", "static", "scope", "global", "table", e.table] + nexthopArgs;
  }

  // ---------------------------------------------------------------------
  // Presence probes over the text a `show` command printed

  /** `tunnelExists`: the tunnel's name occurs anywhere in `ip tunnel show`. */
  predicate ShowsTunnel(output: string, name: string) {
    Contains(output, name)
  }

  /** `routeExists`: destination and gateway each occur somewhere in
      `ip route show`, not necessarily on the same line. */
  predicate ShowsRoute(output: string, destination: string, gateway: string) {
    Contains(output, destination) && Contains(output, gateway)
  }

  /** `ecmpRouteExists`: some line of `ip route show table T` contains the route. */
  predicate ShowsEcmpRoute(output: string, route: string) {
    SomeLineContains(output, route)
  }

  /** The scanning loop of `ecmpRouteExists`, which stops at the first matching line. */
  method ScanForRoute(output: string, route: string) returns (found: bool)
    ensures found <==> SomeLineContains(output, route)
    ensures output == [] ==> !found
  {
    var lines := Lines(output);
    var i := 0;
    while i < |lines|
      invariant 0 <= i <= |lines|
      invariant forall j :: 0 <= j < i ==> !Contains(lines[j], route)
    {
      if Contains(lines[i], route) {
        assert Contains(Lines(output)[i], route);
        assert SomeLineContains(output, route);
        return true;
      }
      i := i + 1;
    }
    return false;
  }

  /** The static-route probe is coarse: destination and gateway printed on
      two different lines (no single route holds both) still count as present. */
  lemma ShowsRouteAcrossLines(destination: string, gateway: string)
    requires '\n' !in destination && '\n' !in gateway && gateway != []
    ensures Lines(destination + "\n" + gateway) == [destination, gateway]
    ensures ShowsRoute(destination + "\n" + gateway, destination, gateway)
  {
    var out := destination + "\n" + gateway;
    var k := |destination|;
    assert out[k] == '\n';
    forall j | 0 <= j < k
      ensures out[j] != '\n'
    {
      assert out[j] == destination[j];
    }
    assert NewlineIndex(out) == k by {
      var n := NewlineIndex(out);
      assert n <= k;
      assert n < |out| && out[n] == '\n';
    }
    assert out[..k] == destination;
    assert out[k + 1..] == gateway;
    assert NewlineIndex(gateway) == |gateway|;
    assert Lines(gateway) == [gateway];
    assert out[..|destination|] == destination;
    assert OccursAt(out, destination, 0);
    assert out[k + 1..k + 1 + |gateway|] == gateway;
    assert OccursAt(out, gateway, k + 1);
  }

  /** An ECMP probe hit implies the route occurs in the table output, and
      for a newline-free selector the converse holds on non-empty output. */
  lemma ShowsEcmpRouteIff(output: string, route: string)
    requires '\n' !in route
    ensures ShowsEcmpRoute(output, route) <==> output != [] && Contains(output, route)
  {
    SomeLineContainsIff(output, route);
  }

  // ---------------------------------------------------------------------
  // Which phase a command belongs to

  predicate IsTunnelCommand(c: Invocation) {
    c.command == "ip" && |c.args| >= 1 && (c.args[0] == "tunnel" || c.args[0] == "addr" || c.args[0] == "link")
  }

  predicate IsStaticCommand(c: Invocation) {
    c.command == "ip"
    && (c.args == RouteShowArgs || (|c.args| == 5 && c.args[0] == "route" && c.args[1] == "add" && c.args[3] == "via"))
  }

  predicate IsEcmpCommand(c: Invocation) {
    c.command == "ip" && |c.args| >= 4 && c.args[0] == "route"
    && ((|c.args| == 4 && c.args[1] == "show" && c.args[2] == "table")
        || (|c.args| >= 9 && c.args[1] == "add" && c.args[3] == "proto"))
  }

  /** 0 for a tunnel command, 1 for a static-route command, 2 for an ECMP command, 3 otherwise. */
  function Rank(c: Invocation): nat {
    if IsTunnelCommand(c) then 0
    else if IsStaticCommand(c) then 1
    else if IsEcmpCommand(c) then 2
    else 3
  }

  /** The commands at positions `lo` to `hi` of `s` all have rank `k`. */
  predicate RankOn(s: History, lo: nat, hi: nat, k: nat)
    requires lo <= hi <= |s|
  {
    forall i :: lo <= i < hi ==> Rank(s[i]) == k
  }

  /** From position `lo` on, ranks never decrease: no command of an earlier phase follows one of a later phase. */
  predicate OrderedFrom(s: History, lo: nat) {
    forall i, j :: lo <= i < j < |s| ==> Rank(s[i]) <= Rank(s[j])
  }
}
