/** The reconciliation engine: the three apply phases of main.go and the two
    ways they are sequenced, as functions of the host's answers. Each
    function threads the command history: it receives everything issued
    so far and returns it extended by what the phase issues. */
module Reconcile {
  import opened Wrappers
  import opened Strings
  import opened Desired
  import opened NetControl

  /** The history after a phase and the error the phase returns. */
  datatype Run = Run(log: History, err: Option<Error>)

  // ---------------------------------------------------------------------
  // Counting probes

  predicate IsRouteProbe(c: Invocation) {
    c == Ip(RouteShowArgs)
  }

  predicate IsTableProbe(c: Invocation) {
    c.command == "ip" && |c.args| == 4 && c.args[0] == "route" && c.args[1] == "show" && c.args[2] == "table"
  }

  /** Number of `ip route show` commands in `s`. */
  function RouteProbes(s: History): nat {
    if s == [] then 0 else RouteProbes(s[..|s| - 1]) + (if IsRouteProbe(s[|s| - 1]) then 1 else 0)
  }

  /** Number of `ip route show table T` commands in `s`. */
  function TableProbes(s: History): nat {
    if s == [] then 0 else TableProbes(s[..|s| - 1]) + (if IsTableProbe(s[|s| - 1]) then 1 else 0)
  }

  lemma RankOnPrefix(a: History, b: History, lo: nat, hi: nat, k: nat)
    requires a <= b && lo <= hi <= |a| && RankOn(a, lo, hi, k)
    ensures RankOn(b, lo, hi, k)
  {
    forall i | lo <= i < hi
      ensures Rank(b[i]) == k
    {
      assert b[i] == b[..|a|][i];
    }
  }

  /** Commands of one phase do not change the number of probes of another phase. */
  lemma {:induction false} ProbesUnchanged(h: History, s: History, k: nat)
    requires h <= s && RankOn(s, |h|, |s|, k)
    ensures k != 1 ==> RouteProbes(s) == RouteProbes(h)
    ensures k != 2 ==> TableProbes(s) == TableProbes(h)
    decreases |s|
  {
    if |s| > |h| {
      var init := s[..|s| - 1];
      assert h <= init;
      ProbesUnchanged(h, init, k);
      assert Rank(s[|s| - 1]) == k;
    } else {
      assert s == h;
    }
  }

  /** Three consecutive segments of ranks 0, 1 and 2 make an ordered history. */
  lemma SegmentsOrdered(s: History, p: nat, q: nat, r: nat)
    requires p <= q <= r <= |s|
    requires RankOn(s, p, q, 0) && RankOn(s, q, r, 1) && RankOn(s, r, |s|, 2)
    ensures OrderedFrom(s, p)
  {
  }

  // ---------------------------------------------------------------------
  // Tunnel phase: setupGRETunnels

  /** The answer of `tunnelExists(name)` after history `h`. */
  function TunnelPresent(o: Oracle, h: History, name: string): bool {
    ShowsTunnel(o(h, Ip(TunnelShowArgs)).output, name)
  }

  /** Everything one tunnel's pass issues when nothing fails: the probe, a
      delete only if the tunnel is already present, then add, address and up. */
  function TunnelCommands(t: Tunnel, present: bool): History {
    [Ip(TunnelShowArgs)]
    + (if present then [Ip(TunnelDelArgs(t.name))] else [])
    + [Ip(TunnelAddArgs(t)), Ip(AddrAddArgs(t)), Ip(LinkUpArgs(t))]
  }

  /** One iteration of the tunnel loop: probe, delete if present (ignoring
      the delete's reply), then add, address and up, returning as soon as
      one of those three fails. */
  function TunnelStep(o: Oracle, h: History, t: Tunnel): Run {
    var h1 := h + [Ip(TunnelShowArgs)];
    var h2 := if TunnelPresent(o, h, t.name) then h1 + [Ip(TunnelDelArgs(t.name))] else h1;
    var add := Ip(TunnelAddArgs(t));
    if o(h2, add).err != None then Run(h2 + [add], o(h2, add).err)
    else
      var addr := Ip(AddrAddArgs(t));
      var h3 := h2 + [add];
      if o(h3, addr).err != None then Run(h3 + [addr], o(h3, addr).err)
      else
        var up := Ip(LinkUpArgs(t));
        var h4 := h3 + [addr];
        Run(h4 + [up], o(h4, up).err)
  }

  /** Per-tunnel command sequence: one tunnel issues a prefix of
      `TunnelCommands` that always reaches the add, and a nil error means the
      whole sequence was issued. */
  lemma TunnelStepIssues(o: Oracle, h: History, t: Tunnel)
    ensures h <= TunnelStep(o, h, t).log
    ensures |h| + |TunnelCommands(t, TunnelPresent(o, h, t.name))| - 2 <= |TunnelStep(o, h, t).log|
    ensures TunnelStep(o, h, t).log[|h|..] <= TunnelCommands(t, TunnelPresent(o, h, t.name))
    ensures TunnelStep(o, h, t).err == None ==> TunnelStep(o, h, t).log[|h|..] == TunnelCommands(t, TunnelPresent(o, h, t.name))
  {
  }

  /** Stop at the first failure: within one tunnel the address (at index
      `a + 1`) is issued only after the add (at index `a`) succeeded, the up
      only after the address succeeded, and the error returned is the reply
      to the last command issued. */
  lemma TunnelStepSequence(o: Oracle, h: History, t: Tunnel)
    ensures |h| < |TunnelStep(o, h, t).log|
    ensures var r, a := TunnelStep(o, h, t), |h| + |TunnelCommands(t, TunnelPresent(o, h, t.name))| - 3;
            a + 1 < |r.log| ==> o(r.log[..a], r.log[a]).err == None
    ensures var r, a := TunnelStep(o, h, t), |h| + |TunnelCommands(t, TunnelPresent(o, h, t.name))| - 3;
            a + 2 < |r.log| ==> o(r.log[..a + 1], r.log[a + 1]).err == None
    ensures var r := TunnelStep(o, h, t); r.err == o(r.log[..|r.log| - 1], r.log[|r.log| - 1]).err
  {
    TunnelStepIssues(o, h, t);
    var present := TunnelPresent(o, h, t.name);
    var h1 := h + [Ip(TunnelShowArgs)];
    var h2 := if present then h1 + [Ip(TunnelDelArgs(t.name))] else h1;
    var add, addr := Ip(TunnelAddArgs(t)), Ip(AddrAddArgs(t));
    assert |h2| == |h| + |TunnelCommands(t, present)| - 3;
    var r := TunnelStep(o, h, t);
    if o(h2, add).err == None {
      var h3 := h2 + [add];
      if o(h3, addr).err == None {
        var h4 := h3 + [addr];
        var h5 := h4 + [Ip(LinkUpArgs(t))];
        assert r.log == h5;
        assert h5[..|h2|] == h2 && h5[..|h3|] == h3 && h5[|h2|] == add && h5[|h3|] == addr;
        assert h5[..|h4|] == h4;
      } else {
        assert r.log == h3 + [addr];
        assert r.log[..|h2|] == h2 && r.log[..|h3|] == h3 && r.log[|h2|] == add;
      }
    }
  }

  /** `setupGRETunnels`: the tunnels in order, stopping at the first error. */
  function TunnelPhase(o: Oracle, h: History, ts: seq<Tunnel>): Run
    decreases |ts|
  {
    if ts == [] then Run(h, None)
    else
      var before := TunnelPhase(o, h, ts[..|ts| - 1]);
      if before.err != None then before else TunnelStep(o, before.log, ts[|ts| - 1])
  }

  /** Once a tunnel has failed, later tunnels issue nothing and the error stays. */
  lemma {:induction false} TunnelPhaseStops(o: Oracle, h: History, ts: seq<Tunnel>, k: nat)
    requires k <= |ts| && TunnelPhase(o, h, ts[..k]).err != None
    ensures TunnelPhase(o, h, ts) == TunnelPhase(o, h, ts[..k])
    decreases |ts|
  {
    if k < |ts| {
      var init := ts[..|ts| - 1];
      assert init[..k] == ts[..k];
      TunnelPhaseStops(o, h, init, k);
    } else {
      assert ts[..k] == ts;
    }
  }

  /** Tunnel `k` is where the phase over `ts` stopped: the tunnels before it
      all succeeded, and the phase's result is that tunnel's step. */
  predicate StoppedAt(o: Oracle, h: History, ts: seq<Tunnel>, k: nat)
    requires k < |ts|
  {
    TunnelPhase(o, h, ts[..k]).err == None
    && TunnelPhase(o, h, ts) == TunnelStep(o, TunnelPhase(o, h, ts[..k]).log, ts[k])
  }

  /** An error from the tunnel phase is exactly the failing step of the first
      tunnel that failed, with every tunnel before it completed. */
  lemma {:induction false} TunnelPhaseFirstError(o: Oracle, h: History, ts: seq<Tunnel>)
    requires TunnelPhase(o, h, ts).err != None
    ensures exists k | 0 <= k < |ts| :: StoppedAt(o, h, ts, k)
    decreases |ts|
  {
    var n := |ts|;
    var init := ts[..n - 1];
    var before := TunnelPhase(o, h, init);
    if before.err != None {
      TunnelPhaseFirstError(o, h, init);
      var k :| 0 <= k < |init| && StoppedAt(o, h, init, k);
      assert init[..k] == ts[..k] && init[k] == ts[k];
      assert TunnelPhase(o, h, ts) == before;
      assert StoppedAt(o, h, ts, k);
    } else {
      assert StoppedAt(o, h, ts, n - 1);
    }
  }

  /** `s` holds the add, address and link-up commands of tunnel `t`. */
  predicate Configured(s: History, t: Tunnel) {
    Ip(TunnelAddArgs(t)) in s && Ip(AddrAddArgs(t)) in s && Ip(LinkUpArgs(t)) in s
  }

  /** A nil result means every tunnel was added, addressed and brought up
      by this phase: the tunnels are always recreated. */
  lemma {:induction false} TunnelPhaseCompletes(o: Oracle, h: History, ts: seq<Tunnel>)
    requires TunnelPhase(o, h, ts).err == None
    ensures h <= TunnelPhase(o, h, ts).log
    ensures forall i :: 0 <= i < |ts| ==> Configured(TunnelPhase(o, h, ts).log[|h|..], ts[i])
    decreases |ts|
  {
    if ts != [] {
      var init := ts[..|ts| - 1];
      var before := TunnelPhase(o, h, init);
      TunnelPhaseCompletes(o, h, init);
      var t := ts[|ts| - 1];
      var after := TunnelStep(o, before.log, t);
      var cmds := TunnelCommands(t, TunnelPresent(o, before.log, t.name));
      TunnelStepIssues(o, before.log, t);
      var earlier, later := before.log[|h|..], after.log[|h|..];
      assert later == earlier + after.log[|before.log|..];
      assert Configured(cmds, t) by {
        assert cmds[|cmds| - 3] == Ip(TunnelAddArgs(t));
        assert cmds[|cmds| - 2] == Ip(AddrAddArgs(t));
        assert cmds[|cmds| - 1] == Ip(LinkUpArgs(t));
      }
      forall i | 0 <= i < |ts|
        ensures Configured(later, ts[i])
      {
        if i < |ts| - 1 {
          assert ts[i] == init[i];
          ConfiguredAppend(earlier, cmds, ts[i]);
        } else {
          ConfiguredAppend(cmds, earlier, t);
          assert earlier + cmds == later;
        }
      }
    }
  }

  lemma ConfiguredAppend(a: History, b: History, t: Tunnel)
    requires Configured(a, t) || Configured(b, t)
    ensures Configured(a + b, t) && Configured(b + a, t)
  {
  }

  /** One tunnel only appends tunnel commands. */
  lemma TunnelStepShape(o: Oracle, h: History, t: Tunnel)
    ensures h <= TunnelStep(o, h, t).log
    ensures RankOn(TunnelStep(o, h, t).log, |h|, |TunnelStep(o, h, t).log|, 0)
  {
    TunnelStepIssues(o, h, t);
    var log := TunnelStep(o, h, t).log;
    var cmds := TunnelCommands(t, TunnelPresent(o, h, t.name));
    assert forall j :: 0 <= j < |cmds| ==> Rank(cmds[j]) == 0;
    forall i | |h| <= i < |log|
      ensures Rank(log[i]) == 0
    {
      assert log[i] == log[|h|..][i - |h|] == cmds[i - |h|];
    }
  }

  /** The tunnel phase only appends, and only tunnel commands. */
  lemma {:induction false} TunnelPhaseShape(o: Oracle, h: History, ts: seq<Tunnel>)
    ensures h <= TunnelPhase(o, h, ts).log
    ensures RankOn(TunnelPhase(o, h, ts).log, |h|, |TunnelPhase(o, h, ts).log|, 0)
    decreases |ts|
  {
    if ts != [] {
      var init := ts[..|ts| - 1];
      TunnelPhaseShape(o, h, init);
      var before := TunnelPhase(o, h, init);
      if before.err == None {
        var after := TunnelStep(o, before.log, ts[|ts| - 1]);
        TunnelStepShape(o, before.log, ts[|ts| - 1]);
        RankOnPrefix(before.log, after.log, |h|, |before.log|, 0);
      }
    }
  }

  // ---------------------------------------------------------------------
  // Static-route phase: setupStaticRoutes

  /** One iteration of the static-route loop: probe, and add only if the probe
      did not show the route. The add's reply is not looked at. */
  function StaticStep(o: Oracle, h: History, r: StaticRoute): History {
    var probe := Ip(RouteShowArgs);
    if ShowsRoute(o(h, probe).output, r.destination, r.gateway) then h + [probe]
    else h + [probe, Ip(RouteAddArgs(r))]
  }

  /** `setupStaticRoutes`: every route in order; it always returns nil. */
  function StaticPhase(o: Oracle, h: History, rs: seq<StaticRoute>): History
    decreases |rs|
  {
    if rs == [] then h else StaticStep(o, StaticPhase(o, h, rs[..|rs| - 1]), rs[|rs| - 1])
  }

  /** One route: its probe, then at most one command, which is that route's add. */
  lemma StaticStepShape(o: Oracle, h: History, r: StaticRoute)
    ensures h <= StaticStep(o, h, r)
    ensures |h| < |StaticStep(o, h, r)| <= |h| + 2 && StaticStep(o, h, r)[|h|] == Ip(RouteShowArgs)
    ensures |StaticStep(o, h, r)| == |h| + 2 ==> StaticStep(o, h, r)[|h| + 1] == Ip(RouteAddArgs(r))
    ensures RankOn(StaticStep(o, h, r), |h|, |StaticStep(o, h, r)|, 1)
    ensures RouteProbes(StaticStep(o, h, r)) == RouteProbes(h) + 1
  {
    var probe := Ip(RouteShowArgs);
    var h1 := h + [probe];
    assert h1[..|h|] == h;
    if !ShowsRoute(o(h, probe).output, r.destination, r.gateway) {
      var h2 := h1 + [Ip(RouteAddArgs(r))];
      assert StaticStep(o, h, r) == h2;
      assert h2[..|h1|] == h1;
    }
  }

  /** The static phase only appends static-route commands and probes every route once. */
  lemma {:induction false} StaticPhaseShape(o: Oracle, h: History, rs: seq<StaticRoute>)
    ensures h <= StaticPhase(o, h, rs)
    ensures RankOn(StaticPhase(o, h, rs), |h|, |StaticPhase(o, h, rs)|, 1)
    ensures RouteProbes(StaticPhase(o, h, rs)) == RouteProbes(h) + |rs|
    decreases |rs|
  {
    if rs != [] {
      var init := rs[..|rs| - 1];
      StaticPhaseShape(o, h, init);
      var before := StaticPhase(o, h, init);
      var after := StaticStep(o, before, rs[|rs| - 1]);
      StaticStepShape(o, before, rs[|rs| - 1]);
      RankOnPrefix(before, after, |h|, |before|, 1);
    }
  }

  /** The command at position `i` of `s` is the add of some route of `rs`,
      right after a route probe whose output did not show that route. */
  predicate StaticAddAt(o: Oracle, s: History, i: nat, rs: seq<StaticRoute>)
    requires 0 < i < |s|
  {
    s[i - 1] == Ip(RouteShowArgs)
    && exists k :: 0 <= k < |rs| && s[i] == Ip(RouteAddArgs(rs[k]))
                   && !ShowsRoute(o(s[..i - 1], s[i - 1]).output, rs[k].destination, rs[k].gateway)
  }

  /** Skip-if-present: every command of the phase other than a probe is the
      add of some listed route, issued right after a probe whose output did
      not show that route. */
  lemma {:induction false} StaticAddsJustified(o: Oracle, h: History, rs: seq<StaticRoute>)
    ensures h <= StaticPhase(o, h, rs)
    ensures var s := StaticPhase(o, h, rs);
            forall i :: |h| <= i < |s| && !IsRouteProbe(s[i]) ==> |h| < i && StaticAddAt(o, s, i, rs)
    decreases |rs|
  {
    StaticPhaseShape(o, h, rs);
    if rs != [] {
      var init := rs[..|rs| - 1];
      StaticAddsJustified(o, h, init);
      var before := StaticPhase(o, h, init);
      var r := rs[|rs| - 1];
      var after := StaticStep(o, before, r);
      StaticStepShape(o, before, r);
      forall i | |h| <= i < |after| && !IsRouteProbe(after[i])
        ensures |h| < i && StaticAddAt(o, after, i, rs)
      {
        if i < |before| {
          assert before[i] == after[..|before|][i];
          StaticAddCarried(o, init, rs, before, after, i);
        } else {
          StaticAddNew(o, before, r);
          assert i == |before| + 1;
          assert after[i] == Ip(RouteAddArgs(rs[|rs| - 1]));
        }
      }
    }
  }

  lemma StaticAddNew(o: Oracle, before: History, r: StaticRoute)
    ensures var after := StaticStep(o, before, r);
            |after| <= |before| + 2
            && (|after| > |before| ==> IsRouteProbe(after[|before|]))
            && (|after| == |before| + 2 ==>
                  after[|before| + 1] == Ip(RouteAddArgs(r))
                  && after[|before|] == Ip(RouteShowArgs)
                  && after[..|before|] == before
                  && !ShowsRoute(o(before, after[|before|]).output, r.destination, r.gateway))
  {
  }

  lemma StaticAddCarried(o: Oracle, init: seq<StaticRoute>, rs: seq<StaticRoute>, before: History, after: History, i: nat)
    requires init <= rs && before <= after && 0 < i < |before|
    requires StaticAddAt(o, before, i, init)
    ensures StaticAddAt(o, after, i, rs)
  {
    assert after[i] == before[i] && after[i - 1] == before[i - 1];
    assert after[..i - 1] == before[..i - 1];
    var k :| 0 <= k < |init| && before[i] == Ip(RouteAddArgs(init[k]))
             && !ShowsRoute(o(before[..i - 1], before[i - 1]).output, init[k].destination, init[k].gateway);
    assert init[k] == rs[k];
  }

  /** Running the phase over `a + b` is running it over `a`, then over `b`. */
  lemma {:induction false} StaticPhaseAppend(o: Oracle, h: History, a: seq<StaticRoute>, b: seq<StaticRoute>)
    ensures StaticPhase(o, h, a + b) == StaticPhase(o, StaticPhase(o, h, a), b)
    decreases |b|
  {
    if b == [] {
      assert a + b == a;
    } else {
      StaticPhaseAppend(o, h, a, b[..|b| - 1]);
      assert (a + b)[..|a + b| - 1] == a + b[..|b| - 1];
    }
  }

  /** A non-empty phase starts with the probe of its first route. */
  lemma {:induction false} StaticPhaseStartsWithProbe(o: Oracle, h: History, rs: seq<StaticRoute>)
    requires rs != []
    ensures |StaticPhase(o, h, rs)| > |h| && StaticPhase(o, h, rs)[|h|] == Ip(RouteShowArgs)
    decreases |rs|
  {
    var init := rs[..|rs| - 1];
    var before := StaticPhase(o, h, init);
    StaticStepShape(o, before, rs[|rs| - 1]);
    if init != [] {
      StaticPhaseStartsWithProbe(o, h, init);
      assert StaticPhase(o, h, rs)[..|before|][|h|] == before[|h|];
    }
  }

  /** Route `k` is probed right where the routes before it end, and the
      command after that probe is its `ip route add` exactly when the
      probe's output did not show the route. */
  lemma StaticRouteDecision(o: Oracle, h: History, rs: seq<StaticRoute>, k: nat)
    requires k < |rs|
    ensures var before, s := StaticPhase(o, h, rs[..k]), StaticPhase(o, h, rs);
            |before| < |s| && s[|before|] == Ip(RouteShowArgs)
            && (|before| + 1 < |s| && s[|before| + 1] == Ip(RouteAddArgs(rs[k]))
                <==> !ShowsRoute(o(before, Ip(RouteShowArgs)).output, rs[k].destination, rs[k].gateway))
  {
    var before := StaticPhase(o, h, rs[..k]);
    var rest := rs[k + 1..];
    assert rs[..k + 1] + rest == rs;
    assert rs[..k + 1][..k] == rs[..k];
    StaticPhaseAppend(o, h, rs[..k + 1], rest);
    var mid := StaticStep(o, before, rs[k]);
    var s := StaticPhase(o, mid, rest);
    assert s == StaticPhase(o, h, rs);
    StaticPhaseShape(o, mid, rest);
    assert s[..|mid|] == mid;
    assert s[|before|] == mid[|before|];
    if ShowsRoute(o(before, Ip(RouteShowArgs)).output, rs[k].destination, rs[k].gateway) {
      if rest != [] {
        StaticPhaseStartsWithProbe(o, mid, rest);
        assert Ip(RouteShowArgs) != Ip(RouteAddArgs(rs[k]));
      }
    } else {
      assert s[|before| + 1] == mid[|before| + 1];
    }
  }

  /** Idempotence: when every route already shows, the phase issues only its
      probes, one per route, and no `ip route add`. */
  lemma {:induction false} StaticPhaseConverged(o: Oracle, h: History, rs: seq<StaticRoute>)
    requires forall g, i :: 0 <= i < |rs| ==> ShowsRoute(o(g, Ip(RouteShowArgs)).output, rs[i].destination, rs[i].gateway)
    ensures |StaticPhase(o, h, rs)| == |h| + |rs|
    ensures forall i :: |h| <= i < |StaticPhase(o, h, rs)| ==> StaticPhase(o, h, rs)[i] == Ip(RouteShowArgs)
    decreases |rs|
  {
    if rs != [] {
      var init := rs[..|rs| - 1];
      assert forall g, i :: 0 <= i < |init| ==> ShowsRoute(o(g, Ip(RouteShowArgs)).output, init[i].destination, init[i].gateway) by {
        forall g, i | 0 <= i < |init|
          ensures ShowsRoute(o(g, Ip(RouteShowArgs)).output, init[i].destination, init[i].gateway)
        {
          assert init[i] == rs[i];
        }
      }
      StaticPhaseConverged(o, h, init);
      var before := StaticPhase(o, h, init);
      assert ShowsRoute(o(before, Ip(RouteShowArgs)).output, rs[|rs| - 1].destination, rs[|rs| - 1].gateway);
    }
  }

  /** Against a host that shows none of the routes, every route is probed and
      then added, in list order. */
  lemma {:induction false} StaticPhaseFromScratch(o: Oracle, h: History, rs: seq<StaticRoute>)
    requires forall g, i :: 0 <= i < |rs| ==> !ShowsRoute(o(g, Ip(RouteShowArgs)).output, rs[i].destination, rs[i].gateway)
    ensures |StaticPhase(o, h, rs)| == |h| + 2 * |rs|
    ensures forall i :: 0 <= i < |rs| ==>
              StaticPhase(o, h, rs)[|h| + 2 * i] == Ip(RouteShowArgs)
              && StaticPhase(o, h, rs)[|h| + 2 * i + 1] == Ip(RouteAddArgs(rs[i]))
    decreases |rs|
  {
    if rs != [] {
      var init := rs[..|rs| - 1];
      assert forall g, i :: 0 <= i < |init| ==> !ShowsRoute(o(g, Ip(RouteShowArgs)).output, init[i].destination, init[i].gateway) by {
        forall g, i | 0 <= i < |init|
          ensures !ShowsRoute(o(g, Ip(RouteShowArgs)).output, init[i].destination, init[i].gateway)
        {
          assert init[i] == rs[i];
        }
      }
      StaticPhaseFromScratch(o, h, init);
      var before := StaticPhase(o, h, init);
      var r := rs[|rs| - 1];
      assert !ShowsRoute(o(before, Ip(RouteShowArgs)).output, r.destination, r.gateway);
      var after := before + [Ip(RouteShowArgs), Ip(RouteAddArgs(r))];
      assert StaticPhase(o, h, rs) == after;
      forall i | 0 <= i < |rs|
        ensures after[|h| + 2 * i] == Ip(RouteShowArgs) && after[|h| + 2 * i + 1] == Ip(RouteAddArgs(rs[i]))
      {
        if i < |rs| - 1 {
          assert init[i] == rs[i];
          assert after[|h| + 2 * i] == before[|h| + 2 * i];
          assert after[|h| + 2 * i + 1] == before[|h| + 2 * i + 1];
        }
      }
    }
  }

  /** Continue-on-error: the replies to `ip route add` (success or failure) do
      not change which commands the phase issues; only the probes' output does. */
  lemma {:induction false} StaticPhaseIgnoresAddReplies(o1: Oracle, o2: Oracle, h: History, rs: seq<StaticRoute>)
    requires forall g :: o1(g, Ip(RouteShowArgs)).output == o2(g, Ip(RouteShowArgs)).output
    ensures StaticPhase(o1, h, rs) == StaticPhase(o2, h, rs)
    decreases |rs|
  {
    if rs != [] {
      StaticPhaseIgnoresAddReplies(o1, o2, h, rs[..|rs| - 1]);
    }
  }

  // ---------------------------------------------------------------------
  // ECMP phase: setupECMPRoutes

  /** One iteration of the ECMP loop: probe the group's table, and add the
      whole multipath route only if no line of it shows the route. */
  function EcmpStep(o: Oracle, h: History, e: EcmpRoute): History {
    var probe := Ip(TableShowArgs(e.table));
    if ShowsEcmpRoute(o(h, probe).output, e.route) then h + [probe]
    else h + [probe, Ip(EcmpArgs(e))]
  }

  /** `setupECMPRoutes`: every group in order; it always returns nil. */
  function EcmpPhase(o: Oracle, h: History, es: seq<EcmpRoute>): History
    decreases |es|
  {
    if es == [] then h else EcmpStep(o, EcmpPhase(o, h, es[..|es| - 1]), es[|es| - 1])
  }

  lemma EcmpArgsHead(e: EcmpRoute)
    ensures |EcmpArgs(e)| >= 9 && EcmpArgs(e)[0] == "route" && EcmpArgs(e)[1] == "add" && EcmpArgs(e)[3] == "proto"
  {
    var head := ["route", "add", e.route, "proto", "static", "scope", "global", "table", e.table];
    assert EcmpArgs(e)[..9] == head;
  }

  /** One group: its table probe, then at most one command, which is that group's add. */
  lemma EcmpStepShape(o: Oracle, h: History, e: EcmpRoute)
    ensures h <= EcmpStep(o, h, e)
    ensures |h| < |EcmpStep(o, h, e)| <= |h| + 2 && EcmpStep(o, h, e)[|h|] == Ip(TableShowArgs(e.table))
    ensures |EcmpStep(o, h, e)| == |h| + 2 ==> EcmpStep(o, h, e)[|h| + 1] == Ip(EcmpArgs(e))
    ensures RankOn(EcmpStep(o, h, e), |h|, |EcmpStep(o, h, e)|, 2)
    ensures TableProbes(EcmpStep(o, h, e)) == TableProbes(h) + 1
  {
    var probe := Ip(TableShowArgs(e.table));
    var h1 := h + [probe];
    assert h1[..|h|] == h;
    if !ShowsEcmpRoute(o(h, probe).output, e.route) {
      var add := Ip(EcmpArgs(e));
      EcmpArgsHead(e);
      var h2 := h1 + [add];
      assert EcmpStep(o, h, e) == h2;
      assert h2[..|h1|] == h1;
    }
  }

  /** The ECMP phase only appends ECMP commands and probes every group's table once. */
  lemma {:induction false} EcmpPhaseShape(o: Oracle, h: History, es: seq<EcmpRoute>)
    ensures h <= EcmpPhase(o, h, es)
    ensures RankOn(EcmpPhase(o, h, es), |h|, |EcmpPhase(o, h, es)|, 2)
    ensures TableProbes(EcmpPhase(o, h, es)) == TableProbes(h) + |es|
    decreases |es|
  {
    if es != [] {
      var init := es[..|es| - 1];
      EcmpPhaseShape(o, h, init);
      var before := EcmpPhase(o, h, init);
      var after := EcmpStep(o, before, es[|es| - 1]);
      EcmpStepShape(o, before, es[|es| - 1]);
      RankOnPrefix(before, after, |h|, |before|, 2);
    }
  }

  /** The command at position `i` of `s` is the multipath add of some group
      of `es`, right after the probe of that group's table, whose output had
      no line showing the route. */
  predicate EcmpAddAt(o: Oracle, s: History, i: nat, es: seq<EcmpRoute>)
    requires 0 < i < |s|
  {
    exists k :: 0 <= k < |es| && s[i] == Ip(EcmpArgs(es[k]))
                && s[i - 1] == Ip(TableShowArgs(es[k].table))
                && !ShowsEcmpRoute(o(s[..i - 1], s[i - 1]).output, es[k].route)
  }

  /** Skip-if-present: every command of the phase other than a table probe
      is the multipath add of some listed group, issued right after the probe
      of that group's table whose output had no line showing the route. */
  lemma {:induction false} EcmpAddsJustified(o: Oracle, h: History, es: seq<EcmpRoute>)
    ensures h <= EcmpPhase(o, h, es)
    ensures var s := EcmpPhase(o, h, es);
            forall i :: |h| <= i < |s| && !IsTableProbe(s[i]) ==> |h| < i && EcmpAddAt(o, s, i, es)
    decreases |es|
  {
    EcmpPhaseShape(o, h, es);
    if es != [] {
      var init := es[..|es| - 1];
      EcmpAddsJustified(o, h, init);
      var before := EcmpPhase(o, h, init);
      var e := es[|es| - 1];
      var after := EcmpStep(o, before, e);
      EcmpStepShape(o, before, e);
      forall i | |h| <= i < |after| && !IsTableProbe(after[i])
        ensures |h| < i && EcmpAddAt(o, after, i, es)
      {
        if i < |before| {
          assert before[i] == after[..|before|][i];
          EcmpAddCarried(o, init, es, before, after, i);
        } else {
          EcmpAddNew(o, before, e);
          assert i == |before| + 1;
          assert after[i] == Ip(EcmpArgs(es[|es| - 1]));
        }
      }
    }
  }

  lemma EcmpAddNew(o: Oracle, before: History, e: EcmpRoute)
    ensures var after := EcmpStep(o, before, e);
            |after| <= |before| + 2
            && (|after| > |before| ==> IsTableProbe(after[|before|]))
            && (|after| == |before| + 2 ==>
                  after[|before| + 1] == Ip(EcmpArgs(e))
                  && after[|before|] == Ip(TableShowArgs(e.table))
                  && after[..|before|] == before
                  && !ShowsEcmpRoute(o(before, after[|before|]).output, e.route))
  {
  }

  lemma EcmpAddCarried(o: Oracle, init: seq<EcmpRoute>, es: seq<EcmpRoute>, before: History, after: History, i: nat)
    requires init <= es && before <= after && 0 < i < |before|
    requires EcmpAddAt(o, before, i, init)
    ensures EcmpAddAt(o, after, i, es)
  {
    assert after[i] == before[i] && after[i - 1] == before[i - 1];
    assert after[..i - 1] == before[..i - 1];
    var k :| 0 <= k < |init| && before[i] == Ip(EcmpArgs(init[k]))
             && before[i - 1] == Ip(TableShowArgs(init[k].table))
             && !ShowsEcmpRoute(o(before[..i - 1], before[i - 1]).output, init[k].route);
    assert init[k] == es[k];
  }

  /** Running the phase over `a + b` is running it over `a`, then over `b`. */
  lemma {:induction false} EcmpPhaseAppend(o: Oracle, h: History, a: seq<EcmpRoute>, b: seq<EcmpRoute>)
    ensures EcmpPhase(o, h, a + b) == EcmpPhase(o, EcmpPhase(o, h, a), b)
    decreases |b|
  {
    if b == [] {
      assert a + b == a;
    } else {
      EcmpPhaseAppend(o, h, a, b[..|b| - 1]);
      assert (a + b)[..|a + b| - 1] == a + b[..|b| - 1];
    }
  }

  /** A non-empty phase starts with the probe of its first group's table. */
  lemma {:induction false} EcmpPhaseStartsWithProbe(o: Oracle, h: History, es: seq<EcmpRoute>)
    requires es != []
    ensures |EcmpPhase(o, h, es)| > |h| && IsTableProbe(EcmpPhase(o, h, es)[|h|])
    decreases |es|
  {
    var init := es[..|es| - 1];
    var before := EcmpPhase(o, h, init);
    EcmpStepShape(o, before, es[|es| - 1]);
    if init != [] {
      EcmpPhaseStartsWithProbe(o, h, init);
      assert EcmpPhase(o, h, es)[..|before|][|h|] == before[|h|];
    }
  }

  /** Group `k`'s table is probed right where the groups before it end, and
      the command after that probe is its multipath add exactly when no line
      of the probe's output showed the route. */
  lemma EcmpGroupDecision(o: Oracle, h: History, es: seq<EcmpRoute>, k: nat)
    requires k < |es|
    ensures var before, s := EcmpPhase(o, h, es[..k]), EcmpPhase(o, h, es);
            |before| < |s| && s[|before|] == Ip(TableShowArgs(es[k].table))
            && (|before| + 1 < |s| && s[|before| + 1] == Ip(EcmpArgs(es[k]))
                <==> !ShowsEcmpRoute(o(before, Ip(TableShowArgs(es[k].table))).output, es[k].route))
  {
    var before := EcmpPhase(o, h, es[..k]);
    var rest := es[k + 1..];
    assert es[..k + 1] + rest == es;
    assert es[..k + 1][..k] == es[..k];
    EcmpPhaseAppend(o, h, es[..k + 1], rest);
    var mid := EcmpStep(o, before, es[k]);
    var s := EcmpPhase(o, mid, rest);
    assert s == EcmpPhase(o, h, es);
    EcmpPhaseShape(o, mid, rest);
    assert s[..|mid|] == mid;
    assert s[|before|] == mid[|before|];
    if ShowsEcmpRoute(o(before, Ip(TableShowArgs(es[k].table))).output, es[k].route) {
      if rest != [] {
        EcmpPhaseStartsWithProbe(o, mid, rest);
        EcmpArgsHead(es[k]);
        assert !IsTableProbe(Ip(EcmpArgs(es[k])));
      }
    } else {
      assert s[|before| + 1] == mid[|before| + 1];
    }
  }

  /** Idempotence: when every group already shows in its table, the phase
      issues only its probes, one per group, and no `ip route add`. */
  lemma {:induction false} EcmpPhaseConverged(o: Oracle, h: History, es: seq<EcmpRoute>)
    requires forall g, i :: 0 <= i < |es| ==> ShowsEcmpRoute(o(g, Ip(TableShowArgs(es[i].table))).output, es[i].route)
    ensures |EcmpPhase(o, h, es)| == |h| + |es|
    ensures forall i :: 0 <= i < |es| ==> EcmpPhase(o, h, es)[|h| + i] == Ip(TableShowArgs(es[i].table))
    decreases |es|
  {
    if es != [] {
      var init := es[..|es| - 1];
      assert forall g, i :: 0 <= i < |init| ==> ShowsEcmpRoute(o(g, Ip(TableShowArgs(init[i].table))).output, init[i].route) by {
        forall g, i | 0 <= i < |init|
          ensures ShowsEcmpRoute(o(g, Ip(TableShowArgs(init[i].table))).output, init[i].route)
        {
          assert init[i] == es[i];
        }
      }
      EcmpPhaseConverged(o, h, init);
      var before := EcmpPhase(o, h, init);
      var e := es[|es| - 1];
      assert ShowsEcmpRoute(o(before, Ip(TableShowArgs(e.table))).output, e.route);
      var after := before + [Ip(TableShowArgs(e.table))];
      assert EcmpPhase(o, h, es) == after;
      forall i | 0 <= i < |es|
        ensures after[|h| + i] == Ip(TableShowArgs(es[i].table))
      {
        if i < |es| - 1 {
          assert init[i] == es[i];
        }
      }
    }
  }

  /** Against a host whose tables show none of the groups, every group is
      probed and then added with its full multipath command, in list order. */
  lemma {:induction false} EcmpPhaseFromScratch(o: Oracle, h: History, es: seq<EcmpRoute>)
    requires forall g, i :: 0 <= i < |es| ==> !ShowsEcmpRoute(o(g, Ip(TableShowArgs(es[i].table))).output, es[i].route)
    ensures |EcmpPhase(o, h, es)| == |h| + 2 * |es|
    ensures forall i :: 0 <= i < |es| ==>
              EcmpPhase(o, h, es)[|h| + 2 * i] == Ip(TableShowArgs(es[i].table))
              && EcmpPhase(o, h, es)[|h| + 2 * i + 1] == Ip(EcmpArgs(es[i]))
    decreases |es|
  {
    if es != [] {
      var init := es[..|es| - 1];
      assert forall g, i :: 0 <= i < |init| ==> !ShowsEcmpRoute(o(g, Ip(TableShowArgs(init[i].table))).output, init[i].route) by {
        forall g, i | 0 <= i < |init|
          ensures !ShowsEcmpRoute(o(g, Ip(TableShowArgs(init[i].table))).output, init[i].route)
        {
          assert init[i] == es[i];
        }
      }
      EcmpPhaseFromScratch(o, h, init);
      var before := EcmpPhase(o, h, init);
      var e := es[|es| - 1];
      assert !ShowsEcmpRoute(o(before, Ip(TableShowArgs(e.table))).output, e.route);
      var after := before + [Ip(TableShowArgs(e.table)), Ip(EcmpArgs(e))];
      assert EcmpPhase(o, h, es) == after;
      forall i | 0 <= i < |es|
        ensures after[|h| + 2 * i] == Ip(TableShowArgs(es[i].table)) && after[|h| + 2 * i + 1] == Ip(EcmpArgs(es[i]))
      {
        if i < |es| - 1 {
          assert init[i] == es[i];
          assert after[|h| + 2 * i] == before[|h| + 2 * i];
          assert after[|h| + 2 * i + 1] == before[|h| + 2 * i + 1];
        }
      }
    }
  }

  /** Continue-on-error: replies to the ECMP add commands do not change which
      commands the phase issues; only the table probes' output does. */
  lemma {:induction false} EcmpPhaseIgnoresAddReplies(o1: Oracle, o2: Oracle, h: History, es: seq<EcmpRoute>)
    requires forall g, table :: o1(g, Ip(TableShowArgs(table))).output == o2(g, Ip(TableShowArgs(table))).output
    ensures EcmpPhase(o1, h, es) == EcmpPhase(o2, h, es)
    decreases |es|
  {
    if es != [] {
      EcmpPhaseIgnoresAddReplies(o1, o2, h, es[..|es| - 1]);
    }
  }

  // ---------------------------------------------------------------------
  // Sequencing the phases

  /** The startup pass of `main`: a tunnel error is fatal, so the route phases
      run only after every tunnel succeeded (their errors are always nil). */
  function StartupPass(o: Oracle, h: History, c: Config): Run {
    var tunnels := TunnelPhase(o, h, c.greTunnels);
    if tunnels.err != None then tunnels
    else Run(EcmpPhase(o, StaticPhase(o, tunnels.log, c.staticRoutes), c.ecmpRoutes), None)
  }

  /** The pass run by the watcher after a change: each phase's error is
      logged and the next phase runs regardless. */
  function WatchPass(o: Oracle, h: History, c: Config): Run {
    var tunnels := TunnelPhase(o, h, c.greTunnels);
    Run(EcmpPhase(o, StaticPhase(o, tunnels.log, c.staticRoutes), c.ecmpRoutes), tunnels.err)
  }

  /** The three phases of a full pass, one after the other, are ordered:
      tunnel commands, then static-route commands, then ECMP commands. */
  lemma PhasesOrdered(o: Oracle, h: History, c: Config)
    ensures var t := TunnelPhase(o, h, c.greTunnels).log;
            var e := EcmpPhase(o, StaticPhase(o, t, c.staticRoutes), c.ecmpRoutes);
            h <= e && OrderedFrom(e, |h|) && (forall i :: |h| <= i < |e| ==> Rank(e[i]) <= 2)
  {
    var t := TunnelPhase(o, h, c.greTunnels).log;
    var s := StaticPhase(o, t, c.staticRoutes);
    var e := EcmpPhase(o, s, c.ecmpRoutes);
    TunnelPhaseShape(o, h, c.greTunnels);
    StaticPhaseShape(o, t, c.staticRoutes);
    EcmpPhaseShape(o, s, c.ecmpRoutes);
    RankOnPrefix(t, s, |h|, |t|, 0);
    RankOnPrefix(s, e, |h|, |t|, 0);
    RankOnPrefix(s, e, |t|, |s|, 1);
    SegmentsOrdered(e, |h|, |t|, |s|);
  }

  /** A full pass probes every static route and every ECMP group exactly once. */
  lemma PhasesProbeAll(o: Oracle, h: History, c: Config)
    ensures var t := TunnelPhase(o, h, c.greTunnels).log;
            var e := EcmpPhase(o, StaticPhase(o, t, c.staticRoutes), c.ecmpRoutes);
            RouteProbes(e) == RouteProbes(h) + |c.staticRoutes|
            && TableProbes(e) == TableProbes(h) + |c.ecmpRoutes|
  {
    var t := TunnelPhase(o, h, c.greTunnels).log;
    var s := StaticPhase(o, t, c.staticRoutes);
    var e := EcmpPhase(o, s, c.ecmpRoutes);
    TunnelPhaseShape(o, h, c.greTunnels);
    StaticPhaseShape(o, t, c.staticRoutes);
    EcmpPhaseShape(o, s, c.ecmpRoutes);
    ProbesUnchanged(h, t, 0);
    ProbesUnchanged(t, s, 1);
    ProbesUnchanged(s, e, 2);
  }

  /** Startup: every tunnel command precedes every static-route command,
      which precedes every ECMP command; a tunnel error ends the pass with
      tunnel commands only; otherwise every route and group is probed. */
  lemma StartupPassOrdered(o: Oracle, h: History, c: Config)
    ensures var r := StartupPass(o, h, c);
            h <= r.log && OrderedFrom(r.log, |h|)
            && r.err == TunnelPhase(o, h, c.greTunnels).err
            && (r.err != None ==> RankOn(r.log, |h|, |r.log|, 0))
            && (r.err == None ==> RouteProbes(r.log) == RouteProbes(h) + |c.staticRoutes|
                                  && TableProbes(r.log) == TableProbes(h) + |c.ecmpRoutes|)
  {
    TunnelPhaseShape(o, h, c.greTunnels);
    PhasesOrdered(o, h, c);
    PhasesProbeAll(o, h, c);
  }

  /** Watch: the same order, and the static and ECMP phases probe every route
      and group whether or not the tunnel phase failed. */
  lemma WatchPassOrdered(o: Oracle, h: History, c: Config)
    ensures var r := WatchPass(o, h, c);
            h <= r.log && OrderedFrom(r.log, |h|)
            && r.err == TunnelPhase(o, h, c.greTunnels).err
            && RouteProbes(r.log) == RouteProbes(h) + |c.staticRoutes|
            && TableProbes(r.log) == TableProbes(h) + |c.ecmpRoutes|
  {
    PhasesOrdered(o, h, c);
    PhasesProbeAll(o, h, c);
  }
}
