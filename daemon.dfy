/** The process: the global state of main.go (the last applied fingerprint
    and the loaded configuration), the `ip`-issuing functions over the
    executor, the startup sequence of `main`, and one write event of the
    configuration watcher. */
module Daemon {
  import opened Wrappers
  import opened Desired
  import opened NetControl
  import opened Reconcile

  type Bytes = seq<bv8>

  /** The content fingerprint (MD5, hex-encoded): any function of the file's bytes. */
  type Fingerprint = Bytes -> string

  /** The globals `currentHash` and `config`. */
  datatype Globals = Globals(currentHash: string, config: Config)

  /** How startup ends: one of the fatal exits, or handing over to the watcher. */
  datatype BootOutcome =
    | LoadFatal(error: Error)
    | TunnelFatal(error: Error)
    | HashFatal(error: Error)
    | Watching

  /** What one write event did. */
  datatype WriteOutcome =
    | NotAWrite
    | ReadFailed(error: Error)
    | Unchanged
    | LoadFailed(error: Error)
    | Reconciled(tunnelError: Option<Error>)

  datatype Boot = Boot(globals: Globals, log: History, outcome: BootOutcome)

  /** What handling one file event leaves: the globals, the command log and the outcome. */
  datatype Handled = Handled(globals: Globals, log: History, outcome: WriteOutcome)

  /** `main` from loading the configuration to handing over to the watcher.
      `load` is what `loadConfig` produced; `hashRead` is the file as
      `getFileMD5` read it afterwards. */
  function Startup(fp: Fingerprint, o: Oracle, h: History, g: Globals, load: Result<Config>, hashRead: Result<Bytes>): Boot {
    if load.Failure? then Boot(g, h, LoadFatal(load.error))
    else
      var g1 := g.(config := load.value);
      var pass := StartupPass(o, h, load.value);
      if pass.err != None then Boot(g1, pass.log, TunnelFatal(pass.err.value))
      else if hashRead.Failure? then Boot(g1, pass.log, HashFatal(hashRead.error))
      else Boot(g1.(currentHash := fp(hashRead.value)), pass.log, Watching)
  }

  /** The body of the watcher for one file event. `write` says whether the
      event's operation includes a write (any other event is ignored);
      `hashRead` is the file as `getFileMD5` read it; `load` is what
      `loadConfig` would produce. The new fingerprint is recorded before the
      configuration is loaded. */
  function WriteEvent(fp: Fingerprint, o: Oracle, h: History, g: Globals, write: bool, hashRead: Result<Bytes>, load: Result<Config>): Handled {
    if !write then Handled(g, h, NotAWrite)
    else if hashRead.Failure? then Handled(g, h, ReadFailed(hashRead.error))
    else if fp(hashRead.value) == g.currentHash then Handled(g, h, Unchanged)
    else
      var g1 := g.(currentHash := fp(hashRead.value));
      if load.Failure? then Handled(g1, h, LoadFailed(load.error))
      else
        var pass := WatchPass(o, h, load.value);
        Handled(g1.(config := load.value), pass.log, Reconciled(pass.err))
  }

  /** An event that is not a write, or a write whose file cannot be read or
      whose fingerprint equals the recorded one, changes nothing and issues
      no command. */
  lemma WriteEventGate(fp: Fingerprint, o: Oracle, h: History, g: Globals, write: bool, hashRead: Result<Bytes>, load: Result<Config>)
    requires !write || hashRead.Failure? || fp(hashRead.value) == g.currentHash
    ensures WriteEvent(fp, o, h, g, write, hashRead, load).globals == g
    ensures WriteEvent(fp, o, h, g, write, hashRead, load).log == h
  {
  }

  /** On a new fingerprint the fingerprint is recorded whatever the load
      does; a failed load then skips reconciliation and keeps the old
      configuration, a successful one installs it and runs a watch pass. */
  lemma WriteEventChanged(fp: Fingerprint, o: Oracle, h: History, g: Globals, bytes: Bytes, load: Result<Config>)
    requires fp(bytes) != g.currentHash
    ensures var ev := WriteEvent(fp, o, h, g, true, Ok(bytes), load);
            ev.globals.currentHash == fp(bytes)
            && (load.Failure? ==> ev.globals.config == g.config && ev.log == h && ev.outcome == LoadFailed(load.error))
            && (load.Ok? ==> ev.globals.config == load.value
                             && ev.log == WatchPass(o, h, load.value).log
                             && ev.outcome == Reconciled(WatchPass(o, h, load.value).err))
  {
  }

  /** Repeated write events with the same content: the second one is a no-op,
      even when loading failed the first time (the fingerprint was recorded
      before the load). */
  lemma RepeatedWriteIsNoop(fp: Fingerprint, o1: Oracle, o2: Oracle, h: History, g: Globals, bytes: Bytes,
                            load1: Result<Config>, load2: Result<Config>)
    ensures var first := WriteEvent(fp, o1, h, g, true, Ok(bytes), load1);
            var second := WriteEvent(fp, o2, first.log, first.globals, true, Ok(bytes), load2);
            second.globals == first.globals && second.log == first.log && second.outcome == Unchanged
  {
  }

  /** Content whose fingerprint differs from the last one recorded is never gated out. */
  lemma ChangedContentIsApplied(fp: Fingerprint, o1: Oracle, o2: Oracle, h: History, g: Globals, bytes1: Bytes, bytes2: Bytes,
                                load1: Result<Config>, load2: Result<Config>)
    requires fp(bytes1) != fp(bytes2)
    ensures var first := WriteEvent(fp, o1, h, g, true, Ok(bytes1), load1);
            var second := WriteEvent(fp, o2, first.log, first.globals, true, Ok(bytes2), load2);
            second.outcome != Unchanged && second.globals.currentHash == fp(bytes2)
  {
  }

  /** One event delivered by the file watcher, with what reading and loading
      the file would produce at that moment. */
  datatype FileEvent = FileEvent(write: bool, hashRead: Result<Bytes>, load: Result<Config>)

  /** State and command log after the watcher loop has handled `evs` in order. */
  datatype Session = Session(globals: Globals, log: History)

  function Watch(fp: Fingerprint, o: Oracle, h: History, g: Globals, evs: seq<FileEvent>): Session
    decreases |evs|
  {
    if evs == [] then Session(g, h)
    else
      var s := Watch(fp, o, h, g, evs[..|evs| - 1]);
      var e := evs[|evs| - 1];
      var ev := WriteEvent(fp, o, s.log, s.globals, e.write, e.hashRead, e.load);
      Session(ev.globals, ev.log)
  }

  /** The content of the last write event whose file could be read. */
  function LastRead(evs: seq<FileEvent>): (r: Option<Bytes>)
    ensures r.Some? ==> exists i :: 0 <= i < |evs| && evs[i].write && evs[i].hashRead == Ok(r.value)
    decreases |evs|
  {
    if evs == [] then None
    else
      var e := evs[|evs| - 1];
      if e.write && e.hashRead.Ok? then Some(e.hashRead.value)
      else
        var r := LastRead(evs[..|evs| - 1]);
        if r.Some? then
          var i :| 0 <= i < |evs| - 1 && evs[..|evs| - 1][i].write && evs[..|evs| - 1][i].hashRead == Ok(r.value);
          assert evs[i] == evs[..|evs| - 1][i];
          r
        else r
  }

  /** After any sequence of events the recorded fingerprint is that of the
      last content read, whether or not that content loaded; with no
      readable write it is the one recorded before. */
  lemma {:induction false} WatchRecordsLastRead(fp: Fingerprint, o: Oracle, h: History, g: Globals, evs: seq<FileEvent>)
    ensures var last := LastRead(evs);
            var s := Watch(fp, o, h, g, evs);
            (last.Some? ==> s.globals.currentHash == fp(last.value))
            && (last.None? ==> s.globals.currentHash == g.currentHash)
    decreases |evs|
  {
    if evs != [] {
      WatchRecordsLastRead(fp, o, h, g, evs[..|evs| - 1]);
    }
  }

  /** The watcher only ever appends to the command log. */
  lemma {:induction false} WatchExtendsLog(fp: Fingerprint, o: Oracle, h: History, g: Globals, evs: seq<FileEvent>)
    ensures h <= Watch(fp, o, h, g, evs).log
    decreases |evs|
  {
    if evs != [] {
      var init := evs[..|evs| - 1];
      WatchExtendsLog(fp, o, h, g, init);
      var s := Watch(fp, o, h, g, init);
      var e := evs[|evs| - 1];
      if e.write && e.hashRead.Ok? && fp(e.hashRead.value) != s.globals.currentHash && e.load.Ok? {
        WatchPassOrdered(o, s.log, e.load.value);
      }
    }
  }

  /** Startup is fatal on a tunnel error before any route command is issued;
      otherwise all three phases ran in order and the fingerprint is
      recorded only when the whole startup succeeded. */
  lemma StartupOrdered(fp: Fingerprint, o: Oracle, h: History, g: Globals, load: Result<Config>, hashRead: Result<Bytes>)
    ensures var b := Startup(fp, o, h, g, load, hashRead);
            h <= b.log && OrderedFrom(b.log, |h|)
            && (b.outcome.TunnelFatal? ==> RankOn(b.log, |h|, |b.log|, 0))
            && (load.Ok? && !b.outcome.TunnelFatal? ==>
                  RouteProbes(b.log) == RouteProbes(h) + |load.value.staticRoutes|
                  && TableProbes(b.log) == TableProbes(h) + |load.value.ecmpRoutes|)
            && (b.globals.currentHash != g.currentHash ==> b.outcome == Watching)
    ensures var b := Startup(fp, o, h, g, load, hashRead);
            load.Failure? ==> b.log == h && b.globals == g && b.outcome == LoadFatal(load.error)
    ensures var b := Startup(fp, o, h, g, load, hashRead);
            load.Ok? ==>
              var tunnels := TunnelPhase(o, h, load.value.greTunnels);
              tunnels.err != None ==>
                b.outcome == TunnelFatal(tunnels.err.value) && b.log == tunnels.log
                && RankOn(b.log, |h|, |b.log|, 0) && b.globals.currentHash == g.currentHash
    ensures var b := Startup(fp, o, h, g, load, hashRead);
            b.outcome == Watching ==>
              load.Ok? && hashRead.Ok? && TunnelPhase(o, h, load.value.greTunnels).err == None
              && b.globals == Globals(fp(hashRead.value), load.value)
  {
    if load.Ok? {
      StartupPassOrdered(o, h, load.value);
    }
  }

  /** The process state. `exec` runs the `ip` commands; `fingerprint` stands
      for `getFileMD5` applied to the bytes read. */
  class Router {
    const exec: Executor
    const fingerprint: Fingerprint
    var currentHash: string
    var config: Config

    constructor (exec: Executor, fingerprint: Fingerprint)
      ensures this.exec == exec && this.fingerprint == fingerprint
      ensures currentHash == "" && config == EmptyConfig
    {
      this.exec := exec;
      this.fingerprint := fingerprint;
      currentHash := "";
      config := EmptyConfig;
    }

    /** `tunnelExists`: run `ip tunnel show` and look for the name. */
    method TunnelExists(name: string) returns (present: bool)
      modifies exec
      ensures exec.log == old(exec.log) + [Ip(TunnelShowArgs)]
      ensures present == TunnelPresent(exec.oracle, old(exec.log), name)
    {
      var output, _ := exec.Exec("ip", TunnelShowArgs);
      present := ShowsTunnel(output, name);
    }

    /** One iteration of the loop of `setupGRETunnels`: recreate tunnel `t`. */
    method ConfigureTunnel(t: Tunnel) returns (err: Option<Error>)
      modifies exec
      ensures Run(exec.log, err) == TunnelStep(exec.oracle, old(exec.log), t)
    {
      var present := TunnelExists(t.name);
      if present {
        var _, delErr := exec.Exec("ip", TunnelDelArgs(t.name));
        // a failed delete is only logged
      }
      // add, address and up, stopping at the first failure
      var output, e := exec.Exec("ip", TunnelAddArgs(t));
      if e == None {
        output, e := exec.Exec("ip", AddrAddArgs(t));
        if e == None {
          output, e := exec.Exec("ip", LinkUpArgs(t));
        }
      }
      return e;
    }

    /** `setupGRETunnels` over the loaded tunnels: the first error is returned
        at once and the remaining tunnels are skipped. */
    method SetupGreTunnels() returns (err: Option<Error>)
      modifies exec
      ensures Run(exec.log, err) == TunnelPhase(exec.oracle, old(exec.log), config.greTunnels)
    {
      var tunnels := config.greTunnels;
      ghost var h0 := exec.log;
      var i := 0;
      while i < |tunnels|
        invariant 0 <= i <= |tunnels|
        invariant TunnelPhase(exec.oracle, h0, tunnels[..i]) == Run(exec.log, None)
      {
        var e := ConfigureTunnel(tunnels[i]);
        assert tunnels[..i + 1][..i] == tunnels[..i];
        if e != None {
          TunnelPhaseStops(exec.oracle, h0, tunnels, i + 1);
          return e;
        }
        i := i + 1;
      }
      assert tunnels[..i] == tunnels;
      return None;
    }

    /** `routeExists`: run `ip route show` and look for destination and gateway. */
    method RouteExists(destination: string, gateway: string) returns (present: bool)
      modifies exec
      ensures exec.log == old(exec.log) + [Ip(RouteShowArgs)]
      ensures present == ShowsRoute(exec.oracle(old(exec.log), Ip(RouteShowArgs)).output, destination, gateway)
    {
      var output, _ := exec.Exec("ip", RouteShowArgs);
      present := ShowsRoute(output, destination, gateway);
    }

    /** `setupStaticRoutes` over the loaded routes; it always returns nil. */
    method SetupStaticRoutes() returns (err: Option<Error>)
      modifies exec
      ensures exec.log == StaticPhase(exec.oracle, old(exec.log), config.staticRoutes)
      ensures err == None
    {
      var routes := config.staticRoutes;
      ghost var h0 := exec.log;
      for i := 0 to |routes|
        invariant exec.log == StaticPhase(exec.oracle, h0, routes[..i])
      {
        var r := routes[i];
        var present := RouteExists(r.destination, r.gateway);
        if !present {
          var _, addErr := exec.Exec("ip", RouteAddArgs(r));
          // success and failure are only logged
        }
        assert routes[..i + 1][..i] == routes[..i];
      }
      assert routes[..|routes|] == routes;
      return None;
    }

    /** `ecmpRouteExists`: run `ip route show table T` and scan its lines. */
    method EcmpRouteExists(route: string, table: string) returns (present: bool)
      modifies exec
      ensures exec.log == old(exec.log) + [Ip(TableShowArgs(table))]
      ensures present == ShowsEcmpRoute(exec.oracle(old(exec.log), Ip(TableShowArgs(table))).output, route)
    {
      var output, _ := exec.Exec("ip", TableShowArgs(table));
      present := ScanForRoute(output, route);
    }

    /** `setupECMPRoutes` over the loaded groups; it always returns nil. */
    method SetupEcmpRoutes() returns (err: Option<Error>)
      modifies exec
      ensures exec.log == EcmpPhase(exec.oracle, old(exec.log), config.ecmpRoutes)
      ensures err == None
    {
      var groups := config.ecmpRoutes;
      ghost var h0 := exec.log;
      for i := 0 to |groups|
        invariant exec.log == EcmpPhase(exec.oracle, h0, groups[..i])
      {
        var e := groups[i];
        var present := EcmpRouteExists(e.route, e.table);
        if !present {
          var args := BuildEcmpArgs(e);
          var _, addErr := exec.Exec("ip", args);
          // success and failure are only logged
        }
        assert groups[..i + 1][..i] == groups[..i];
      }
      assert groups[..|groups|] == groups;
      return None;
    }

    /** `main` after the configuration path is fixed: load, reconcile with
        tunnel errors fatal, then record the file's fingerprint. The static
        and ECMP phases never return an error, so their fatal checks in the
        source can never fire and are not repeated here. */
    method Start(load: Result<Config>, hashRead: Result<Bytes>) returns (outcome: BootOutcome)
      modifies this, exec
      ensures Boot(Globals(currentHash, config), exec.log, outcome)
              == Startup(fingerprint, exec.oracle, old(exec.log), old(Globals(currentHash, config)), load, hashRead)
    {
      if load.Failure? {
        return LoadFatal(load.error);
      }
      config := load.value;
      var err := SetupGreTunnels();
      if err != None {
        return TunnelFatal(err.value);
      }
      var staticErr := SetupStaticRoutes();
      var ecmpErr := SetupEcmpRoutes();
      if hashRead.Failure? {
        return HashFatal(hashRead.error);
      }
      currentHash := fingerprint(hashRead.value);
      return Watching;
    }

    /** One file event of `watchConfigFile`. */
    method OnWrite(write: bool, hashRead: Result<Bytes>, load: Result<Config>) returns (outcome: WriteOutcome)
      modifies this, exec
      ensures Handled(Globals(currentHash, config), exec.log, outcome)
              == WriteEvent(fingerprint, exec.oracle, old(exec.log), old(Globals(currentHash, config)), write, hashRead, load)
    {
      if !write {
        return NotAWrite;
      }
      if hashRead.Failure? {
        return ReadFailed(hashRead.error);
      }
      var newHash := fingerprint(hashRead.value);
      if newHash == currentHash {
        return Unchanged;
      }
      currentHash := newHash;
      if load.Failure? {
        return LoadFailed(load.error);
      }
      config := load.value;
      var tunnelErr := SetupGreTunnels();
      // each phase's error is only logged; the next phase runs regardless
      var staticErr := SetupStaticRoutes();
      var ecmpErr := SetupEcmpRoutes();
      return Reconciled(tunnelErr);
    }

    /** The event loop of `watchConfigFile`, over the events it receives. */
    method WatchEvents(evs: seq<FileEvent>)
      modifies this, exec
      ensures Session(Globals(currentHash, config), exec.log)
              == Watch(fingerprint, exec.oracle, old(exec.log), old(Globals(currentHash, config)), evs)
    {
      ghost var h0 := exec.log;
      ghost var g0 := Globals(currentHash, config);
      for i := 0 to |evs|
        invariant Session(Globals(currentHash, config), exec.log) == Watch(fingerprint, exec.oracle, h0, g0, evs[..i])
      {
        var e := evs[i];
        var outcome := OnWrite(e.write, e.hashRead, e.load);
        assert evs[..i + 1][..i] == evs[..i];
      }
      assert evs[..|evs|] == evs;
    }
  }
}
