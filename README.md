# krouter reconciliation engine in Dafny

krouter is a small Linux daemon (`main.go`). It reads a YAML description of
the desired network state: GRE tunnels, static routes and ECMP (multi-nexthop)
routes. It brings the kernel in line with that description by running the
`ip` tool. After startup it watches the configuration file and re-applies the
description whenever the file's content changes.

This project models the decision logic of that daemon:

- `Desired` (desired.dfy): the `Config` struct and its nested records
  (main.go:18-47), one datatype per record.
- `Strings` (strings.dfy): the three text operations the daemon decides with.
  These are `strings.Contains`, the line tokens of a `bufio.Scanner`, and
  `strconv.Itoa`. Itoa has a reference decoder and a proved round trip.
- `NetControl` (netcontrol.dfy): `execCommand` as the class `Executor`.
  - It records every command issued, in its `log` field.
  - An oracle gives each command's stdout and error. The oracle is a function
    of the whole earlier history, so the kernel's state stays abstract.
  - The module also holds the exact argument vectors of every `ip` command,
    the three presence probes, and a classification of commands by phase.
- `Reconcile` (reconcile.dfy): the three apply phases as pure functions that
  thread the command history.
  - The phases are `TunnelPhase`, `StaticPhase` and `EcmpPhase`.
  - They are sequenced in two ways: `StartupPass`, where a tunnel error is
    fatal, and `WatchPass`, where every error is logged and the next phase runs.
  - The lemmas state which commands each phase issues, and when:
    - skip-if-present;
    - idempotence on a converged host;
    - a full apply on an empty host;
    - stop-at-first-error for tunnels;
    - continue-on-error for routes;
    - phase ordering;
    - every item is probed.
- `Daemon` (daemon.dfy): the process.
  - The globals `currentHash` and `config` are fields of the class `Router`.
  - Its methods are the Go functions, written as loops over the executor. Each
    method is proved to leave exactly the log and state that the matching
    specification function (`TunnelPhase`, `StaticPhase`, `EcmpPhase`,
    `Startup`, `WriteEvent`, `Watch`) computes.
  - The startup sequence of `main` and the watcher's event handling are
    modelled together with lemmas about the fingerprint gate.

Where the code and the design description of the daemon disagree, the model
follows the code:

- A failed `ip tunnel add`, `ip addr add` or `ip link set up` ends
  `setupGRETunnels` at once (main.go:104-115). The remaining tunnels are not
  attempted. The design describes per-tunnel isolation instead. This is
  proved in `TunnelPhaseStops` and `TunnelPhaseFirstError`.
- On a write event the new fingerprint is stored before the file is loaded
  (main.go:213-215). A load failure therefore still records it, and rewriting
  the same bytes is ignored afterwards (`RepeatedWriteIsNoop`). The design
  says the stored fingerprint is that of the last successful reconciliation.
- At startup the fingerprint is read and stored after the whole first pass
  (main.go:267-271). It is not stored before the pass.
- `routeExists` checks destination and gateway anywhere in the output, not on
  one line (`ShowsRouteAcrossLines`).
- `setupStaticRoutes` and `setupECMPRoutes` always return nil. The fatal
  checks in `main` for them can never fire.

## Model

| member | source | states |
|---|---|---|
| Strings.Contains | main.go:92 | Go's `strings.Contains`: `sub` occurs at some index of `s`; the empty string occurs in every string |
| Strings.Lines | main.go:141-142 | the scanner's tokens contain no newline, and empty output yields no token at all |
| Strings.NewlineIndex | main.go:142 | the index found is the first newline, or the end of the text when there is none |
| Strings.SomeLineContainsInText | main.go:143 | a line that contains the selector puts it in the (non-empty) output |
| Strings.TextContainsInSomeLine | main.go:142-146 | a newline-free selector found in non-empty output is found on one of its lines |
| Strings.SomeLineContainsIff | main.go:139-148 | line-by-line search for a newline-free string is equivalent to searching the whole non-empty text |
| Strings.LinesAreInText | main.go:141-142 | every scanned line is a piece of the output |
| Strings.NatToDecimal | main.go:155 | the decimal text has at least one digit, only digits, and no leading zero |
| Strings.Itoa | main.go:155 | `strconv.Itoa`: a leading `-` for negative numbers, then the decimal digits of the magnitude |
| Strings.DecimalRoundTrip | main.go:155 | decoding the digits of n gives back n |
| Strings.ItoaRoundTrip | main.go:155 | the weight can be read back from `strconv.Itoa`'s text, for negative weights too |
| Strings.ItoaInjective | main.go:155 | different weights never produce the same text |
| NetControl.Executor.constructor | main.go:81-88 | a fresh executor has issued nothing |
| NetControl.Executor.Exec | main.go:81-88 | running a command appends exactly it to the log and returns the host's reply for it given everything issued before |
| NetControl.TunnelDelArgs | main.go:98 | the arguments `tunnel del NAME` |
| NetControl.TunnelAddArgs | main.go:104 | the arguments `tunnel add NAME mode gre local L remote R` |
| NetControl.AddrAddArgs | main.go:108 | the arguments `addr add TUNNELIP/MASK dev NAME` |
| NetControl.LinkUpArgs | main.go:112 | the arguments `link set NAME up` |
| NetControl.RouteAddArgs | main.go:129 | the arguments `route add D via G` |
| NetControl.TableShowArgs | main.go:140 | the arguments `route show table T` |
| NetControl.NexthopArgs | main.go:155 | the seven arguments `nexthop dev D via V weight W` of one nexthop, W written by `Itoa` |
| NetControl.NexthopsArgs | main.go:153-156 | the nexthop arguments of a group, in the group's order |
| NetControl.EcmpArgs | main.go:157 | the fixed nine-argument header followed by the nexthop arguments |
| NetControl.NexthopsLayout | main.go:153-156 | the nexthop arguments are seven per nexthop, in the group's order |
| NetControl.EcmpArgsLayout | main.go:153-157 | the ECMP command is the nine fixed header arguments followed by `nexthop dev D via V weight W` per nexthop, in order |
| NetControl.EcmpWeightsRecoverable | main.go:155 | each nexthop's weight is recoverable from its position in the command |
| NetControl.BuildEcmpArgs | main.go:153-157 | the argument-building loop produces exactly the specified ECMP command |
| NetControl.ShowsTunnel | main.go:92 | `tunnelExists`: the tunnel's name occurs in the output of `ip tunnel show` |
| NetControl.ShowsRoute | main.go:123 | `routeExists`: destination and gateway each occur somewhere in the output of `ip route show` |
| NetControl.ShowsEcmpRoute | main.go:139-148 | `ecmpRouteExists`: some scanned line of the table's output contains the route |
| NetControl.ScanForRoute | main.go:141-147 | the scan returns true iff some line of the table output contains the route, and false on empty output |
| NetControl.ShowsRouteAcrossLines | main.go:121-124 | destination and gateway on two different lines still count as a present route |
| NetControl.ShowsEcmpRouteIff | main.go:139-148 | an ECMP probe hit is exactly containment in non-empty output, for a newline-free route selector |
| Reconcile.ProbesUnchanged | main.go:95-166 | commands of one phase do not change the probe counts of another phase |
| Reconcile.TunnelStep | main.go:96-116 | one iteration of the tunnel loop: probe, delete if present (reply ignored), then add, address and up, returning at the first of those three that fails |
| Reconcile.TunnelPhase | main.go:95-119 | `setupGRETunnels`: the tunnels in order, stopping at the first error, nil when every tunnel finished |
| Reconcile.TunnelStepIssues | main.go:97-115 | one tunnel issues a prefix of show, delete only if present, add, address and up that always reaches the add; a nil error means the whole sequence was issued |
| Reconcile.TunnelStepShape | main.go:97-115 | one tunnel only appends tunnel commands |
| Reconcile.TunnelStepSequence | main.go:104-115 | within one tunnel the address is issued only after the add succeeded, the up only after the address succeeded, and the error returned is the reply to the last command issued |
| Reconcile.TunnelPhaseStops | main.go:104-115 | once a tunnel has failed, later tunnels issue nothing and the error stays |
| Reconcile.TunnelPhaseFirstError | main.go:95-119 | an error from the phase is the failing step of the first tunnel that failed, with all earlier tunnels completed |
| Reconcile.TunnelPhaseCompletes | main.go:95-119 | a nil result means every tunnel was added, addressed and brought up by this phase |
| Reconcile.TunnelPhaseShape | main.go:95-119 | the tunnel phase only appends tunnel commands |
| Reconcile.StaticStep | main.go:127-134 | one iteration of the static-route loop: probe, and add only when the probe did not show the route; the add's reply is ignored |
| Reconcile.StaticPhase | main.go:126-137 | `setupStaticRoutes`: every route in order; it returns nil, so only the log is kept |
| Reconcile.StaticStepShape | main.go:127-134 | one route issues its probe first, then at most one command, which is that route's `ip route add`; the route-probe count rises by one |
| Reconcile.StaticPhaseShape | main.go:126-137 | the static phase only appends static-route commands and probes every route exactly once |
| Reconcile.StaticAddsJustified | main.go:128-129 | every add is the add of a listed route, issued right after a probe whose output did not show that route |
| Reconcile.StaticPhaseAppend | main.go:127 | walking the list `a + b` is walking `a` and then `b` from where `a` left the host |
| Reconcile.StaticRouteDecision | main.go:127-129 | each route is probed in list order, and the command after its probe is its `ip route add D via G` exactly when the probe did not show the route |
| Reconcile.StaticPhaseConverged | main.go:126-137 | on a host that already shows every route, the phase issues only one probe per route and no add |
| Reconcile.StaticPhaseFromScratch | main.go:126-137 | on a host that shows none of the routes, each route is probed then added, in list order |
| Reconcile.StaticPhaseIgnoresAddReplies | main.go:129-133 | the success or failure of an add does not change what the phase issues next |
| Reconcile.EcmpStep | main.go:151-163 | one iteration of the ECMP loop: probe the table, and issue the full multipath add only when no line showed the route; the add's reply is ignored |
| Reconcile.EcmpPhase | main.go:150-166 | `setupECMPRoutes`: every group in order; it returns nil, so only the log is kept |
| Reconcile.EcmpStepShape | main.go:151-163 | one group issues its table probe first, then at most one command, which is that group's multipath add; the table-probe count rises by one |
| Reconcile.EcmpPhaseShape | main.go:150-166 | the ECMP phase only appends ECMP commands and probes every group's table exactly once |
| Reconcile.EcmpAddsJustified | main.go:152-158 | every add is a listed group's full multipath command, issued right after the probe of its table whose output had no line showing the route |
| Reconcile.EcmpPhaseAppend | main.go:151 | walking the list `a + b` is walking `a` and then `b` from where `a` left the host |
| Reconcile.EcmpGroupDecision | main.go:151-158 | each group's table is probed in list order, and the command after that probe is the group's multipath add exactly when no line of the output showed the route |
| Reconcile.EcmpPhaseConverged | main.go:150-166 | on a host whose tables show every group, the phase issues only the table probes and no add |
| Reconcile.EcmpPhaseFromScratch | main.go:150-166 | on a host showing no group, each group is probed then added with its full command, in list order |
| Reconcile.EcmpPhaseIgnoresAddReplies | main.go:158-162 | the success or failure of an ECMP add does not change what the phase issues next |
| Reconcile.StartupPass | main.go:255-265 | startup's sequencing: a tunnel error ends the pass and is returned; otherwise the static and ECMP phases run and the pass returns nil |
| Reconcile.WatchPass | main.go:219-227 | the watcher's sequencing: all three phases run whatever the tunnel phase returned; the tunnel error is reported |
| Reconcile.PhasesOrdered | main.go:219-227 | the three phases in sequence issue all tunnel commands, then all static-route commands, then all ECMP commands, and nothing else |
| Reconcile.PhasesProbeAll | main.go:219-227 | the three phases in sequence probe every static route and every ECMP group exactly once |
| Reconcile.StartupPassOrdered | main.go:255-265 | at startup the phases are ordered, a tunnel error leaves only tunnel commands, and otherwise every route and group is probed |
| Reconcile.WatchPassOrdered | main.go:219-227 | on a change the phases are ordered and every route and group is probed even when the tunnel phase failed |
| Daemon.Startup | main.go:249-271 | `main`: a failed load is fatal, a tunnel error is fatal, then the file's fingerprint is read (fatal on failure) and recorded |
| Daemon.WriteEvent | main.go:207-228 | one watcher event: ignore non-writes, skip on a read failure or an unchanged fingerprint, otherwise record the fingerprint, then load (skip on failure) and run the watch pass |
| Daemon.Watch | main.go:201-236 | the watcher loop: the events in order, each handled from the state the previous one left |
| Daemon.WriteEventGate | main.go:207-213 | a non-write event, an unreadable file or an unchanged fingerprint changes no state and issues no command |
| Daemon.WriteEventChanged | main.go:213-227 | a new fingerprint is recorded whatever the load does; a failed load keeps the old configuration and issues nothing; a good load installs it and runs a full watch pass |
| Daemon.RepeatedWriteIsNoop | main.go:213-217 | a second write of the same bytes is a no-op, even when the first load failed |
| Daemon.ChangedContentIsApplied | main.go:213-214 | content with a new fingerprint is never gated out |
| Daemon.LastRead | main.go:207-212 | the content found was read by some write event of the sequence |
| Daemon.WatchRecordsLastRead | main.go:201-228 | after any sequence of events the recorded fingerprint is that of the last content read, or the initial one when nothing was read |
| Daemon.WatchExtendsLog | main.go:201-228 | the watcher only ever appends commands |
| Daemon.StartupOrdered | main.go:249-271 | a failed load is fatal with nothing issued and nothing changed; a tunnel error is fatal with only tunnel commands issued and no fingerprint recorded; reaching the watcher means every phase succeeded and the globals hold the loaded configuration and the fingerprint of the bytes read; the phases are ordered and every route and group is probed |
| Daemon.Router.constructor | main.go:49-53 | the globals start as the empty fingerprint and the zero configuration |
| Daemon.Router.TunnelExists | main.go:90-93 | issues `ip tunnel show` and reports whether the name occurs in its output |
| Daemon.Router.ConfigureTunnel | main.go:97-116 | one loop iteration issues exactly the commands and returns exactly the error of `TunnelStep` |
| Daemon.Router.SetupGreTunnels | main.go:95-119 | the loop issues exactly the commands and returns exactly the error of `TunnelPhase` over the loaded tunnels |
| Daemon.Router.RouteExists | main.go:121-124 | issues `ip route show` and reports whether destination and gateway both occur |
| Daemon.Router.SetupStaticRoutes | main.go:126-137 | the loop issues exactly the commands of `StaticPhase` over the loaded routes and returns nil |
| Daemon.Router.EcmpRouteExists | main.go:139-148 | issues `ip route show table T` and reports whether some line contains the route |
| Daemon.Router.SetupEcmpRoutes | main.go:150-166 | the loop issues exactly the commands of `EcmpPhase` over the loaded groups and returns nil |
| Daemon.Router.Start | main.go:249-271 | startup leaves exactly the globals, log and outcome of `Startup` |
| Daemon.Router.OnWrite | main.go:203-228 | one watcher event leaves exactly the globals, log and outcome of `WriteEvent` |
| Daemon.Router.WatchEvents | main.go:200-236 | the watcher loop over a sequence of events leaves exactly the globals and log of `Watch` |

## Left out

- Running processes: `exec.Command` and the real kernel. The `ip` tool's
  stdout and error come from an oracle over the command history. The child's
  stderr, which goes to the daemon's stderr, is not modelled.
- `getFileMD5`: the MD5 digest and its hex encoding. The fingerprint is an
  arbitrary function of the file's bytes. Reading the file is a
  `Result<Bytes>` parameter.
- `loadConfig` and YAML decoding: a load is a `Result<Config>` parameter.
  - `yaml.Unmarshal` decodes into the existing global `config`, so keys missing
    from the file keep their earlier values. The model's `Config` stands for
    the result of that merge.
  - A failed load is modelled as leaving `config` unchanged. A decode that
    fails half way in Go may leave part of the new values behind.
- The logger: `initLogger`, `logWriter` and every log message.
  `initLogger` exits the process when the log file cannot be opened; that
  exit is not modelled, and startup goes from the load straight to the
  tunnel phase.
- `watchConfigFile`'s plumbing:
  - Left out: creating the watcher and its fatal errors, `watcher.Add`, the
    goroutine, the `done` channel, closed channels, and `watcher.Errors`.
    An error from `watcher.Errors` is only logged and changes nothing.
  - What is kept: the event loop over a finite sequence of events, and the
    check that an event's operation includes a write, as a boolean.
- Strings.Lines: the scanner's removal of a trailing carriage return and its
  64 KiB token limit are not modelled.
- Desired.Nexthop: the weight is an unbounded integer. Go's `int` is 32 or
  64 bits wide depending on the target, but the code does no arithmetic on
  it, only `strconv.Itoa`, and the YAML decoder only produces values that fit.
- Strings: Go strings are byte strings, while the model's strings are
  sequences of characters. Substring search and splitting at `\n` give the
  same answers on both for valid UTF-8 text; byte sequences that are not
  valid UTF-8 are not modelled.
- The process exits of `log.Fatalf` and `logger.Fatalf` become `BootOutcome`
  values. Nothing runs after one of them.
