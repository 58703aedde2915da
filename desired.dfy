/** The desired state read from the YAML configuration file: the Go `Config`
    struct of main.go, one datatype per nested record. */
module Desired {

  datatype Logging = Logging(info: bool, error: bool, debug: bool)

  datatype ProgramSettings = ProgramSettings(logFilePath: string, logging: Logging)

  /** One entry of `gre_tunnels`. */
  datatype Tunnel = Tunnel(name: string, localIp: string, remoteIp: string, tunnelIp: string, subnetMask: string)

  /** One entry of `static_routes`. */
  datatype StaticRoute = StaticRoute(destination: string, gateway: string)

  /** One nexthop of an ECMP group; Go's `int` weight is kept unbounded. */
  datatype Nexthop = Nexthop(dev: string, via: string, weight: int)

  /** One entry of `ecmp_routes`: a route selector, a routing table and its nexthops in order. */
  datatype EcmpRoute = EcmpRoute(route: string, table: string, nexthops: seq<Nexthop>)

  datatype Config = Config(
    programSettings: ProgramSettings,
    greTunnels: seq<Tunnel>,
    staticRoutes: seq<StaticRoute>,
    ecmpRoutes: seq<EcmpRoute>)

  /** The zero value of the global `config` before anything is loaded. */
  const EmptyConfig := Config(ProgramSettings("", Logging(false, false, false)), [], [], [])
}
