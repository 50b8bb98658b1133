/** Building a container's configuration from a server and its node. */
module ContainerSpec {
  import opened Text
  import Argv
  import Paths

  datatype Limits = Limits(cpuPercent: int64, memoryMB: int64, swapMB: int64, diskMB: int64, ioWeight: int64, pidsLimit: int64)

  datatype Allocation = Allocation(ip: string, port: int64, primary: bool, protocols: seq<string>)

  datatype MountRequest = MountRequest(source: string, target: string, readOnly: bool)

  datatype AllowedMount = AllowedMount(source: string, readOnlyRequired: bool, targets: seq<string>)

  datatype Server = Server(
    uuid: string, uid: int64, image: string, startup: string, stopSignal: string, env: map<string, string>,
    limits: Limits, allocations: seq<Allocation>, mounts: seq<MountRequest>)

  datatype Node = Node(
    dataDir: string, networkName: string, cgroupParent: string, uidMin: int64, uidMax: int64,
    seccomp: string, apparmor: string, allowedMounts: seq<AllowedMount>, ioWeightSupported: bool,
    logMaxSize: string, logMaxFile: string)

  datatype Mount = Mount(source: string, target: string, readOnly: bool)

  datatype PortBinding = PortBinding(hostIP: string, hostPort: string)

  type PortMap = map<string, seq<PortBinding>>

  datatype Resources = Resources(
    cgroupParent: string, memory: int64, memoryReservation: int64, memorySwap: int64,
    cpuPeriod: int64, cpuQuota: int64, blkioWeight: int64, pidsLimit: Option<int64>)

  datatype Config = Config(
    image: string, entrypoint: seq<string>, cmd: seq<string>, user: string, stopSignal: string,
    labels: map<string, string>, exposedPorts: set<string>)

  datatype HostConfig = HostConfig(
    networkMode: string, securityOpt: seq<string>, logMaxSize: string, logMaxFile: string,
    mounts: seq<Mount>, portBindings: PortMap, resources: Resources)

  datatype Container = Container(config: Config, host: HostConfig)

  const MIB: int := 0x10_0000
  const DEFAULT_PIDS: int64 := 512
  const MIN_PORT: int64 := 1024
  const MAX_PORT: int64 := 65535

  // ----- validation -----

  predicate AllocationOk(a: Allocation) {
    MIN_PORT <= a.port <= MAX_PORT && a.ip != ""
  }

  predicate ServerOk(srv: Server, node: Node) {
    && srv.image != ""
    && node.uidMin <= srv.uid <= node.uidMax && srv.uid != 0
    && srv.limits.memoryMB > 0 && srv.limits.diskMB > 0
    && (forall i :: 0 <= i < |srv.allocations| ==> AllocationOk(srv.allocations[i]))
    && (srv.allocations != [] ==> exists i :: 0 <= i < |srv.allocations| && srv.allocations[i].primary)
  }

  method ValidateServer(srv: Server, node: Node) returns (ok: bool)
    ensures ok == ServerOk(srv, node)
  {
    if srv.image == "" || srv.uid < node.uidMin || srv.uid > node.uidMax || srv.uid == 0
       || srv.limits.memoryMB <= 0 || srv.limits.diskMB <= 0 {
      return false;
    }
    var hasPrimary := false;
    for i := 0 to |srv.allocations|
      invariant forall k :: 0 <= k < i ==> AllocationOk(srv.allocations[k])
      invariant hasPrimary == exists k :: 0 <= k < i && srv.allocations[k].primary
    {
      var a := srv.allocations[i];
      if a.port < MIN_PORT || a.port > MAX_PORT || a.ip == "" {
        return false;
      }
      if a.primary {
        hasPrimary := true;
      }
    }
    return srv.allocations == [] || hasPrimary;
  }

  // ----- mounts -----

  predicate LooksLikeControlSocket(p: string) {
    Paths.Base(p) in {"docker.sock", "containerd.sock", "crio.sock"} || Paths.HasSuffix(p, ".sock")
  }

  function DataMount(node: Node, uuid: string): Outcome<Mount> {
    if node.dataDir == "" || uuid == "" then Err("no data directory")
    else
      var src := Paths.JoinPath(node.dataDir, uuid);
      if LooksLikeControlSocket(src) then Err("data mount is a control socket")
      else Ok(Mount(src, "/home/container", false))
  }

  function FindAllowed(allowed: seq<AllowedMount>, source: string): Option<AllowedMount> {
    if allowed == [] then None
    else if allowed[0].source == source then Some(allowed[0])
    else FindAllowed(allowed[1..], source)
  }

  predicate MountAllowed(node: Node, req: MountRequest) {
    && !LooksLikeControlSocket(req.source)
    && (forall dir | dir in ["/proc", "/sys", "/dev", "/run", "/etc", "/var/run"] ::
          req.source != dir && !(dir + "/" <= req.source))
    && "/home/container" <= req.target
    && var entry := FindAllowed(node.allowedMounts, req.source);
       entry.Some? && req.target in entry.value.targets && (entry.value.readOnlyRequired ==> req.readOnly)
  }

  function ExtraMounts(node: Node, reqs: seq<MountRequest>): seq<Mount> {
    if reqs == [] then []
    else
      (if MountAllowed(node, reqs[0]) then [Mount(reqs[0].source, reqs[0].target, reqs[0].readOnly)] else [])
      + ExtraMounts(node, reqs[1..])
  }

  // ----- ports -----

  /** One published port: its key `<port>/<proto>` and where it is bound. */
  datatype Published = Published(key: string, binding: PortBinding)

  function PortKey(port: int, proto: string): string {
    FormatInt(port) + "/" + proto
  }

  function Protocols(a: Allocation): seq<string> {
    if a.protocols == [] then ["tcp", "udp"] else a.protocols
  }

  function Publish(a: Allocation, proto: string): Published {
    Published(PortKey(a.port, proto), PortBinding(a.ip, FormatInt(a.port)))
  }

  function Bind(m: PortMap, p: Published): PortMap {
    m[p.key := (if p.key in m then m[p.key] else []) + [p.binding]]
  }

  function BindAll(m: PortMap, a: Allocation, protos: seq<string>): PortMap {
    if protos == [] then m
    else Bind(BindAll(m, a, protos[..|protos| - 1]), Publish(a, protos[|protos| - 1]))
  }

  /** Every allocation bound on each of its protocols, in order. */
  function PortBindings(allocs: seq<Allocation>): PortMap {
    if allocs == [] then map[]
    else
      var a := allocs[|allocs| - 1];
      BindAll(PortBindings(allocs[..|allocs| - 1]), a, Protocols(a))
  }

  /** One allocation on each of its protocols. */
  method BindProtocols(m: PortMap, a: Allocation, protos: seq<string>) returns (bindings: PortMap, exposed: set<string>)
    ensures bindings == BindAll(m, a, protos) && exposed == bindings.Keys
  {
    bindings, exposed := m, m.Keys;
    for j := 0 to |protos|
      invariant bindings == BindAll(m, a, protos[..j]) && exposed == bindings.Keys
    {
      assert protos[..j + 1][..j] == protos[..j];
      var p := Publish(a, protos[j]);
      exposed := exposed + {p.key};
      bindings := Bind(bindings, p);
    }
    assert protos[..|protos|] == protos;
  }

  method BuildPortBindings(allocs: seq<Allocation>) returns (bindings: PortMap, exposed: set<string>)
    ensures bindings == PortBindings(allocs) && exposed == bindings.Keys
  {
    bindings, exposed := map[], {};
    for i := 0 to |allocs|
      invariant bindings == PortBindings(allocs[..i]) && exposed == bindings.Keys
    {
      assert allocs[..i + 1][..i] == allocs[..i];
      bindings, exposed := BindProtocols(bindings, allocs[i], Protocols(allocs[i]));
    }
    assert allocs[..|allocs|] == allocs;
  }

  /** The pairs a port map binds, without their order or repetition. */
  ghost predicate Binds(m: PortMap, p: Published) {
    p.key in m && p.binding in m[p.key]
  }

  lemma {:induction false} BindAllBinds(m: PortMap, a: Allocation, protos: seq<string>, p: Published)
    ensures Binds(BindAll(m, a, protos), p) <==>
            Binds(m, p) || exists j :: 0 <= j < |protos| && p == Publish(a, protos[j])
  {
    if protos != [] {
      var n := |protos| - 1;
      BindAllBinds(m, a, protos[..n], p);
      assert Binds(BindAll(m, a, protos), p) <==>
             Binds(BindAll(m, a, protos[..n]), p) || p == Publish(a, protos[n]);
    }
  }

  /** A port map binds exactly the allocations' (address, protocol) pairs. */
  lemma {:induction false} PortBindingsBind(allocs: seq<Allocation>, p: Published)
    ensures Binds(PortBindings(allocs), p) <==>
            exists i, j :: 0 <= i < |allocs| && 0 <= j < |Protocols(allocs[i])| && p == Publish(allocs[i], Protocols(allocs[i])[j])
  {
    if allocs != [] {
      var n := |allocs| - 1;
      PortBindingsBind(allocs[..n], p);
      BindAllBinds(PortBindings(allocs[..n]), allocs[n], Protocols(allocs[n]), p);
    }
  }

  // ----- resources -----

  function ClampInt(v: int, lo: int, hi: int, def: int): int {
    if v == 0 then def else if v < lo then lo else if v > hi then hi else v
  }

  function MemoryBytes(l: Limits): int64 {
    Wrap64(l.memoryMB * MIB)
  }

  function MemSwapBytes(l: Limits): int64 {
    if l.swapMB < 0 then -1 else Wrap64(MemoryBytes(l) + Wrap64(l.swapMB * MIB))
  }

  function CpuQuota(percent: int64): int64 {
    if percent <= 0 then 0 else Wrap64(percent * 1000)
  }

  function BuildResources(l: Limits, node: Node): Resources {
    var mem := MemoryBytes(l);
    Resources(
      node.cgroupParent, mem, Wrap64(TruncDiv(Wrap64(mem * 9), 10)), MemSwapBytes(l),
      100000, CpuQuota(l.cpuPercent),
      if node.ioWeightSupported then ClampInt(l.ioWeight, 10, 1000, 500) else 0,
      Some(if l.pidsLimit == 0 then DEFAULT_PIDS else l.pidsLimit))
  }

  // ----- the whole container -----

  function Labels(srv: Server): map<string, string> {
    map[
      "gxhost.managed" := "true",
      "gxhost.server.uuid" := srv.uuid,
      "gxhost.server.uid" := FormatInt(srv.uid),
      "gxhost.limits.disk_mb" := FormatInt(srv.limits.diskMB),
      "gxhost.spec.version" := "1"]
  }

  function SecurityOpt(node: Node): seq<string> {
    ["no-new-privileges:true"]
    + (if node.seccomp != "" then ["seccomp=" + node.seccomp] else [])
    + (if node.apparmor != "" then ["apparmor=" + node.apparmor] else [])
  }

  function Assemble(srv: Server, node: Node, argv: seq<string>, data: Mount, ports: PortMap, exposed: set<string>): Container {
    Container(
      Config(srv.image, argv, [], FormatInt(srv.uid) + ":" + FormatInt(srv.uid),
             if srv.stopSignal == "" then "SIGTERM" else srv.stopSignal, Labels(srv), exposed),
      HostConfig(node.networkName, SecurityOpt(node),
                 if node.logMaxSize == "" then "8m" else node.logMaxSize,
                 if node.logMaxFile == "" then "3" else node.logMaxFile,
                 [data] + ExtraMounts(node, srv.mounts), ports, BuildResources(srv.limits, node)))
  }

  /** `c` is the container this server gets on this node. */
  ghost predicate Builds(srv: Server, node: Node, c: Container) {
    && ServerOk(srv, node)
    && Argv.Starts(srv.startup, srv.env, c.config.entrypoint)
    && DataMount(node, srv.uuid).Ok?
    && var ports := PortBindings(srv.allocations);
       c == Assemble(srv, node, c.config.entrypoint, DataMount(node, srv.uuid).value, ports, ports.Keys)
  }

  method BuildContainerSpec(srv: Server, node: Node) returns (r: Outcome<Container>)
    ensures r.Ok? ==> Builds(srv, node, r.value)
    ensures r.Err? ==> forall c :: !Builds(srv, node, c)
  {
    var ok := ValidateServer(srv, node);
    if !ok {
      return Err("invalid server");
    }
    var argv := Argv.BuildArgv(srv.startup, srv.env);
    if argv.Err? {
      return Err(argv.reason);
    }
    var data := DataMount(node, srv.uuid);
    if data.Err? {
      return Err(data.reason);
    }
    var ports, exposed := BuildPortBindings(srv.allocations);
    return Ok(Assemble(srv, node, argv.value, data.value, ports, exposed));
  }

  // ----- what a built container is -----

  lemma {:induction false} NoColon(n: int)
    ensures ':' !in FormatInt(n)
  {
    var d := if n < 0 then FormatNat(-n) else FormatNat(n);
    assert forall i :: 0 <= i < |d| ==> IsDigit(d[i]);
  }

  /** The process runs under the server's own uid and gid, which are never root's. */
  lemma {:induction false} RunsAsItsUser(srv: Server, node: Node, c: Container)
    requires Builds(srv, node, c)
    ensures var parts := Split(c.config.user, ':');
      |parts| == 2 && ParseInt(parts[0]) == Some(srv.uid) && ParseInt(parts[1]) == Some(srv.uid)
    ensures srv.uid != 0 && node.uidMin <= srv.uid <= node.uidMax
  {
    var u := FormatInt(srv.uid);
    NoColon(srv.uid);
    SplitHead(u, u, ':');
    SplitNone(u, ':');
    ParseOfFormat(srv.uid);
    assert c.config.user == u + [':'] + u;
  }

  /** Memory is counted in MiB, up to the size whose byte count still fits 64 bits. */
  lemma {:induction false} MemoryInBytes(l: Limits, node: Node)
    requires l.memoryMB > 0
    ensures BuildResources(l, node).memory == l.memoryMB * 1048576 <==> l.memoryMB < 8796093022208
  {
  }

  /** The reservation is nine tenths of the memory, rounded down. */
  lemma {:induction false} ReservesNineTenths(l: Limits, node: Node)
    requires 0 < l.memoryMB <= 977343669134
    ensures var r := BuildResources(l, node);
      10 * r.memoryReservation <= 9 * r.memory < 10 * (r.memoryReservation + 1)
  {
    MemoryInBytes(l, node);
    var m: int := MemoryBytes(l);
    assert Wrap64(m * 9) == m * 9;
    assert Wrap64(m * 9 / 10) == m * 9 / 10;
  }

  /** Swap comes on top of the memory; a negative amount means without limit. */
  lemma {:induction false} SwapOnTop(l: Limits, node: Node)
    requires l.memoryMB > 0
    ensures l.swapMB < 0 ==> BuildResources(l, node).memorySwap == -1
    ensures l.swapMB >= 0 && l.memoryMB + l.swapMB < 8796093022208 ==>
      BuildResources(l, node).memorySwap - BuildResources(l, node).memory == l.swapMB * 1048576
  {
    if l.swapMB >= 0 && l.memoryMB + l.swapMB < 8796093022208 {
      MemoryInBytes(l, node);
      assert Wrap64(l.swapMB * 1048576) == l.swapMB * 1048576;
    }
  }

  /** A percentage of one core is that share of the period; zero or less is no limit. */
  lemma {:induction false} CpuShare(l: Limits, node: Node)
    ensures var r := BuildResources(l, node);
      && (l.cpuPercent <= 0 ==> r.cpuQuota == 0)
      && (0 < l.cpuPercent ==> (r.cpuQuota * 100 == l.cpuPercent * r.cpuPeriod <==> l.cpuPercent <= 9223372036854775))
  {
  }

  /** Block I/O weight: 500 when unset, otherwise the nearest weight from 10 to 1000, and none where it is unsupported. */
  lemma {:induction false} WeightInRange(l: Limits, node: Node)
    ensures var w := BuildResources(l, node).blkioWeight;
      && (!node.ioWeightSupported ==> w == 0)
      && (node.ioWeightSupported ==> 10 <= w <= 1000)
      && (node.ioWeightSupported && l.ioWeight == 0 ==> w == 500)
      && (node.ioWeightSupported && 10 <= l.ioWeight <= 1000 ==> w == l.ioWeight)
      && (node.ioWeightSupported && l.ioWeight > 1000 ==> w == 1000)
      && (node.ioWeightSupported && l.ioWeight < 10 && l.ioWeight != 0 ==> w == 10)
    ensures BuildResources(l, node).pidsLimit == Some(if l.pidsLimit != 0 then l.pidsLimit else 512)
    ensures BuildResources(l, node).cgroupParent == node.cgroupParent
  {
  }

  /** The image, command and stop signal of a built container. */
  lemma {:induction false} BuiltConfig(srv: Server, node: Node, c: Container)
    requires Builds(srv, node, c)
    ensures c.config.image == srv.image != "" && c.config.cmd == [] && c.config.labels == Labels(srv)
    ensures c.config.stopSignal != "" && (srv.stopSignal != "" ==> c.config.stopSignal == srv.stopSignal)
    ensures srv.stopSignal == "" ==> c.config.stopSignal == "SIGTERM"
  {
  }

  /** What the labels of a built container say. */
  lemma {:induction false} LabelsSay(srv: Server)
    ensures var labels := Labels(srv);
      && Lookup(labels, "gxhost.managed") == "true" && Lookup(labels, "gxhost.spec.version") == "1"
      && Lookup(labels, "gxhost.server.uuid") == srv.uuid
      && ParseInt(Lookup(labels, "gxhost.server.uid")) == Some(srv.uid)
      && ParseInt(Lookup(labels, "gxhost.limits.disk_mb")) == Some(srv.limits.diskMB)
  {
    var labels := Labels(srv);
    assert Lookup(labels, "gxhost.server.uid") == FormatInt(srv.uid);
    assert Lookup(labels, "gxhost.limits.disk_mb") == FormatInt(srv.limits.diskMB);
    ParseOfFormat(srv.uid);
    ParseOfFormat(srv.limits.diskMB);
  }

  /** The host side: the node's network, privileges that cannot grow, and a bounded log. */
  lemma {:induction false} BuiltHost(srv: Server, node: Node, c: Container)
    requires Builds(srv, node, c)
    ensures c.host.networkMode == node.networkName
    ensures "no-new-privileges:true" in c.host.securityOpt
    ensures node.seccomp != "" ==> "seccomp=" + node.seccomp in c.host.securityOpt
    ensures node.apparmor != "" ==> "apparmor=" + node.apparmor in c.host.securityOpt
    ensures c.host.logMaxSize == (if node.logMaxSize != "" then node.logMaxSize else "8m")
    ensures c.host.logMaxFile == (if node.logMaxFile != "" then node.logMaxFile else "3")
    ensures c.host.resources == BuildResources(srv.limits, node) && srv.limits.memoryMB > 0 && srv.limits.diskMB > 0
  {
    assert c.host.securityOpt[0] == "no-new-privileges:true";
  }

  /** Mounts that may stand beside the data directory: listed by the node, for that place, and no host internals. */
  ghost predicate Granted(node: Node, m: Mount) {
    && (forall dir | dir in ["/proc", "/sys", "/dev", "/run", "/etc", "/var/run"] :: m.source != dir && !(dir + "/" <= m.source))
    && !Paths.HasSuffix(m.source, ".sock") && Paths.Base(m.source) !in {"docker.sock", "containerd.sock", "crio.sock"}
    && "/home/container" <= m.target
    && exists i :: 0 <= i < |node.allowedMounts| && node.allowedMounts[i].source == m.source
         && m.target in node.allowedMounts[i].targets && (node.allowedMounts[i].readOnlyRequired ==> m.readOnly)
  }

  lemma {:induction false} FoundIsListed(allowed: seq<AllowedMount>, source: string)
    ensures FindAllowed(allowed, source).Some? ==>
      exists i :: 0 <= i < |allowed| && allowed[i] == FindAllowed(allowed, source).value && allowed[i].source == source
    ensures FindAllowed(allowed, source).None? ==> forall i :: 0 <= i < |allowed| ==> allowed[i].source != source
  {
    if allowed != [] && allowed[0].source != source {
      FoundIsListed(allowed[1..], source);
      if FindAllowed(allowed, source).Some? {
        var i :| 0 <= i < |allowed[1..]| && allowed[1..][i] == FindAllowed(allowed, source).value;
        assert allowed[i + 1] == FindAllowed(allowed, source).value;
      }
    }
  }

  lemma {:induction false} ExtrasAreGranted(node: Node, reqs: seq<MountRequest>)
    ensures forall m :: m in ExtraMounts(node, reqs) ==> Granted(node, m) && MountRequest(m.source, m.target, m.readOnly) in reqs
  {
    if reqs != [] {
      ExtrasAreGranted(node, reqs[1..]);
      FoundIsListed(node.allowedMounts, reqs[0].source);
      forall m | m in ExtraMounts(node, reqs)
        ensures Granted(node, m) && MountRequest(m.source, m.target, m.readOnly) in reqs
      {
        if m !in ExtraMounts(node, reqs[1..]) {
          GrantedByEntry(node, reqs[0]);
        }
      }
    }
  }

  lemma {:induction false} GrantedByEntry(node: Node, req: MountRequest)
    requires MountAllowed(node, req)
    ensures Granted(node, Mount(req.source, req.target, req.readOnly))
  {
    FoundIsListed(node.allowedMounts, req.source);
  }

  /** A node that lists a source once grants exactly these. */
  lemma {:induction false} GrantedAreExtras(node: Node, reqs: seq<MountRequest>, req: MountRequest)
    requires forall i, j :: 0 <= i < j < |node.allowedMounts| ==> node.allowedMounts[i].source != node.allowedMounts[j].source
    requires req in reqs && Granted(node, Mount(req.source, req.target, req.readOnly))
    ensures Mount(req.source, req.target, req.readOnly) in ExtraMounts(node, reqs)
  {
    if reqs[0] == req {
      FoundIsListed(node.allowedMounts, req.source);
      assert MountAllowed(node, req);
    } else {
      GrantedAreExtras(node, reqs[1..], req);
    }
  }

  /** The data directory is mounted writable at its fixed place, and everything else was asked for and granted. */
  lemma {:induction false} BuiltMounts(srv: Server, node: Node, c: Container)
    requires Builds(srv, node, c)
    ensures c.host.mounts != [] && c.host.mounts[0] == Mount(Paths.JoinPath(node.dataDir, srv.uuid), "/home/container", false)
    ensures forall m :: m in c.host.mounts[1..] ==>
      Granted(node, m) && MountRequest(m.source, m.target, m.readOnly) in srv.mounts
  {
    ExtrasAreGranted(node, srv.mounts);
    assert c.host.mounts[1..] == ExtraMounts(node, srv.mounts);
  }

  /** The data directory is refused exactly when it has no name or is a control socket. */
  lemma {:induction false} DataMountIff(node: Node, uuid: string)
    ensures DataMount(node, uuid).Ok? <==>
      && node.dataDir != "" && uuid != "" && !Paths.HasSuffix(Paths.JoinPath(node.dataDir, uuid), ".sock")
      && Paths.Base(Paths.JoinPath(node.dataDir, uuid)) !in {"docker.sock", "containerd.sock", "crio.sock"}
  {
  }

  /** Every allocation is published on its own port, for its own protocols or for tcp and udp, and nothing else is. */
  lemma {:induction false} BuiltPorts(srv: Server, node: Node, c: Container, key: string, b: PortBinding)
    requires Builds(srv, node, c)
    ensures key in c.host.portBindings && b in c.host.portBindings[key] <==> PublishedFor(srv.allocations, key, b)
    ensures c.config.exposedPorts == c.host.portBindings.Keys
    ensures forall i :: 0 <= i < |srv.allocations| ==> 1024 <= srv.allocations[i].port <= 65535 && srv.allocations[i].ip != ""
    ensures srv.allocations != [] ==> exists i :: 0 <= i < |srv.allocations| && srv.allocations[i].primary
  {
    PortBindingsBind(srv.allocations, Published(key, b));
    PublishedIff(srv.allocations, key, b);
  }

  ghost predicate PublishedFor(allocs: seq<Allocation>, key: string, b: PortBinding) {
    exists a, proto :: a in allocs && (proto in a.protocols || (a.protocols == [] && (proto == "tcp" || proto == "udp")))
      && key == FormatInt(a.port) + "/" + proto && b == PortBinding(a.ip, FormatInt(a.port))
  }

  lemma {:induction false} PublishedIff(allocs: seq<Allocation>, key: string, b: PortBinding)
    ensures PublishedFor(allocs, key, b) <==>
      exists i, j :: 0 <= i < |allocs| && 0 <= j < |Protocols(allocs[i])| && Published(key, b) == Publish(allocs[i], Protocols(allocs[i])[j])
  {
    if PublishedFor(allocs, key, b) {
      var a, proto :| a in allocs && (proto in a.protocols || (a.protocols == [] && (proto == "tcp" || proto == "udp")))
        && key == FormatInt(a.port) + "/" + proto && b == PortBinding(a.ip, FormatInt(a.port));
      var i :| 0 <= i < |allocs| && allocs[i] == a;
      assert ["tcp", "udp"][0] == "tcp" && ["tcp", "udp"][1] == "udp";
      assert proto in Protocols(a);
      var j :| 0 <= j < |Protocols(a)| && Protocols(a)[j] == proto;
      assert Published(key, b) == Publish(allocs[i], Protocols(allocs[i])[j]);
    }
    if i, j :| 0 <= i < |allocs| && 0 <= j < |Protocols(allocs[i])| && Published(key, b) == Publish(allocs[i], Protocols(allocs[i])[j]) {
      var a, proto := allocs[i], Protocols(allocs[i])[j];
      assert a in allocs && proto in Protocols(a);
    }
  }
}
