/**
 Rebuilding a server from its container after an agent restart, and what building it again gives.
 */
module Recovery {
  import opened Text
  import opened ContainerSpec
  import Argv
  import Placeholders
  import PortRecovery
  import ShellQuoting
  import Tokenizer

  // ----- limits -----

  /** parseLabelInt64: 0 for a missing, malformed or negative label. */
  function ParseLabel(labels: map<string, string>, key: string): int64 {
    var n := ParseInt(Lookup(labels, key));
    if n.None? || n.value < 0 then 0 else n.value
  }

  function RecoveredMemory(r: Resources): int64 {
    var mb := Wrap64(TruncDiv(r.memory, MIB));
    if mb <= 0 then 1 else mb
  }

  function RecoveredSwap(r: Resources): int64 {
    if r.memorySwap < 0 then -1
    else if r.memorySwap > r.memory then Wrap64(TruncDiv(Wrap64(r.memorySwap - r.memory), MIB))
    else 0
  }

  function RecoveredCpu(r: Resources): int64 {
    if r.cpuPeriod > 0 then Wrap64(TruncDiv(Wrap64(r.cpuQuota * 100), r.cpuPeriod)) else 0
  }

  function RecoveredLimits(diskMB: int64, r: Resources): Limits {
    Limits(RecoveredCpu(r), RecoveredMemory(r), RecoveredSwap(r), diskMB, r.blkioWeight,
           if r.pidsLimit.Some? then r.pidsLimit.value else 0)
  }

  const TWO61: int := 0x2000_0000_0000_0000

  /** The largest percentage whose quota survives being multiplied by 100 in 64 bits. */
  const MAX_CPU: int := 92233720368547

  /** The limits whose byte counts and quota come back from 64-bit arithmetic. */
  predicate LimitsRecoverable(l: Limits) {
    && MemoryBytes(l) > 0
    && (l.swapMB < 0 || MemSwapBytes(l) >= MemoryBytes(l))
    && (l.cpuPercent <= 0 || l.cpuPercent % TWO61 <= MAX_CPU)
  }

  lemma {:induction false} WrapSteps(n: int) returns (k: int)
    ensures Wrap64(n) == n + k * TWO64
  {
    k := -((n + TWO63) / TWO64);
  }

  lemma {:induction false} WrapShift(n: int, k: int)
    ensures Wrap64(n + k * TWO64) == Wrap64(n)
  {
    var a := WrapSteps(n);
    var b := WrapSteps(n + k * TWO64);
    assert (k + b - a) * TWO64 == k * TWO64 + b * TWO64 - a * TWO64;
  }

  lemma {:induction false} MemoryIsWhole(n: int)
    ensures Wrap64(n * MIB) % MIB == 0
  {
    var k := WrapSteps(n * MIB);
    assert n * MIB + k * TWO64 == (n + k * 0x1000_0000_0000) * MIB;
  }

  lemma {:induction false} MemoryComesBack(l: Limits, node: Node)
    ensures var r := BuildResources(l, node);
      RecoveredMemory(r) > 0 && (Wrap64(RecoveredMemory(r) * MIB) == MemoryBytes(l) <==> MemoryBytes(l) > 0)
  {
    MemoryIsWhole(l.memoryMB);
  }

  lemma {:induction false} SwapComesBack(l: Limits, l': Limits, node: Node)
    requires MemoryBytes(l) > 0 && MemoryBytes(l') == MemoryBytes(l)
    requires l'.swapMB == RecoveredSwap(BuildResources(l, node))
    ensures MemSwapBytes(l') == MemSwapBytes(l) <==> l.swapMB < 0 || MemSwapBytes(l) >= MemoryBytes(l)
  {
    if l.swapMB >= 0 {
      TotalIsWhole(l);
      SwapAgain(MemoryBytes(l), MemSwapBytes(l));
    }
  }

  lemma {:induction false} WrapId(n: int)
    requires IsInt64(n)
    ensures Wrap64(n) == n
  {
  }

  /** The swap read back from a whole total, added to the memory again. */
  lemma {:induction false} SwapAgain(m: int64, total: int64)
    requires m > 0 && m % MIB == 0 && total % MIB == 0
    ensures total > m ==>
      var mb := Wrap64(TruncDiv(Wrap64(total - m), MIB));
      mb >= 0 && Wrap64(m + Wrap64(mb * MIB)) == total
  {
    if total > m {
      assert IsInt64(total) && IsInt64(m);
      var d: int := total - m;
      WrapId(d);
      WrapId(d / MIB);
      assert d / MIB * MIB == d;
      WrapId(total);
    }
  }

  lemma {:induction false} TotalIsWhole(l: Limits)
    requires l.swapMB >= 0
    ensures MemoryBytes(l) % MIB == 0 && MemSwapBytes(l) % MIB == 0
  {
    MemoryIsWhole(l.memoryMB);
    MemoryIsWhole(l.swapMB);
    var m: int, s: int := MemoryBytes(l), Wrap64(l.swapMB * MIB);
    assert m + s == (m / MIB + s / MIB) * MIB;
    MemoryIsWhole(m / MIB + s / MIB);
  }

  /** 125 is invertible modulo 2^61. */
  lemma {:induction false} CancelOdd(d: int, j: int) returns (t: int)
    requires 125 * d == j * TWO61
    ensures d == t * TWO61
  {
    t := 2066035336255469781 * j - 112 * d;
  }

  /** Only the remainder modulo 2^61 of a percentage reaches its quota and the quota times 100. */
  lemma {:induction false} QuotaOfRemainder(p: int)
    ensures Wrap64(p * 1000) == Wrap64(p % TWO61 * 1000)
    ensures Wrap64(Wrap64(p * 1000) * 100) == Wrap64(p % TWO61 * 100000)
  {
    var m, k := p % TWO61, p / TWO61;
    WrapShift(m * 1000, 125 * k);
    var a := WrapSteps(p * 1000);
    WrapShift(m * 100000, 12500 * k + 100 * a);
  }

  /** A remainder above the bound never equals the percentage read back from its quota. */
  lemma {:induction false} QuotaLost(m: int, r: int, b: int)
    requires MAX_CPU < m < TWO61 && 0 <= r <= MAX_CPU
    ensures m * 1000 + b * TWO64 != r * 1000
  {
    if m * 1000 + b * TWO64 == r * 1000 {
      var t := CancelOdd(m - r, -8 * b);
    }
  }

  lemma {:induction false} CpuComesBack(p: int64)
    requires p > 0
    ensures CpuQuota(Wrap64(TruncDiv(Wrap64(CpuQuota(p) * 100), 100000))) == CpuQuota(p) <==> p % TWO61 <= MAX_CPU
  {
    var m: int := p % TWO61;
    QuotaOfRemainder(p);
    QuotaReadBack(m);
  }

  lemma {:induction false} QuotaReadBack(m: int)
    requires 0 <= m < TWO61
    ensures CpuQuota(Wrap64(TruncDiv(Wrap64(m * 100000), 100000))) == Wrap64(m * 1000) <==> m <= MAX_CPU
  {
    if m <= MAX_CPU {
      WrapId(m * 100000);
      WrapId(m * 1000);
      WrapId(m);
    } else {
      var w: int := Wrap64(m * 100000);
      var r := TruncDiv(w, 100000);
      WrapId(r);
      if r > 0 { WrapId(r * 1000); }
      var b := WrapSteps(m * 1000);
      QuotaLost(m, if r <= 0 then 0 else r, b);
    }
  }

  /** Rebuilding the recovered limits gives the same cgroup resources exactly for recoverable limits. */
  lemma {:induction false} LimitsFixpoint(l: Limits, node: Node)
    ensures var l' := RecoveredLimits(l.diskMB, BuildResources(l, node));
      BuildResources(l', node) == BuildResources(l, node) <==> LimitsRecoverable(l)
  {
    var r := BuildResources(l, node);
    var l' := RecoveredLimits(l.diskMB, r);
    MemoryComesBack(l, node);
    if MemoryBytes(l) > 0 {
      SwapComesBack(l, l', node);
    }
    if l.cpuPercent > 0 {
      CpuComesBack(l.cpuPercent);
    }
  }

  // ----- the whole server -----

  /** What a container must carry to be recovered at all. */
  predicate Identifiable(config: Config) {
    var uid := ParseInt(Lookup(config.labels, "gxhost.server.uid"));
    uid.Some? && uid.value > 0 && config.image != "" && config.entrypoint + config.cmd != []
  }

  /** `sv` is a server read back from the container. */
  ghost predicate IsRecovered(config: Config, host: Option<HostConfig>, sv: Server) {
    && Identifiable(config)
    && sv.uuid == Lookup(config.labels, "gxhost.server.uuid")
    && Some(sv.uid) == ParseInt(Lookup(config.labels, "gxhost.server.uid"))
    && sv.image == config.image && sv.stopSignal == config.stopSignal
    && Tokenizer.Tokenize(sv.startup) == Ok(config.entrypoint + config.cmd)
    && sv.env == map[] && sv.mounts == []
    && var disk := ParseLabel(config.labels, "gxhost.limits.disk_mb");
       if host.Some? then
         && sv.limits == RecoveredLimits(disk, host.value.resources)
         && PortRecovery.IsRecovery(host.value.portBindings, sv.allocations)
       else sv.limits == Limits(0, 1, 0, disk, 0, 0) && sv.allocations == []
  }

  /** The limits filled in one after the other from the cgroup resources. */
  method ReadLimits(diskMB: int64, h: Resources) returns (limits: Limits)
    ensures limits == RecoveredLimits(diskMB, h)
  {
    limits := Limits(0, Wrap64(TruncDiv(h.memory, MIB)), 0, diskMB, 0, 0);
    if h.cpuPeriod > 0 {
      limits := limits.(cpuPercent := Wrap64(TruncDiv(Wrap64(h.cpuQuota * 100), h.cpuPeriod)));
    }
    if h.memorySwap < 0 {
      limits := limits.(swapMB := -1);
    } else if h.memorySwap > h.memory {
      limits := limits.(swapMB := Wrap64(TruncDiv(Wrap64(h.memorySwap - h.memory), MIB)));
    }
    limits := limits.(ioWeight := h.blkioWeight);
    if h.pidsLimit.Some? {
      limits := limits.(pidsLimit := h.pidsLimit.value);
    }
    if limits.memoryMB <= 0 {
      limits := limits.(memoryMB := 1);
    }
  }

  /** recoveredServerSpec: identity from labels, limits from the cgroup, startup from the argument vector. */
  method RecoveredServerSpec(config: Config, host: Option<HostConfig>) returns (r: Outcome<Server>)
    ensures r.Ok? == Identifiable(config)
    ensures r.Ok? ==> IsRecovered(config, host, r.value)
  {
    var uid := ParseInt(Lookup(config.labels, "gxhost.server.uid"));
    if uid.None? || uid.value <= 0 {
      return Err("invalid gxhost.server.uid label");
    }
    var argv := config.entrypoint + config.cmd;
    if config.image == "" || |argv| == 0 {
      return Err("managed container is missing image or startup command");
    }
    var limits := Limits(0, 1, 0, ParseLabel(config.labels, "gxhost.limits.disk_mb"), 0, 0);
    var allocations: seq<Allocation> := [];
    if host.Some? {
      limits := ReadLimits(limits.diskMB, host.value.resources);
      allocations := PortRecovery.RecoveredAllocations(host.value.portBindings);
    }
    var startup := ShellQuoting.JoinShellArgs(argv);
    return Ok(Server(Lookup(config.labels, "gxhost.server.uuid"), uid.value, config.image, startup,
                     config.stopSignal, map[], limits, allocations, []));
  }

  /** Equal in everything but the order and repetition of bindings under one port. */
  ghost predicate SameContainer(c: Container, c': Container) {
    && c'.config == c.config
    && c'.host == c.host.(portBindings := c'.host.portBindings)
    && PortRecovery.SamePorts(c'.host.portBindings, c.host.portBindings)
  }

  /** What recovery keeps: no `{{` in the command, no extra mount, recoverable limits, bare protocols. */
  ghost predicate Recoverable(srv: Server, node: Node, c: Container) {
    && (forall i :: 0 <= i < |c.config.entrypoint| ==> Placeholders.NoPair(c.config.entrypoint[i], '{'))
    && ExtraMounts(node, srv.mounts) == []
    && LimitsRecoverable(srv.limits)
    && PortRecovery.PlainProtocols(srv.allocations)
  }

  lemma {:induction false} RecoveredFields(srv: Server, node: Node, c: Container)
    requires Builds(srv, node, c)
    ensures Identifiable(c.config) <==> srv.uid > 0
    ensures ParseInt(Lookup(c.config.labels, "gxhost.server.uid")) == Some(srv.uid)
    ensures ParseLabel(c.config.labels, "gxhost.limits.disk_mb") == srv.limits.diskMB
  {
    BuiltLabels(srv, node, c);
    ParseOfFormat(srv.uid);
    DiskComesBack(c.config.labels, srv.limits.diskMB);
  }

  lemma {:induction false} BuiltLabels(srv: Server, node: Node, c: Container)
    requires Builds(srv, node, c)
    ensures Lookup(c.config.labels, "gxhost.server.uid") == FormatInt(srv.uid)
    ensures Lookup(c.config.labels, "gxhost.limits.disk_mb") == FormatInt(srv.limits.diskMB)
  {
  }

  lemma {:induction false} DiskComesBack(labels: map<string, string>, diskMB: int64)
    requires Lookup(labels, "gxhost.limits.disk_mb") == FormatInt(diskMB) && diskMB > 0
    ensures ParseLabel(labels, "gxhost.limits.disk_mb") == diskMB
  {
    ParseOfFormat(diskMB);
  }

  /** A recovered server passes validation again. */
  lemma {:induction false} RecoveredIsValid(srv: Server, node: Node, c: Container, sv: Server)
    requires Builds(srv, node, c) && IsRecovered(c.config, Some(c.host), sv)
    ensures ServerOk(sv, node) && sv.uuid == srv.uuid && sv.uid == srv.uid && sv.limits.diskMB == srv.limits.diskMB
  {
    RecoveredScalars(srv, node, c, sv);
    PlacedPorts(srv, node, c);
    RecoveredPorts(srv, sv.allocations);
  }

  lemma {:induction false} RecoveredScalars(srv: Server, node: Node, c: Container, sv: Server)
    requires Builds(srv, node, c) && IsRecovered(c.config, Some(c.host), sv)
    ensures sv.uuid == srv.uuid && sv.uid == srv.uid && sv.image == srv.image
    ensures sv.limits.diskMB == srv.limits.diskMB && sv.limits.memoryMB > 0
  {
    RecoveredFields(srv, node, c);
  }

  lemma {:induction false} PlacedPorts(srv: Server, node: Node, c: Container)
    requires Builds(srv, node, c)
    ensures c.host.portBindings == PortBindings(srv.allocations)
  {
  }

  lemma {:induction false} RecoveredPorts(srv: Server, r: seq<Allocation>)
    requires forall i :: 0 <= i < |srv.allocations| ==> AllocationOk(srv.allocations[i])
    requires PortRecovery.IsRecovery(PortBindings(srv.allocations), r)
    ensures forall i :: 0 <= i < |r| ==> AllocationOk(r[i])
    ensures r != [] ==> exists i :: 0 <= i < |r| && r[i].primary
  {
    PortRecovery.RecoveredAreValid(srv.allocations, r);
    assert r != [] ==> r[0].primary;
  }

  lemma {:induction false} SameKeys(a: seq<Allocation>, b: seq<Allocation>)
    requires PortRecovery.SamePorts(PortBindings(a), PortBindings(b))
    ensures PortBindings(a).Keys == PortBindings(b).Keys
  {
    forall k: string ensures k in PortBindings(a) <==> k in PortBindings(b) {
      KeyBound(a, k);
      KeyBound(b, k);
    }
  }

  lemma {:induction false} KeyBound(allocs: seq<Allocation>, k: string)
    ensures k in PortBindings(allocs) <==> exists b :: Binds(PortBindings(allocs), Published(k, b))
  {
    NoEmptyList(allocs, k);
    if k in PortBindings(allocs) {
      assert Binds(PortBindings(allocs), Published(k, PortBindings(allocs)[k][0]));
    }
  }

  lemma {:induction false} NoEmptyList(allocs: seq<Allocation>, k: string)
    ensures k in PortBindings(allocs) ==> PortBindings(allocs)[k] != []
  {
    if allocs != [] {
      var n := |allocs| - 1;
      NoEmptyList(allocs[..n], k);
      NoEmptyBindAll(PortBindings(allocs[..n]), allocs[n], Protocols(allocs[n]), k);
    }
  }

  lemma {:induction false} NoEmptyBindAll(m: PortMap, a: Allocation, protos: seq<string>, k: string)
    requires k in m ==> m[k] != []
    ensures k in BindAll(m, a, protos) ==> BindAll(m, a, protos)[k] != []
  {
    if protos != [] {
      NoEmptyBindAll(m, a, protos[..|protos| - 1], k);
    }
  }

  lemma {:induction false} RebuildAgrees(srv: Server, node: Node, c: Container, sv: Server) returns (c': Container)
    requires Builds(srv, node, c) && IsRecovered(c.config, Some(c.host), sv) && Recoverable(srv, node, c)
    ensures Builds(sv, node, c') && SameContainer(c, c')
  {
    var argv := c.config.entrypoint;
    RecoveredIsValid(srv, node, c, sv);
    assert argv + [] == argv;
    Argv.Restarts(sv.startup, argv);
    LimitsFixpoint(srv.limits, node);
    PortRecovery.PortsFixpoint(srv.allocations, sv.allocations);
    SameKeys(sv.allocations, srv.allocations);
    var ports := PortBindings(sv.allocations);
    c' := Assemble(sv, node, argv, DataMount(node, sv.uuid).value, ports, ports.Keys);
  }

  lemma {:induction false} AgreementNeeds(srv: Server, node: Node, c: Container, sv: Server, c': Container)
    requires Builds(srv, node, c) && IsRecovered(c.config, Some(c.host), sv)
    requires Builds(sv, node, c') && SameContainer(c, c')
    ensures Recoverable(srv, node, c)
  {
    var argv := c.config.entrypoint;
    RecoveredIsValid(srv, node, c, sv);
    assert argv + [] == argv;
    Argv.Restarts(sv.startup, argv);
    LimitsFixpoint(srv.limits, node);
    PortRecovery.PortsFixpoint(srv.allocations, sv.allocations);
    var data := DataMount(node, srv.uuid).value;
    assert [data] + ExtraMounts(node, srv.mounts) == [data] + [];
  }

  lemma {:induction false} BuildsUnique(srv: Server, node: Node, a: Container, b: Container)
    requires Builds(srv, node, a) && Builds(srv, node, b)
    ensures a == b
  {
    Argv.StartsUnique(srv.startup, srv.env, a.config.entrypoint, b.config.entrypoint);
  }

  /**
   An agent restart followed by a rebuild: the container comes out the same exactly for a server with a
   positive uid that recovery keeps.
   */
  method RecoverAndRebuild(srv: Server, node: Node, c: Container) returns (r: Outcome<Container>)
    requires Builds(srv, node, c)
    ensures r.Ok? && SameContainer(c, r.value) <==> srv.uid > 0 && Recoverable(srv, node, c)
  {
    var sv := RecoveredServerSpec(c.config, Some(c.host));
    RecoveredFields(srv, node, c);
    if sv.Err? {
      return Err(sv.reason);
    }
    r := BuildContainerSpec(sv.value, node);
    if Recoverable(srv, node, c) {
      ghost var c' := RebuildAgrees(srv, node, c, sv.value);
      BuildsUnique(sv.value, node, c', r.value);
    } else if r.Ok? && SameContainer(c, r.value) {
      AgreementNeeds(srv, node, c, sv.value, r.value);
    }
  }

  // ----- what is read from any container -----

  /** A label is a number or nothing: negative and malformed ones count as zero. */
  lemma {:induction false} LabelNumber(labels: map<string, string>, key: string)
    ensures ParseLabel(labels, key) >= 0
    ensures forall n: int64 :: ParseInt(Lookup(labels, key)) == Some(n) && n >= 0 ==> ParseLabel(labels, key) == n
    ensures ParseInt(Lookup(labels, key)) == None ==> ParseLabel(labels, key) == 0
  {
  }

  /** The limits of any container, in the units the panel uses: rounded down, with at least one MiB of memory. */
  lemma {:induction false} RecoveredUnits(diskMB: int64, r: Resources)
    ensures var l := RecoveredLimits(diskMB, r);
      && (r.memory >= 1048576 ==> l.memoryMB * 1048576 <= r.memory < (l.memoryMB + 1) * 1048576)
      && (r.memory < 1048576 ==> l.memoryMB == 1)
      && (r.memorySwap < 0 ==> l.swapMB == -1)
      && (0 <= r.memorySwap <= r.memory ==> l.swapMB == 0)
      && (0 <= r.memory < r.memorySwap ==>
            l.swapMB * 1048576 <= r.memorySwap - r.memory < (l.swapMB + 1) * 1048576)
      && (r.cpuPeriod > 0 && 0 <= r.cpuQuota <= 92233720368547758 ==>
            l.cpuPercent * r.cpuPeriod <= r.cpuQuota * 100 < (l.cpuPercent + 1) * r.cpuPeriod)
      && (r.cpuPeriod <= 0 ==> l.cpuPercent == 0)
      && l.diskMB == diskMB && l.ioWeight == r.blkioWeight && (r.pidsLimit.Some? ==> l.pidsLimit == r.pidsLimit.value)
  {
    MemoryUnits(r);
    SwapUnits(r);
    CpuUnits(r);
  }

  lemma {:induction false} MemoryUnits(r: Resources)
    ensures r.memory >= 1048576 ==> RecoveredMemory(r) * 1048576 <= r.memory < (RecoveredMemory(r) + 1) * 1048576
    ensures r.memory < 1048576 ==> RecoveredMemory(r) == 1
  {
    WrapId(TruncDiv(r.memory, MIB));
  }

  lemma {:induction false} SwapUnits(r: Resources)
    ensures 0 <= r.memory < r.memorySwap ==>
      RecoveredSwap(r) * 1048576 <= r.memorySwap - r.memory < (RecoveredSwap(r) + 1) * 1048576
  {
    if 0 <= r.memory < r.memorySwap {
      var more: int := r.memorySwap - r.memory;
      WrapId(more);
      WrapId(TruncDiv(more, MIB));
    }
  }

  lemma {:induction false} CpuUnits(r: Resources)
    ensures r.cpuPeriod > 0 && 0 <= r.cpuQuota <= 92233720368547758 ==>
      RecoveredCpu(r) * r.cpuPeriod <= r.cpuQuota * 100 < (RecoveredCpu(r) + 1) * r.cpuPeriod
  {
    if r.cpuPeriod > 0 && 0 <= r.cpuQuota <= 92233720368547758 {
      var q: int, p: int := r.cpuQuota * 100, r.cpuPeriod;
      WrapId(q);
      Floor(q, p);
      WrapId(q / p);
    }
  }

  lemma {:induction false} Floor(q: int, p: int)
    requires q >= 0 && p > 0
    ensures 0 <= q / p <= q && (q / p) * p <= q < (q / p + 1) * p
  {
    var d, m := q / p, q % p;
    assert q == d * p + m && 0 <= m < p;
    assert (d + 1) * p == d * p + p;
    assert d <= q by {
      if d > 0 {
        AtLeast(d, p);
      }
    }
  }

  lemma {:induction false} AtLeast(d: nat, p: nat)
    requires p > 0
    ensures d * p >= d
  {
  }
}
