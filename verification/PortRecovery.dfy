/** Reading a container's port bindings back into allocations. */
module PortRecovery {
  import opened Text
  import opened ContainerSpec
  import opened Ordering

  datatype Address = Address(ip: string, port: int64)

  /** One published (address, protocol). */
  datatype Endpoint = Endpoint(at: Address, proto: string)

  predicate AddressLess(a: Address, b: Address) {
    if a.port == b.port then StringLess(a.ip, b.ip) else a.port < b.port
  }

  lemma {:induction false} AddressOrder()
    ensures StrictTotal(AddressLess)
  {
    StringOrder();
  }

  /** nat.Port's Proto() and Port(): the parts around the first slash, `tcp` when there is no protocol. */
  function KeyProto(key: string): string {
    var parts := Split(key, '/');
    if parts[0] == "" then "" else if |parts| == 1 || parts[1] == "" then "tcp" else parts[1]
  }

  function KeyPort(key: string): string {
    Split(key, '/')[0]
  }

  /** The binding `b` under `key` publishes `e`; a host port other than the container port publishes nothing. */
  predicate Reads(key: string, b: PortBinding, e: Endpoint) {
    && ParseInt(KeyPort(key)) == Some(e.at.port) && ParseInt(b.hostPort) == Some(e.at.port)
    && b.hostIP == e.at.ip && KeyProto(key) == e.proto
  }

  ghost predicate IsPublished(ports: PortMap, keys: set<string>, e: Endpoint) {
    exists key, b :: key in keys && key in ports && b in ports[key] && Reads(key, b, e)
  }

  ghost predicate Allocated(allocs: seq<Allocation>, e: Endpoint) {
    exists i :: 0 <= i < |allocs| && Address(allocs[i].ip, allocs[i].port) == e.at && e.proto in allocs[i].protocols
  }

  function Addresses(allocs: seq<Allocation>): seq<Address> {
    seq(|allocs|, i requires 0 <= i < |allocs| => Address(allocs[i].ip, allocs[i].port))
  }

  /** Allocations in recovered form: sorted by address, protocols sorted, the first one primary. */
  ghost predicate Canonical(allocs: seq<Allocation>) {
    && Sorted(AddressLess, Addresses(allocs))
    && forall i :: 0 <= i < |allocs| ==>
         && allocs[i].primary == (i == 0)
         && allocs[i].protocols != [] && Sorted(StringLess, allocs[i].protocols)
  }

  ghost predicate IsRecovery(ports: PortMap, allocs: seq<Allocation>) {
    && Canonical(allocs)
    && forall e :: Allocated(allocs, e) <==> IsPublished(ports, ports.Keys, e)
  }

  // ----- the recovery is unique, whatever order the maps are read in -----

  lemma {:induction false} AddressAllocated(allocs: seq<Allocation>, at: Address)
    requires Canonical(allocs)
    ensures at in Addresses(allocs) <==> exists proto :: Allocated(allocs, Endpoint(at, proto))
  {
    if at in Addresses(allocs) {
      var i :| 0 <= i < |allocs| && Addresses(allocs)[i] == at;
      assert Allocated(allocs, Endpoint(at, allocs[i].protocols[0]));
    }
    if exists proto :: Allocated(allocs, Endpoint(at, proto)) {
      var proto :| Allocated(allocs, Endpoint(at, proto));
      var i :| 0 <= i < |allocs| && Address(allocs[i].ip, allocs[i].port) == at;
      assert Addresses(allocs)[i] == at;
    }
  }

  lemma {:induction false} ProtocolAllocated(allocs: seq<Allocation>, i: nat, proto: string)
    requires Canonical(allocs) && i < |allocs|
    ensures proto in allocs[i].protocols <==> Allocated(allocs, Endpoint(Addresses(allocs)[i], proto))
  {
    AddressOrder();
    assert Addresses(allocs)[i] == Address(allocs[i].ip, allocs[i].port);
    if Allocated(allocs, Endpoint(Addresses(allocs)[i], proto)) {
      var k :| 0 <= k < |allocs| && Addresses(allocs)[k] == Addresses(allocs)[i] && proto in allocs[k].protocols;
      assert k == i;
    }
  }

  lemma {:induction false} RecoveryUnique(a: seq<Allocation>, b: seq<Allocation>)
    requires Canonical(a) && Canonical(b)
    requires forall e :: Allocated(a, e) <==> Allocated(b, e)
    ensures a == b
  {
    forall at: Address ensures at in Addresses(a) <==> at in Addresses(b) {
      AddressAllocated(a, at);
      AddressAllocated(b, at);
    }
    AddressOrder();
    SortedUnique(AddressLess, Addresses(a), Addresses(b));
    assert |Addresses(a)| == |a| && |Addresses(b)| == |b|;
    forall i | 0 <= i < |a| ensures a[i] == b[i] {
      assert Addresses(a)[i] == Addresses(b)[i];
      forall proto: string ensures proto in a[i].protocols <==> proto in b[i].protocols {
        ProtocolAllocated(a, i, proto);
        ProtocolAllocated(b, i, proto);
      }
      StringOrder();
      SortedUnique(StringLess, a[i].protocols, b[i].protocols);
    }
  }

  // ----- recoveredAllocations -----

  type Groups = map<Address, set<string>>

  ghost predicate Grouped(g: Groups, e: Endpoint) {
    e.at in g && e.proto in g[e.at]
  }

  method GroupBindings(g: Groups, key: string, bindings: seq<PortBinding>) returns (g': Groups)
    requires forall at | at in g :: g[at] != {}
    ensures forall at | at in g' :: g'[at] != {}
    ensures forall e :: Grouped(g', e) <==> Grouped(g, e) || exists b :: b in bindings && Reads(key, b, e)
  {
    g' := g;
    var port := ParseInt(KeyPort(key));
    if port.None? {
      return;
    }
    for i := 0 to |bindings|
      invariant forall at | at in g' :: g'[at] != {}
      invariant forall e :: Grouped(g', e) <==> Grouped(g, e) || exists k :: 0 <= k < i && Reads(key, bindings[k], e)
    {
      var b := bindings[i];
      if ParseInt(b.hostPort) == port {
        var at := Address(b.hostIP, port.value);
        ghost var before := g';
        g' := g'[at := (if at in g' then g'[at] else {}) + {KeyProto(key)}];
        assert forall e :: Grouped(g', e) <==> Grouped(before, e) || e == Endpoint(at, KeyProto(key));
      }
    }
  }

  method GroupPorts(ports: PortMap) returns (g: Groups)
    ensures forall at | at in g :: g[at] != {}
    ensures forall e :: Grouped(g, e) <==> IsPublished(ports, ports.Keys, e)
  {
    g := map[];
    var todo := ports.Keys;
    while todo != {}
      invariant todo <= ports.Keys
      invariant forall at | at in g :: g[at] != {}
      invariant forall e :: Grouped(g, e) <==> IsPublished(ports, ports.Keys - todo, e)
      decreases |todo|
    {
      var key :| key in todo;
      ghost var done := ports.Keys - todo;
      todo := todo - {key};
      assert ports.Keys - todo == done + {key};
      forall e
        ensures IsPublished(ports, done + {key}, e) <==>
                IsPublished(ports, done, e) || exists b :: b in ports[key] && Reads(key, b, e)
      {
      }
      g := GroupBindings(g, key, ports[key]);
    }
    assert ports.Keys - todo == ports.Keys;
  }

  /** The allocations of the sorted addresses, each with its sorted protocols. */
  ghost predicate Tabulates(g: Groups, keys: seq<Address>, allocs: seq<Allocation>) {
    && |allocs| <= |keys|
    && forall k :: 0 <= k < |allocs| ==>
         && allocs[k] == Allocation(keys[k].ip, keys[k].port, k == 0, allocs[k].protocols)
         && Sorted(StringLess, allocs[k].protocols)
         && keys[k] in g && forall p :: p in allocs[k].protocols <==> p in g[keys[k]]
  }

  method ListGroups(g: Groups, keys: seq<Address>) returns (allocs: seq<Allocation>)
    requires forall k :: 0 <= k < |keys| ==> keys[k] in g
    ensures |allocs| == |keys| && Tabulates(g, keys, allocs)
  {
    StringOrder();
    allocs := [];
    for i := 0 to |keys|
      invariant |allocs| == i && Tabulates(g, keys, allocs)
    {
      var protos := SortedElements(StringLess, g[keys[i]]);
      allocs := allocs + [Allocation(keys[i].ip, keys[i].port, i == 0, protos)];
    }
  }

  /** recoveredAllocations: group by address, sort addresses and protocols, mark the first primary. */
  method RecoveredAllocations(ports: PortMap) returns (allocs: seq<Allocation>)
    ensures IsRecovery(ports, allocs)
  {
    var g := GroupPorts(ports);
    AddressOrder();
    var keys := SortedElements(AddressLess, g.Keys);
    assert forall k :: 0 <= k < |keys| ==> keys[k] in keys;
    allocs := ListGroups(g, keys);
    RecoveredFromGroups(ports, g, keys, allocs);
  }

  lemma {:induction false} RecoveredFromGroups(ports: PortMap, g: Groups, keys: seq<Address>, allocs: seq<Allocation>)
    requires forall at | at in g :: g[at] != {}
    requires forall e :: Grouped(g, e) <==> IsPublished(ports, ports.Keys, e)
    requires Sorted(AddressLess, keys) && forall at :: at in keys <==> at in g
    requires |allocs| == |keys| && Tabulates(g, keys, allocs)
    ensures IsRecovery(ports, allocs)
  {
    assert Addresses(allocs) == keys;
    forall e ensures Allocated(allocs, e) <==> Grouped(g, e) {
      if Grouped(g, e) {
        assert e.at in keys;
        var i :| 0 <= i < |keys| && keys[i] == e.at;
        assert e.proto in allocs[i].protocols;
      }
    }
    forall i | 0 <= i < |allocs| ensures allocs[i].protocols != [] {
      var p :| p in g[keys[i]];
      assert p in allocs[i].protocols;
    }
  }

  // ----- building the recovered allocations again -----

  predicate IsPlain(proto: string) {
    proto != "" && '/' !in proto
  }

  /** Every protocol is a bare name, so that a port key can be split back. */
  predicate PlainProtocols(allocs: seq<Allocation>) {
    forall i, j :: 0 <= i < |allocs| && 0 <= j < |Protocols(allocs[i])| ==> IsPlain(Protocols(allocs[i])[j])
  }

  /** The protocol a key written with `proto` is read back as. */
  function ReadProto(proto: string): (r: string)
    ensures IsPlain(r)
    ensures IsPlain(proto) ==> r == proto
  {
    SplitPlain(proto);
    if Split(proto, '/')[0] == "" then "tcp" else Split(proto, '/')[0]
  }

  lemma {:induction false} SplitPlain(proto: string)
    ensures IsPlain(proto) ==> Split(proto, '/') == [proto]
  {
    if IsPlain(proto) {
      SplitNone(proto, '/');
    }
  }

  lemma {:induction false} KeyReads(port: int64, proto: string)
    requires port >= 0
    ensures KeyPort(PortKey(port, proto)) == FormatInt(port)
    ensures KeyProto(PortKey(port, proto)) == ReadProto(proto)
    ensures ParseInt(FormatInt(port)) == Some(port)
  {
    var d := FormatInt(port);
    assert forall i :: 0 <= i < |d| ==> IsDigit(d[i]);
    SplitHead(d, proto, '/');
    ParseOfFormat(port);
  }

  lemma {:induction false} KeyInjective(port: int64, proto: string, port': int64, proto': string)
    requires port >= 0 && port' >= 0 && PortKey(port, proto) == PortKey(port', proto')
    ensures proto == proto'
  {
    KeyReads(port, proto);
    KeyReads(port', proto');
    var d := FormatInt(port) + "/";
    assert proto == (d + proto)[|d|..] && proto' == (d + proto')[|d|..];
  }

  function EndpointOf(a: Allocation, proto: string): Endpoint {
    Endpoint(Address(a.ip, a.port), proto)
  }

  function PublishEndpoint(e: Endpoint): Published {
    Published(PortKey(e.at.port, e.proto), PortBinding(e.at.ip, FormatInt(e.at.port)))
  }

  /** What recovery reads from the bindings of these allocations. */
  lemma {:induction false} PublishedEndpoints(allocs: seq<Allocation>, e: Endpoint)
    requires forall i :: 0 <= i < |allocs| ==> AllocationOk(allocs[i])
    ensures var ports := PortBindings(allocs);
      IsPublished(ports, ports.Keys, e) <==>
      exists i, j :: 0 <= i < |allocs| && 0 <= j < |Protocols(allocs[i])|
                     && e == EndpointOf(allocs[i], ReadProto(Protocols(allocs[i])[j]))
  {
    var ports := PortBindings(allocs);
    if IsPublished(ports, ports.Keys, e) {
      var key, b :| key in ports && b in ports[key] && Reads(key, b, e);
      PortBindingsBind(allocs, Published(key, b));
      assert Binds(ports, Published(key, b));
      var i, j :| 0 <= i < |allocs| && 0 <= j < |Protocols(allocs[i])| && Published(key, b) == Publish(allocs[i], Protocols(allocs[i])[j]);
      KeyReads(allocs[i].port, Protocols(allocs[i])[j]);
      assert e == EndpointOf(allocs[i], ReadProto(Protocols(allocs[i])[j]));
    }
    if i, j :| 0 <= i < |allocs| && 0 <= j < |Protocols(allocs[i])|
               && e == EndpointOf(allocs[i], ReadProto(Protocols(allocs[i])[j])) {
      var p := Publish(allocs[i], Protocols(allocs[i])[j]);
      KeyReads(allocs[i].port, Protocols(allocs[i])[j]);
      PortBindingsBind(allocs, p);
      assert Binds(ports, p) && Reads(p.key, p.binding, e);
    }
  }

  /** The bindings of recovered allocations are their endpoints. */
  lemma {:induction false} CanonicalBindings(allocs: seq<Allocation>, p: Published)
    requires Canonical(allocs)
    ensures Binds(PortBindings(allocs), p) <==> exists e :: Allocated(allocs, e) && p == PublishEndpoint(e)
  {
    PortBindingsBind(allocs, p);
    if i, j :| 0 <= i < |allocs| && 0 <= j < |Protocols(allocs[i])| && p == Publish(allocs[i], Protocols(allocs[i])[j]) {
      var e := EndpointOf(allocs[i], Protocols(allocs[i])[j]);
      assert Allocated(allocs, e) && p == PublishEndpoint(e);
    }
    if e :| Allocated(allocs, e) && p == PublishEndpoint(e) {
      var i :| 0 <= i < |allocs| && Address(allocs[i].ip, allocs[i].port) == e.at && e.proto in allocs[i].protocols;
      var j :| 0 <= j < |allocs[i].protocols| && allocs[i].protocols[j] == e.proto;
      assert p == Publish(allocs[i], Protocols(allocs[i])[j]);
    }
  }

  ghost predicate SamePorts(m: PortMap, m': PortMap) {
    forall p :: Binds(m, p) <==> Binds(m', p)
  }

  lemma {:induction false} RecoveredAreValid(allocs: seq<Allocation>, r: seq<Allocation>)
    requires forall i :: 0 <= i < |allocs| ==> AllocationOk(allocs[i])
    requires IsRecovery(PortBindings(allocs), r)
    ensures forall i :: 0 <= i < |r| ==> AllocationOk(r[i])
  {
    forall i | 0 <= i < |r| ensures AllocationOk(r[i]) {
      var e := EndpointOf(r[i], r[i].protocols[0]);
      assert Allocated(r, e);
      PublishedEndpoints(allocs, e);
    }
  }

  lemma {:induction false} PlainPortsComeBack(allocs: seq<Allocation>, r: seq<Allocation>, p: Published)
    requires forall i :: 0 <= i < |allocs| ==> AllocationOk(allocs[i])
    requires PlainProtocols(allocs) && IsRecovery(PortBindings(allocs), r)
    ensures Binds(PortBindings(r), p) <==> Binds(PortBindings(allocs), p)
  {
    CanonicalBindings(r, p);
    PortBindingsBind(allocs, p);
    if e :| Allocated(r, e) && p == PublishEndpoint(e) {
      PublishedEndpoints(allocs, e);
      var i, j :| 0 <= i < |allocs| && 0 <= j < |Protocols(allocs[i])|
                  && e == EndpointOf(allocs[i], ReadProto(Protocols(allocs[i])[j]));
      assert IsPlain(Protocols(allocs[i])[j]);
      assert p == Publish(allocs[i], Protocols(allocs[i])[j]);
    }
    if i, j :| 0 <= i < |allocs| && 0 <= j < |Protocols(allocs[i])| && p == Publish(allocs[i], Protocols(allocs[i])[j]) {
      var e := EndpointOf(allocs[i], Protocols(allocs[i])[j]);
      assert IsPlain(Protocols(allocs[i])[j]);
      assert e == EndpointOf(allocs[i], ReadProto(Protocols(allocs[i])[j]));
      PublishedEndpoints(allocs, e);
      assert Allocated(r, e) && p == PublishEndpoint(e);
    }
  }

  /** Building recovered allocations publishes the same endpoints exactly when every protocol is a bare name. */
  lemma {:induction false} PortsFixpoint(allocs: seq<Allocation>, r: seq<Allocation>)
    requires forall i :: 0 <= i < |allocs| ==> AllocationOk(allocs[i])
    requires IsRecovery(PortBindings(allocs), r)
    ensures SamePorts(PortBindings(r), PortBindings(allocs)) <==> PlainProtocols(allocs)
  {
    if PlainProtocols(allocs) {
      forall p ensures Binds(PortBindings(r), p) <==> Binds(PortBindings(allocs), p) {
        PlainPortsComeBack(allocs, r, p);
      }
    } else {
      var i, j :| 0 <= i < |allocs| && 0 <= j < |Protocols(allocs[i])| && !IsPlain(Protocols(allocs[i])[j]);
      var p := Publish(allocs[i], Protocols(allocs[i])[j]);
      PortBindingsBind(allocs, p);
      CanonicalBindings(r, p);
      RecoveredAreValid(allocs, r);
      forall e | Allocated(r, e) ensures p != PublishEndpoint(e) {
        PublishedEndpoints(allocs, e);
        if p == PublishEndpoint(e) {
          KeyInjective(allocs[i].port, Protocols(allocs[i])[j], e.at.port, e.proto);
        }
      }
    }
  }
}
