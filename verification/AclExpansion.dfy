/**
 Turning ASA access-list entries into rules (apps/api/app/firewall/asa.py).

 An entry is given with its tokens already recognised: which parts are literal and
 which refer to object-groups or named objects.  Resolving the references, choosing
 the ports and laying out the cross product are modelled as the source does them.
 */
module AclExpansion {
  import opened Wrappers
  import opened Text
  import opened Sequences
  import opened AclPolicy
  import opened ObjectGroup

  const MAX_PORT_RANGE := 64
  const MAX_EXPANSION := 2048

  datatype ProtocolPart = Unstated | Named(proto: string) | ProtocolGroup(name: string) | ProtocolObject(name: string)

  datatype EndpointPart = Literal(spec: Spec) | NetworkGroup(name: string) | NetworkObject(name: string) | Interface

  /** A port that is not a known number or alias is `None` inside `Eq` and `Range`. */
  datatype PortPart =
    | NoPorts
    | Eq(port: Option<int>)
    | Range(low: Option<int>, high: Option<int>)
    | PortGroup(name: string)
    | PortObject(name: string)

  datatype Parts = Parts(action: Action, protocol: ProtocolPart, src: EndpointPart, srcPorts: PortPart,
                         dst: EndpointPart, dstPorts: PortPart)

  /** One line of output; `parts` is absent when the tokens make no rule at all. */
  datatype EntryLine = EntryLine(acl: string, line: int, expanded: bool, parts: Option<Parts>)

  // ---------------------------------------------------------------------
  // Resolving the parts
  // ---------------------------------------------------------------------

  function GroupKindOf(g: Registries, name: string): string {
    var group := Lookup(g, KeyOf(GroupKind, name));
    var named := Lookup(g, KeyOf(ObjectKind, name));
    if group.Some? then group.value.kind else if named.Some? then named.value.kind else ""
  }

  predicate CarriesService(g: Registries, name: string) {
    GroupKindOf(g, name) == "service" || GroupKindOf(g, name) == "protocol"
  }

  function ResolveEndpoint(g: Registries, part: EndpointPart): (r: Option<seq<Spec>>)
    ensures r.Some? ==> r.value != []
  {
    match part
    case Literal(spec) => Some([spec])
    case Interface => None
    case NetworkGroup(name) =>
      var e := ExpandGroup(name, g);
      if !e.complete || e.networks == [] then None else Some(e.networks)
    case NetworkObject(name) =>
      var e := ExpandObject(name, g);
      if !e.complete || e.networks == [] then None else Some(e.networks)
  }

  function Upward(start: int, end: int): (ports: seq<int>)
    requires start <= end + 1
    ensures |ports| == end + 1 - start
    ensures forall i | 0 <= i < |ports| :: ports[i] == start + i
    ensures forall p :: p in ports <==> start <= p <= end
  {
    var ports := seq(end + 1 - start, i requires 0 <= i < end + 1 - start => start + i);
    assert forall p | start <= p <= end :: p in ports by {
      forall p | start <= p <= end ensures p in ports {
        assert ports[p - start] == p;
      }
    }
    ports
  }

  function ExpandRange(low: Option<int>, high: Option<int>): (r: Option<seq<int>>)
    ensures r.Some? <==> low.Some? && high.Some? && 0 <= high.value - low.value < MAX_PORT_RANGE
    ensures r.Some? ==> forall p :: p in r.value <==> low.value <= p <= high.value
    ensures r.Some? ==> forall i, j | 0 <= i < j < |r.value| :: r.value[i] < r.value[j]
  {
    if low.None? || high.None? || high.value < low.value then None
    else if high.value - low.value + 1 > MAX_PORT_RANGE then None
    else Some(Upward(low.value, high.value))
  }

  /** The ports a part names; the empty list is "no constraint". */
  function ResolvePorts(g: Registries, part: PortPart): Option<seq<int>> {
    match part
    case NoPorts => Some([])
    case Eq(port) => if port.None? then None else Some([port.value])
    case Range(low, high) => ExpandRange(low, high)
    case PortGroup(name) =>
      if !CarriesService(g, name) then Some([])
      else
        var e := ExpandGroup(name, g);
        if !e.complete then None else Some(e.ports)
    case PortObject(name) =>
      if !CarriesService(g, name) then Some([])
      else
        var e := ExpandObject(name, g);
        if !e.complete then None else Some(e.ports)
  }

  /** `dict.fromkeys`: first occurrences, in order. */
  function Unique<T(==,!new)>(s: seq<T>): (r: seq<T>)
    ensures forall x :: x in r <==> x in s
    ensures forall i, j | 0 <= i < j < |r| :: r[i] != r[j]
  {
    if s == [] then []
    else
      var front := Unique(s[..|s| - 1]);
      var last := s[|s| - 1];
      assert s == s[..|s| - 1] + [last];
      if last in front then front else front + [last]
  }

  /** Of two elements the earlier in the result was met before the first of the later. */
  lemma {:induction false} UniqueInOrder<T(!new)>(s: seq<T>, i: nat, j: nat)
    requires i < j < |Unique(s)|
    ensures exists p: nat :: p < |s| && s[p] == Unique(s)[i] && Unique(s)[j] !in s[..p + 1]
  {
    var n := |s| - 1;
    var front := s[..n];
    if j < |Unique(front)| {
      UniqueInOrder(front, i, j);
      var p: nat :| p < n && front[p] == Unique(front)[i] && Unique(front)[j] !in front[..p + 1];
      assert front[..p + 1] == s[..p + 1];
      assert s[p] == Unique(s)[i];
    } else {
      assert Unique(front)[i] in front;
      var p: nat :| p < n && front[p] == Unique(front)[i];
      assert forall x | x in s[..p + 1] :: x in front;
      assert s[p] == Unique(s)[i];
    }
  }

  datatype Service = Service(protocols: seq<string>, ports: seq<int>)

  function ServiceOf(g: Registries, name: string, e: Expansion): Option<Service> {
    if !CarriesService(g, name) || !e.complete || e.protocols == [] then None
    else Some(Service(Unique(e.protocols), e.ports))
  }

  function ResolveProtocol(g: Registries, part: ProtocolPart): (r: Option<Service>)
    ensures r.Some? ==> r.value.protocols != []
  {
    match part
    case Unstated => Some(Service(["ip"], []))
    case Named(proto) => Some(Service([proto], []))
    case ProtocolGroup(name) =>
      var e := ExpandGroup(name, g);
      assert e.protocols != [] ==> e.protocols[0] in Unique(e.protocols);
      ServiceOf(g, name, e)
    case ProtocolObject(name) =>
      var e := ExpandObject(name, g);
      assert e.protocols != [] ==> e.protocols[0] in Unique(e.protocols);
      ServiceOf(g, name, e)
  }

  /** Destination ports win over source ports, which win over the service group's. */
  function ChosenPorts(dst: seq<int>, src: seq<int>, group: seq<int>): (r: seq<Option<int>>)
    ensures r != []
  {
    var ports := if dst != [] then dst else if src != [] then src else group;
    if ports == [] then [None] else seq(|ports|, i requires 0 <= i < |ports| => Some(ports[i]))
  }

  /** An entry's members, every reference resolved. */
  datatype Resolved = Resolved(action: Action, protocols: seq<string>, sources: seq<Spec>, destinations: seq<Spec>,
                               ports: seq<Option<int>>)

  function Resolve(g: Registries, parts: Parts): (r: Option<Resolved>)
    ensures r.Some? ==> r.value.protocols != [] && r.value.sources != []
    ensures r.Some? ==> r.value.destinations != [] && r.value.ports != []
    ensures r.Some? ==> r.value.action == parts.action
  {
    var service := ResolveProtocol(g, parts.protocol);
    var src, srcPorts := ResolveEndpoint(g, parts.src), ResolvePorts(g, parts.srcPorts);
    var dst, dstPorts := ResolveEndpoint(g, parts.dst), ResolvePorts(g, parts.dstPorts);
    if service.None? || src.None? || srcPorts.None? || dst.None? || dstPorts.None? then None
    else
      var ports := ChosenPorts(dstPorts.value, srcPorts.value, service.value.ports);
      if |service.value.protocols| * |src.value| * |dst.value| * |ports| > MAX_EXPANSION then None
      else Some(Resolved(parts.action, service.value.protocols, src.value, dst.value, ports))
  }

  // ---------------------------------------------------------------------
  // The cross product
  // ---------------------------------------------------------------------

  function PortRules(e: EntryLine, r: Resolved, proto: string, src: Spec, dst: Spec): seq<AclRule> {
    seq(|r.ports|, i requires 0 <= i < |r.ports| => AclRule(e.line, Body(r.action, proto, src, dst, r.ports[i]), e.acl))
  }

  function DestinationRules(e: EntryLine, r: Resolved, proto: string, src: Spec): seq<AclRule> {
    Flatten(seq(|r.destinations|,
                i requires 0 <= i < |r.destinations| => PortRules(e, r, proto, src, r.destinations[i])))
  }

  function SourceRules(e: EntryLine, r: Resolved, proto: string): seq<AclRule> {
    Flatten(seq(|r.sources|, i requires 0 <= i < |r.sources| => DestinationRules(e, r, proto, r.sources[i])))
  }

  function CrossProduct(e: EntryLine, r: Resolved): seq<AclRule> {
    Flatten(seq(|r.protocols|, i requires 0 <= i < |r.protocols| => SourceRules(e, r, r.protocols[i])))
  }

  const UNPARSED := Body(Unparsed, "ip", AnyHost, AnyHost, None)

  /** The rules of one entry; what cannot be resolved is kept as one unparsed rule. */
  function RulesOf(g: Registries, e: EntryLine): seq<AclRule> {
    var r := if e.parts.Some? then Resolve(g, e.parts.value) else None;
    if r.Some? then CrossProduct(e, r.value) else [AclRule(e.line, UNPARSED, e.acl)]
  }

  lemma InFlattened<T>(parts: seq<seq<T>>, x: T)
    ensures x in Flatten(parts) <==> exists i :: 0 <= i < |parts| && x in parts[i]
  {
    if x in Flatten(parts) {
      var n :| 0 <= n < |Flatten(parts)| && Flatten(parts)[n] == x;
      var i, k := FlattenOwner(parts, n);
      FlattenAt(parts, i, k);
      assert x in parts[i];
    }
    if i :| 0 <= i < |parts| && x in parts[i] {
      var k :| 0 <= k < |parts[i]| && parts[i][k] == x;
      FlattenAt(parts, i, k);
    }
  }

  /** The cross product holds one rule for every choice of members, and nothing else. */
  lemma CrossProductIsEveryChoice(e: EntryLine, r: Resolved, rule: AclRule)
    ensures rule in CrossProduct(e, r) <==>
              && rule.line == e.line && rule.acl == e.acl && rule.body.action == r.action
              && rule.body.proto in r.protocols && rule.body.src in r.sources
              && rule.body.dst in r.destinations && rule.body.port in r.ports
  {
    hide Flatten;
    var bySource := seq(|r.protocols|, i requires 0 <= i < |r.protocols| => SourceRules(e, r, r.protocols[i]));
    InFlattened(bySource, rule);
    forall i | 0 <= i < |r.protocols|
      ensures rule in bySource[i] <==> InSourceRules(e, r, r.protocols[i], rule)
    {
      SourceRulesAre(e, r, r.protocols[i], rule);
    }
  }

  ghost predicate InSourceRules(e: EntryLine, r: Resolved, proto: string, rule: AclRule) {
    && rule.body.proto == proto && rule.line == e.line && rule.acl == e.acl && rule.body.action == r.action
    && rule.body.src in r.sources && rule.body.dst in r.destinations && rule.body.port in r.ports
  }

  lemma SourceRulesAre(e: EntryLine, r: Resolved, proto: string, rule: AclRule)
    ensures rule in SourceRules(e, r, proto) <==> InSourceRules(e, r, proto, rule)
  {
    hide Flatten;
    var byDestination := seq(|r.sources|,
                             i requires 0 <= i < |r.sources| => DestinationRules(e, r, proto, r.sources[i]));
    InFlattened(byDestination, rule);
    forall i | 0 <= i < |r.sources|
      ensures rule in byDestination[i] <==> InDestinationRules(e, r, proto, r.sources[i], rule)
    {
      DestinationRulesAre(e, r, proto, r.sources[i], rule);
    }
  }

  ghost predicate InDestinationRules(e: EntryLine, r: Resolved, proto: string, src: Spec, rule: AclRule) {
    && rule.body.proto == proto && rule.body.src == src && rule.line == e.line && rule.acl == e.acl
    && rule.body.action == r.action && rule.body.dst in r.destinations && rule.body.port in r.ports
  }

  lemma DestinationRulesAre(e: EntryLine, r: Resolved, proto: string, src: Spec, rule: AclRule)
    ensures rule in DestinationRules(e, r, proto, src) <==> InDestinationRules(e, r, proto, src, rule)
  {
    hide Flatten;
    var byPort := seq(|r.destinations|,
                      i requires 0 <= i < |r.destinations| => PortRules(e, r, proto, src, r.destinations[i]));
    InFlattened(byPort, rule);
    forall i | 0 <= i < |r.destinations|
      ensures rule in byPort[i] <==>
                && rule.body.dst == r.destinations[i] && rule.body.proto == proto && rule.body.src == src
                && rule.line == e.line && rule.acl == e.acl && rule.body.action == r.action && rule.body.port in r.ports
    {
      PortRulesAre(e, r, proto, src, r.destinations[i], rule);
    }
  }

  lemma PortRulesAre(e: EntryLine, r: Resolved, proto: string, src: Spec, dst: Spec, rule: AclRule)
    ensures rule in PortRules(e, r, proto, src, dst) <==>
              && rule.body.dst == dst && rule.body.proto == proto && rule.body.src == src
              && rule.line == e.line && rule.acl == e.acl && rule.body.action == r.action && rule.body.port in r.ports
  {
    var rules := PortRules(e, r, proto, src, dst);
    if rule.body.dst == dst && rule.body.proto == proto && rule.body.src == src && rule.line == e.line
       && rule.acl == e.acl && rule.body.action == r.action && rule.body.port in r.ports {
      var i :| 0 <= i < |r.ports| && r.ports[i] == rule.body.port;
      assert rules[i] == rule;
    }
  }

  // ---------------------------------------------------------------------
  // What an entry means
  // ---------------------------------------------------------------------

  /** The name is one of a service or protocol group, or of such an object when no group has it. */
  ghost predicate ServiceNamed(g: Registries, name: string) {
    var group, named := Key(GroupKind, Lower(name)), Key(ObjectKind, Lower(name));
    || (exists e :: IsEntry(g, group, e) && OfService(e))
    || ((forall e :: !IsEntry(g, group, e)) && exists e :: IsEntry(g, named, e) && OfService(e))
  }

  ghost predicate OfService(e: Entry) {
    e.kind == "service" || e.kind == "protocol"
  }

  /** Objects are looked up without the groups. */
  ghost function ObjectsOnly(g: Registries): Registries {
    Registries(map[], g.objects)
  }

  ghost function GroupRoot(name: string): Key {
    Key(GroupKind, Lower(name))
  }

  ghost function ObjectRoot(name: string): Key {
    Key(ObjectKind, Lower(name))
  }

  // Ports.

  ghost predicate PortsUnderstood(g: Registries, part: PortPart) {
    match part
    case NoPorts => true
    case Eq(port) => port.Some?
    case Range(low, high) => low.Some? && high.Some? && 0 <= high.value - low.value < 64
    case PortGroup(name) => ServiceNamed(g, name) ==> Understood(g, GroupRoot(name))
    case PortObject(name) => ServiceNamed(g, name) ==> Understood(ObjectsOnly(g), ObjectRoot(name))
  }

  /** The part names this port. */
  ghost predicate NamesPort(g: Registries, part: PortPart, port: int)
    requires PortsUnderstood(g, part)
  {
    match part
    case NoPorts => false
    case Eq(only) => port == only.value
    case Range(low, high) => low.value <= port <= high.value
    case PortGroup(name) => ServiceNamed(g, name) && port in ObjectGroup.PortsOf(g, GroupRoot(name))
    case PortObject(name) => ServiceNamed(g, name) && port in ObjectGroup.PortsOf(ObjectsOnly(g), ObjectRoot(name))
  }

  ghost predicate NamesSomePort(g: Registries, part: PortPart)
    requires PortsUnderstood(g, part)
  {
    exists port :: NamesPort(g, part, port)
  }

  ghost function PortCount(g: Registries, part: PortPart): nat
    requires PortsUnderstood(g, part)
  {
    match part
    case NoPorts => 0
    case Eq(_) => 1
    case Range(low, high) => high.value - low.value + 1
    case PortGroup(name) => if ServiceNamed(g, name) then |ObjectGroup.PortsOf(g, GroupRoot(name))| else 0
    case PortObject(name) => if ServiceNamed(g, name) then |ObjectGroup.PortsOf(ObjectsOnly(g), ObjectRoot(name))|
        else 0
  }

  /** Resolving a port part yields the ports it names, and fails exactly when it is not understood. */
  lemma PortsAreNamed(g: Registries, part: PortPart)
    ensures ResolvePorts(g, part).Some? <==> PortsUnderstood(g, part)
    ensures PortsUnderstood(g, part) ==>
              && |ResolvePorts(g, part).value| == PortCount(g, part)
              && forall p :: p in ResolvePorts(g, part).value <==> NamesPort(g, part, p)
  {
    match part
    case PortGroup(name) =>
      ServiceIsNamed(g, name);
      ExpansionIsUnderstanding(g, GroupRoot(name));
    case PortObject(name) =>
      ServiceIsNamed(g, name);
      ExpansionIsUnderstanding(ObjectsOnly(g), ObjectRoot(name));
    case _ =>
  }

  lemma ServiceIsNamed(g: Registries, name: string)
    ensures CarriesService(g, name) <==> ServiceNamed(g, name)
  {
    var group, named := GroupRoot(name), ObjectRoot(name);
    forall e ensures Lookup(g, group) == Some(e) <==> IsEntry(g, group, e) {
      LookupFinds(g, group, e);
    }
    forall e ensures Lookup(g, named) == Some(e) <==> IsEntry(g, named, e) {
      LookupFinds(g, named, e);
    }
    hide Lookup, IsEntry;
  }

  // Endpoints.

  ghost predicate EndpointUnderstood(g: Registries, part: EndpointPart) {
    match part
    case Literal(_) => true
    case Interface => false
    case NetworkGroup(name) => Understood(g, GroupRoot(name)) && NetworksOf(g, GroupRoot(name)) != []
    case NetworkObject(name) =>
      Understood(ObjectsOnly(g), ObjectRoot(name)) && NetworksOf(ObjectsOnly(g), ObjectRoot(name)) != []
  }

  ghost function NetworksNamed(g: Registries, part: EndpointPart): seq<Spec>
    requires EndpointUnderstood(g, part)
  {
    match part
    case Literal(spec) => [spec]
    case NetworkGroup(name) => NetworksOf(g, GroupRoot(name))
    case NetworkObject(name) => NetworksOf(ObjectsOnly(g), ObjectRoot(name))
  }

  lemma EndpointsAreNamed(g: Registries, part: EndpointPart)
    ensures ResolveEndpoint(g, part).Some? <==> EndpointUnderstood(g, part)
    ensures EndpointUnderstood(g, part) ==> ResolveEndpoint(g, part).value == NetworksNamed(g, part)
  {
    match part
    case NetworkGroup(name) => ExpansionIsUnderstanding(g, GroupRoot(name));
    case NetworkObject(name) => ExpansionIsUnderstanding(ObjectsOnly(g), ObjectRoot(name));
    case _ =>
  }

  // Protocols.

  ghost predicate ProtocolUnderstood(g: Registries, part: ProtocolPart) {
    match part
    case Unstated => true
    case Named(_) => true
    case ProtocolGroup(name) =>
      ServiceNamed(g, name) && Understood(g, GroupRoot(name)) && ProtocolsOf(g, GroupRoot(name)) != []
    case ProtocolObject(name) =>
      && ServiceNamed(g, name) && Understood(ObjectsOnly(g), ObjectRoot(name))
      && ProtocolsOf(ObjectsOnly(g), ObjectRoot(name)) != []
  }

  ghost function ProtocolsNamed(g: Registries, part: ProtocolPart): seq<string>
    requires ProtocolUnderstood(g, part)
  {
    match part
    case Unstated => ["ip"]
    case Named(proto) => [proto]
    case ProtocolGroup(name) => ProtocolsOf(g, GroupRoot(name))
    case ProtocolObject(name) => ProtocolsOf(ObjectsOnly(g), ObjectRoot(name))
  }

  /** The ports that come with a service group named as the protocol. */
  ghost function ServicePorts(g: Registries, part: ProtocolPart): seq<int>
    requires ProtocolUnderstood(g, part)
  {
    match part
    case Unstated => []
    case Named(_) => []
    case ProtocolGroup(name) => ObjectGroup.PortsOf(g, GroupRoot(name))
    case ProtocolObject(name) => ObjectGroup.PortsOf(ObjectsOnly(g), ObjectRoot(name))
  }

  lemma ProtocolsAreNamed(g: Registries, part: ProtocolPart)
    ensures ResolveProtocol(g, part).Some? <==> ProtocolUnderstood(g, part)
    ensures ProtocolUnderstood(g, part) ==>
              var service, named := ResolveProtocol(g, part).value, ProtocolsNamed(g, part);
              && (forall p :: p in service.protocols <==> p in named)
              && |service.protocols| == |set p | p in named|
              && service.ports == ServicePorts(g, part)
  {
    match part
    case ProtocolGroup(name) =>
      ServiceIsNamed(g, name);
      ExpansionIsUnderstanding(g, GroupRoot(name));
      UniqueCounts(ExpandGroup(name, g).protocols);
    case ProtocolObject(name) =>
      ServiceIsNamed(g, name);
      ExpansionIsUnderstanding(ObjectsOnly(g), ObjectRoot(name));
      UniqueCounts(ExpandObject(name, g).protocols);
    case Unstated => assert (set p | p in ["ip"]) == {"ip"};
    case Named(proto) => assert (set p | p in [proto]) == {proto};
  }

  lemma {:induction false} UniqueCounts<T(!new)>(s: seq<T>)
    ensures |Unique(s)| == |set x | x in s|
  {
    if s == [] {
      assert (set x | x in s) == {};
    } else {
      var front, last := s[..|s| - 1], s[|s| - 1];
      assert s == front + [last];
      UniqueCounts(front);
      assert (set x | x in s) == (set x | x in front) + {last};
      if last in front {
        assert (set x | x in s) == (set x | x in front);
      }
    }
  }

  // Entries.

  /** The entry is laid out: its parts are understood and it makes no more than 2048 rules. */
  ghost predicate Modelled(g: Registries, e: EntryLine) {
    e.parts.Some? && e.parts.value.action != Unparsed && AllUnderstood(g, e.parts.value)
      && RuleCount(g, e.parts.value) <= 2048
  }

  ghost predicate AllUnderstood(g: Registries, parts: Parts) {
    && ProtocolUnderstood(g, parts.protocol)
    && EndpointUnderstood(g, parts.src) && PortsUnderstood(g, parts.srcPorts)
    && EndpointUnderstood(g, parts.dst) && PortsUnderstood(g, parts.dstPorts)
  }

  /** How many ports a rule can have: the destination's, else the source's, else the service's, else one. */
  ghost function PortChoices(g: Registries, parts: Parts): nat
    requires AllUnderstood(g, parts)
  {
    var dst, src, service := PortCount(g, parts.dstPorts), PortCount(g, parts.srcPorts),
        |ServicePorts(g, parts.protocol)|;
    if dst > 0 then dst else if src > 0 then src else if service > 0 then service else 1
  }

  ghost function RuleCount(g: Registries, parts: Parts): int
    requires AllUnderstood(g, parts)
  {
    |set p | p in ProtocolsNamed(g, parts.protocol)| * |NetworksNamed(g, parts.src)| * |NetworksNamed(g, parts.dst)| *
    PortChoices(g, parts)
  }

  /** Some protocol, some source and some destination the entry names fit the flow. */
  ghost predicate EndsFit(g: Registries, e: EntryLine, flow: Flow)
    requires Modelled(g, e)
  {
    var parts := e.parts.value;
    && (exists p :: p in ProtocolsNamed(g, parts.protocol) && (p == "ip" || p == "any" || p == flow.proto))
    && (exists s :: s in NetworksNamed(g, parts.src) && Contains(s, flow.src))
    && (exists d :: d in NetworksNamed(g, parts.dst) && Contains(d, flow.dst))
  }

  /** The entry's destination ports, else the ports of its service group, admit this port. */
  ghost predicate AdmitsTo(g: Registries, e: EntryLine, port: int)
    requires Modelled(g, e)
  {
    var parts := e.parts.value;
    if NamesSomePort(g, parts.dstPorts) then NamesPort(g, parts.dstPorts, port)
    else ServicePorts(g, parts.protocol) == [] || port in ServicePorts(g, parts.protocol)
  }

  ghost predicate AdmitsFrom(g: Registries, e: EntryLine, port: int)
    requires Modelled(g, e)
  {
    NamesSomePort(g, e.parts.value.srcPorts) ==> NamesPort(g, e.parts.value.srcPorts, port)
  }

  /** What the entry says about a flow that comes from source port `from`. */
  ghost predicate EntryMatches(g: Registries, e: EntryLine, flow: Flow, from: int) {
    Modelled(g, e) && EndsFit(g, e, flow) && AdmitsTo(g, e, flow.port) && AdmitsFrom(g, e, from)
  }

  /** A flow does not say where it comes from: the entry applies to it from some source port. */
  ghost predicate EntryApplies(g: Registries, e: EntryLine, flow: Flow) {
    exists from :: EntryMatches(g, e, flow, from)
  }

  ghost predicate RulesMatch(g: Registries, e: EntryLine, flow: Flow) {
    exists rule | rule in RulesOf(g, e) :: Matches(rule.body, flow)
  }

  /** Some source and some destination of the entry are addresses at all, so some flow fits. */
  ghost predicate CanFit(g: Registries, e: EntryLine)
    requires Modelled(g, e)
  {
    && (exists s :: s in NetworksNamed(g, e.parts.value.src) && !s.Malformed?)
    && (exists d :: d in NetworksNamed(g, e.parts.value.dst) && !d.Malformed?)
  }

  /**
   The ports laid out are those the entry means: it names ports for the destination, or
   none for the source, or for the source just those of its service group.
   */
  ghost predicate PortsReadRight(g: Registries, e: EntryLine) {
    Modelled(g, e) && CanFit(g, e) ==>
      var parts := e.parts.value;
      || NamesSomePort(g, parts.dstPorts)
      || !NamesSomePort(g, parts.srcPorts)
      || (ServicePorts(g, parts.protocol) != [] &&
          forall p :: NamesPort(g, parts.srcPorts, p) <==> p in ServicePorts(g, parts.protocol))
  }

  ghost predicate NoSourcePorts(g: Registries, e: EntryLine) {
    Modelled(g, e) && CanFit(g, e) ==> !NamesSomePort(g, e.parts.value.srcPorts)
  }

  /** An empty list of ports is no constraint. */
  predicate Admits(ports: seq<int>, port: int) {
    ports == [] || port in ports
  }

  /** Resolution succeeds for just the modelled entries, and finds their members. */
  lemma ModelledIsResolved(g: Registries, e: EntryLine)
    ensures Modelled(g, e) <==> e.parts.Some? && e.parts.value.action != Unparsed && Resolve(g, e.parts.value).Some?
    ensures Modelled(g, e) ==>
              var parts, r := e.parts.value, Resolve(g, e.parts.value).value;
              && (forall p :: p in r.protocols <==> p in ProtocolsNamed(g, parts.protocol))
              && r.sources == NetworksNamed(g, parts.src) && r.destinations == NetworksNamed(g, parts.dst)
              && r.ports == ChosenPorts(ResolvePorts(g, parts.dstPorts).value, ResolvePorts(g, parts.srcPorts).value,
                                        ServicePorts(g, parts.protocol))
  {
    if e.parts.Some? {
      var parts := e.parts.value;
      ProtocolsAreNamed(g, parts.protocol);
      EndpointsAreNamed(g, parts.src);
      EndpointsAreNamed(g, parts.dst);
      PortsAreNamed(g, parts.srcPorts);
      PortsAreNamed(g, parts.dstPorts);
      hide ResolveProtocol, ResolveEndpoint, ResolvePorts, ProtocolUnderstood, EndpointUnderstood, PortsUnderstood,
           ProtocolsNamed, NetworksNamed, ServicePorts, PortCount, NamesPort;
      if AllUnderstood(g, parts) {
        ChosenPortsCount(ResolvePorts(g, parts.dstPorts).value, ResolvePorts(g, parts.srcPorts).value,
                         ServicePorts(g, parts.protocol));
      }
    }
  }

  lemma ChosenPortsCount(dst: seq<int>, src: seq<int>, group: seq<int>)
    ensures |ChosenPorts(dst, src, group)| ==
              if |dst| > 0 then |dst| else if |src| > 0 then |src| else if |group| > 0 then |group| else 1
  {
  }

  lemma ChosenPortsFit(dst: seq<int>, src: seq<int>, group: seq<int>, port: int)
    ensures (exists q | q in ChosenPorts(dst, src, group) :: q.Some? ==> q.value == port) <==>
              Admits(if dst != [] then dst else if src != [] then src else group, port)
  {
    var ports := if dst != [] then dst else if src != [] then src else group;
    var chosen := ChosenPorts(dst, src, group);
    if ports == [] {
      assert chosen[0] == None && chosen[0] in chosen;
    } else {
      assert forall i | 0 <= i < |ports| :: chosen[i] == Some(ports[i]);
      if port in ports {
        var i :| 0 <= i < |ports| && ports[i] == port;
        assert chosen[i] in chosen;
      }
    }
  }

  /** The ports laid out: the destination's, else the source's, else the service group's, else all. */
  ghost predicate LaidOut(g: Registries, e: EntryLine, port: int)
    requires Modelled(g, e)
  {
    var parts := e.parts.value;
    if NamesSomePort(g, parts.dstPorts) then NamesPort(g, parts.dstPorts, port)
    else if NamesSomePort(g, parts.srcPorts) then NamesPort(g, parts.srcPorts, port)
    else ServicePorts(g, parts.protocol) == [] || port in ServicePorts(g, parts.protocol)
  }

  lemma NamesSomeIsNotEmpty(g: Registries, part: PortPart)
    requires PortsUnderstood(g, part)
    ensures ResolvePorts(g, part).Some?
    ensures NamesSomePort(g, part) <==> ResolvePorts(g, part).value != []
  {
    PortsAreNamed(g, part);
    hide ResolvePorts, NamesPort, PortsUnderstood;
    var ports := ResolvePorts(g, part).value;
    if ports != [] {
      assert ports[0] in ports;
      assert NamesPort(g, part, ports[0]);
    }
  }

  /** What the rules match: the ends fit, and the ports laid out hold the flow's. */
  lemma RulesMatchLaidOut(g: Registries, e: EntryLine, flow: Flow)
    ensures RulesMatch(g, e, flow) <==> Modelled(g, e) && EndsFit(g, e, flow) && LaidOut(g, e, flow.port)
  {
    ModelledIsResolved(g, e);
    if e.parts.Some? && Resolve(g, e.parts.value).Some? {
      CrossProductMatchesFitting(e, Resolve(g, e.parts.value).value, flow);
      if Modelled(g, e) {
        FittingIsLaidOut(g, e, flow);
      }
      assert RulesOf(g, e) == CrossProduct(e, Resolve(g, e.parts.value).value);
    }
    hide Resolve, CrossProduct, EndsFit, LaidOut, Fits, Modelled;
  }

  lemma FittingIsLaidOut(g: Registries, e: EntryLine, flow: Flow)
    requires Modelled(g, e) && Resolve(g, e.parts.value).Some?
    ensures Fits(Resolve(g, e.parts.value).value, flow) <==> EndsFit(g, e, flow) && LaidOut(g, e, flow.port)
  {
    var parts := e.parts.value;
    ModelledIsResolved(g, e);
    NamesSomeIsNotEmpty(g, parts.dstPorts);
    NamesSomeIsNotEmpty(g, parts.srcPorts);
    PortsAreNamed(g, parts.dstPorts);
    PortsAreNamed(g, parts.srcPorts);
    ChosenPortsFit(ResolvePorts(g, parts.dstPorts).value, ResolvePorts(g, parts.srcPorts).value,
                   ServicePorts(g, parts.protocol), flow.port);
    hide Resolve, ResolvePorts, ChosenPorts, PortsUnderstood, NamesPort, NamesSomePort, ServicePorts, NetworksNamed,
         ProtocolsNamed, ProtocolUnderstood, EndpointUnderstood, RuleCount, Contains;
  }

  lemma AppliesFromSomePort(g: Registries, e: EntryLine, flow: Flow)
    ensures EntryApplies(g, e, flow) <==> Modelled(g, e) && EndsFit(g, e, flow) && AdmitsTo(g, e, flow.port)
  {
    hide EndsFit, AdmitsTo, NamesPort;
    if Modelled(g, e) && EndsFit(g, e, flow) && AdmitsTo(g, e, flow.port) {
      var from := 0;
      if port :| NamesPort(g, e.parts.value.srcPorts, port) {
        from := port;
      }
      assert AdmitsFrom(g, e, from);
      assert EntryMatches(g, e, flow, from);
    }
  }

  /** A flow to the given port whose ends fit. */
  lemma FittingFlow(g: Registries, e: EntryLine, port: int) returns (flow: Flow)
    requires Modelled(g, e) && CanFit(g, e)
    ensures EndsFit(g, e, flow) && flow.port == port
  {
    var parts := e.parts.value;
    var s :| s in NetworksNamed(g, parts.src) && !s.Malformed?;
    var d :| d in NetworksNamed(g, parts.dst) && !d.Malformed?;
    var p := ProtocolsNamed(g, parts.protocol)[0];
    flow := Flow(AddressIn(s), AddressIn(d), port, p);
    assert p in ProtocolsNamed(g, parts.protocol);
    hide NetworksNamed, ProtocolsNamed;
  }

  function AddressIn(spec: Spec): (host: Host)
    ensures !spec.Malformed? ==> Contains(spec, host)
  {
    V4(if spec.Net? then spec.address else 0)
  }

  /** A port outside a list, and one inside it when there is any. */
  lemma UnlistedPort(ports: seq<int>) returns (port: int)
    ensures port !in ports
  {
    port := MaxOf(ports) + 1;
  }

  lemma UnnamedPort(g: Registries, part: PortPart) returns (port: int)
    requires PortsUnderstood(g, part)
    ensures !NamesPort(g, part, port)
  {
    PortsAreNamed(g, part);
    port := UnlistedPort(ResolvePorts(g, part).value);
  }

  lemma FitMeansCanFit(g: Registries, e: EntryLine, flow: Flow)
    requires Modelled(g, e) && EndsFit(g, e, flow)
    ensures CanFit(g, e)
  {
    hide NetworksNamed;
  }

  /**
   The rules laid out for an entry match just the flows the entry applies to exactly
   when its ports are read right.  They match just what the entry matches from every
   source port exactly when it names none.
   */
  lemma RulesMeanTheEntryExactlyWhen(g: Registries, e: EntryLine)
    ensures (forall flow :: RulesMatch(g, e, flow) <==> EntryApplies(g, e, flow)) <==> PortsReadRight(g, e)
    ensures (forall flow, from :: RulesMatch(g, e, flow) <==> EntryMatches(g, e, flow, from)) <==> NoSourcePorts(g, e)
  {
    hide RulesMatch, EntryApplies, Modelled, EndsFit, CanFit, NamesPort, ServicePorts;
    forall flow
      ensures PortsReadRight(g, e) ==> (RulesMatch(g, e, flow) <==> EntryApplies(g, e, flow))
      ensures NoSourcePorts(g, e) ==> forall from :: RulesMatch(g, e, flow) <==> EntryMatches(g, e, flow, from)
    {
      RulesMatchLaidOut(g, e, flow);
      AppliesFromSomePort(g, e, flow);
      if Modelled(g, e) && EndsFit(g, e, flow) {
        FitMeansCanFit(g, e, flow);
      }
    }
    if !PortsReadRight(g, e) {
      MisreadPorts(g, e);
    }
    if !NoSourcePorts(g, e) {
      IgnoredSourcePort(g, e);
    }
  }

  /**
   A modelled entry matches no flow at all exactly when all its sources, or all its
   destinations, are no addresses: it is not kept as an unparsed rule even then.
   */
  lemma SilentExactlyWhen(g: Registries, e: EntryLine)
    requires Modelled(g, e)
    ensures (forall flow :: !RulesMatch(g, e, flow)) <==> !CanFit(g, e)
  {
    hide RulesMatch, Modelled, EndsFit, CanFit, NamesPort, ServicePorts, LaidOut;
    if CanFit(g, e) {
      var port := SomeLaidOut(g, e);
      var flow := FittingFlow(g, e, port);
      RulesMatchLaidOut(g, e, flow);
    }
    forall flow ensures RulesMatch(g, e, flow) ==> CanFit(g, e) {
      RulesMatchLaidOut(g, e, flow);
      if Modelled(g, e) && EndsFit(g, e, flow) {
        FitMeansCanFit(g, e, flow);
      }
    }
  }

  lemma SomeLaidOut(g: Registries, e: EntryLine) returns (port: int)
    requires Modelled(g, e)
    ensures LaidOut(g, e, port)
  {
    hide NamesPort, ServicePorts;
    var parts := e.parts.value;
    if NamesSomePort(g, parts.dstPorts) {
      port :| NamesPort(g, parts.dstPorts, port);
    } else if NamesSomePort(g, parts.srcPorts) {
      port :| NamesPort(g, parts.srcPorts, port);
    } else if ServicePorts(g, parts.protocol) != [] {
      port := ServicePorts(g, parts.protocol)[0];
    } else {
      port := 0;
    }
  }

  lemma MisreadPorts(g: Registries, e: EntryLine)
    requires !PortsReadRight(g, e)
    ensures exists flow :: RulesMatch(g, e, flow) != EntryApplies(g, e, flow)
  {
    var parts := e.parts.value;
    var service := ServicePorts(g, parts.protocol);
    var port: int;
    if service == [] {
      port := UnnamedPort(g, parts.srcPorts);
    } else {
      port :| NamesPort(g, parts.srcPorts, port) != (port in service);
    }
    hide RulesMatch, EntryApplies, EndsFit, CanFit, NamesPort, ServicePorts;
    var flow := FittingFlow(g, e, port);
    RulesMatchLaidOut(g, e, flow);
    AppliesFromSomePort(g, e, flow);
  }

  lemma IgnoredSourcePort(g: Registries, e: EntryLine)
    requires !NoSourcePorts(g, e)
    ensures exists flow, from :: RulesMatch(g, e, flow) != EntryMatches(g, e, flow, from)
  {
    var from := UnnamedPort(g, e.parts.value.srcPorts);
    var port := SomeLaidOut(g, e);
    hide RulesMatch, EndsFit, CanFit, NamesPort, LaidOut;
    var flow := FittingFlow(g, e, port);
    RulesMatchLaidOut(g, e, flow);
    assert !EntryMatches(g, e, flow, from);
  }

  lemma CrossProductMatchesFitting(e: EntryLine, r: Resolved, flow: Flow)
    ensures (exists rule | rule in CrossProduct(e, r) :: Matches(rule.body, flow)) <==>
              r.action != Unparsed && Fits(r, flow)
  {
    hide CrossProduct, Contains;
    if rule :| rule in CrossProduct(e, r) && Matches(rule.body, flow) {
      CrossProductIsEveryChoice(e, r, rule);
    }
    if r.action != Unparsed && Fits(r, flow) {
      var p :| p in r.protocols && (p == "ip" || p == "any" || p == flow.proto);
      var s :| s in r.sources && Contains(s, flow.src);
      var d :| d in r.destinations && Contains(d, flow.dst);
      var q :| q in r.ports && (q.Some? ==> q.value == flow.port);
      var rule := AclRule(e.line, Body(r.action, p, s, d, q), e.acl);
      CrossProductIsEveryChoice(e, r, rule);
      assert Matches(rule.body, flow);
    }
  }

  ghost predicate Fits(r: Resolved, flow: Flow) {
    && (exists p | p in r.protocols :: p == "ip" || p == "any" || p == flow.proto)
    && (exists s | s in r.sources :: Contains(s, flow.src))
    && (exists d | d in r.destinations :: Contains(d, flow.dst))
    && (exists q | q in r.ports :: q.Some? ==> q.value == flow.port)
  }

  // ---------------------------------------------------------------------
  // The whole list
  // ---------------------------------------------------------------------

  type Slot = (string, int)

  function SlotOf(e: EntryLine): Slot {
    (e.acl, e.line)
  }

  /** The (acl, line) pairs, in the order they first appear. */
  function Slots(entries: seq<EntryLine>): seq<Slot> {
    Unique(seq(|entries|, i requires 0 <= i < |entries| => SlotOf(entries[i])))
  }

  /** The entries of one list and line, in order. */
  function At(entries: seq<EntryLine>, slot: Slot): seq<EntryLine> {
    if entries == [] then []
    else
      var last := entries[|entries| - 1];
      At(entries[..|entries| - 1], slot) + (if SlotOf(last) == slot then [last] else [])
  }

  lemma {:induction false} AtHolds(entries: seq<EntryLine>, slot: Slot, e: EntryLine)
    ensures e in At(entries, slot) <==> e in entries && SlotOf(e) == slot
  {
    hide SlotOf;
    if entries != [] {
      var n := |entries| - 1;
      AtHolds(entries[..n], slot, e);
      assert entries == entries[..n] + [entries[n]];
    }
  }

  function OnlyExpanded(entries: seq<EntryLine>): seq<EntryLine> {
    if entries == [] then []
    else
      var last := entries[|entries| - 1];
      OnlyExpanded(entries[..|entries| - 1]) + (if last.expanded then [last] else [])
  }

  /** The device's own expansion of a slot beats ours. */
  function ChosenAt(entries: seq<EntryLine>): seq<EntryLine> {
    var expanded := OnlyExpanded(entries);
    if expanded != [] then expanded else entries
  }

  /** The entries that count, slot by slot. */
  function Chosen(entries: seq<EntryLine>): seq<EntryLine> {
    var slots := Slots(entries);
    Flatten(seq(|slots|, i requires 0 <= i < |slots| => ChosenAt(At(entries, slots[i]))))
  }

  function AllRules(g: Registries, entries: seq<EntryLine>): seq<seq<AclRule>> {
    seq(|entries|, i requires 0 <= i < |entries| => RulesOf(g, entries[i]))
  }

  function ParsedRules(g: Registries, entries: seq<EntryLine>): seq<AclRule> {
    Sorted(Flatten(AllRules(g, Chosen(entries))))
  }

  /** The dictionary of entries by slot, and its keys in insertion order. */
  method GroupEntries(entries: seq<EntryLine>) returns (grouped: map<Slot, seq<EntryLine>>, order: seq<Slot>)
    ensures order == Slots(entries)
    ensures forall s | s in order :: s in grouped && grouped[s] == At(entries, s)
  {
    grouped, order := map[], [];
    for i := 0 to |entries|
      invariant order == Slots(entries[..i])
      invariant forall s :: s in grouped <==> s in order
      invariant forall s | s in grouped :: grouped[s] == At(entries[..i], s)
    {
      var slot := SlotOf(entries[i]);
      OneMoreEntry(entries, i);
      if slot !in grouped {
        order := order + [slot];
        grouped := grouped[slot := []];
      }
      grouped := grouped[slot := grouped[slot] + [entries[i]]];
    }
    assert entries[..|entries|] == entries;
  }

  method ParseAccessList(g: Registries, entries: seq<EntryLine>) returns (rules: seq<AclRule>)
    ensures rules == ParsedRules(g, entries)
  {
    hide Slots, At, ChosenAt, RulesOf, Sorted;
    var grouped, order := GroupEntries(entries);
    var chosen: seq<EntryLine> := [];
    ghost var parts := seq(|order|, k requires 0 <= k < |order| => ChosenAt(At(entries, order[k])));
    for k := 0 to |order|
      invariant chosen == Flatten(parts[..k])
    {
      chosen := chosen + ChosenAt(grouped[order[k]]);
      assert parts[..k + 1][..k] == parts[..k];
    }
    assert parts[..|order|] == parts;
    assert chosen == Chosen(entries);
    rules := LayOut(g, chosen);
    rules := Sorted(rules);
  }

  /** The rules of each entry in turn. */
  method LayOut(g: Registries, chosen: seq<EntryLine>) returns (rules: seq<AclRule>)
    ensures rules == Flatten(AllRules(g, chosen))
  {
    hide RulesOf;
    rules := [];
    ghost var groups := AllRules(g, chosen);
    for n := 0 to |chosen|
      invariant rules == Flatten(groups[..n])
    {
      rules := rules + RulesOf(g, chosen[n]);
      assert groups[..n + 1][..n] == groups[..n];
    }
    assert groups[..|chosen|] == groups;
  }

  lemma OneMoreEntry(entries: seq<EntryLine>, i: nat)
    requires i < |entries|
    ensures var slot, before := SlotOf(entries[i]), Slots(entries[..i]);
            Slots(entries[..i + 1]) == if slot in before then before else before + [slot]
    ensures forall s :: At(entries[..i + 1], s) ==
                          At(entries[..i], s) + (if SlotOf(entries[i]) == s then [entries[i]] else [])
    ensures SlotOf(entries[i]) !in Slots(entries[..i]) ==> At(entries[..i], SlotOf(entries[i])) == []
  {
    var shorter, longer := entries[..i], entries[..i + 1];
    assert longer[..i] == shorter;
    var keys, keys' := seq(i, k requires 0 <= k < i => SlotOf(shorter[k])),
        seq(i + 1, k requires 0 <= k < i + 1 => SlotOf(longer[k]));
    assert keys'[..i] == keys;
    if At(shorter, SlotOf(entries[i])) != [] {
      var e := At(shorter, SlotOf(entries[i]))[0];
      assert e in At(shorter, SlotOf(entries[i]));
      AtHolds(shorter, SlotOf(entries[i]), e);
      var k :| 0 <= k < i && shorter[k] == e;
      assert keys[k] == SlotOf(entries[i]) && keys[k] in keys;
    }
  }

  // ---------------------------------------------------------------------
  // Which entries count, and in which order
  // ---------------------------------------------------------------------

  lemma AtLast(entries: seq<EntryLine>, slot: Slot)
    requires entries != []
    ensures var n := |entries| - 1;
            At(entries, slot) == At(entries[..n], slot) + if SlotOf(entries[n]) == slot then [entries[n]] else []
  {
    hide SlotOf;
  }

  lemma {:induction false} AtConcat(a: seq<EntryLine>, b: seq<EntryLine>, slot: Slot)
    ensures At(a + b, slot) == At(a, slot) + At(b, slot)
  {
    hide SlotOf;
    if b == [] {
      assert a + b == a;
    } else {
      var n := |b| - 1;
      assert (a + b)[..|a| + n] == a + b[..n] && (a + b)[|a| + n] == b[n];
      AtConcat(a, b[..n], slot);
    }
  }

  lemma {:induction false} AtOwnSlot(entries: seq<EntryLine>, slot: Slot, other: Slot)
    requires forall k | 0 <= k < |entries| :: SlotOf(entries[k]) == slot
    ensures At(entries, other) == if other == slot then entries else []
  {
    hide SlotOf;
    if entries != [] {
      var n := |entries| - 1;
      AtOwnSlot(entries[..n], slot, other);
      assert entries == entries[..n] + [entries[n]];
      AtLast(entries, other);
    }
  }

  lemma {:induction false} OnlyExpandedIs(entries: seq<EntryLine>, e: EntryLine)
    ensures e in OnlyExpanded(entries) <==> e in entries && e.expanded
  {
    if entries != [] {
      var n := |entries| - 1;
      OnlyExpandedIs(entries[..n], e);
      assert entries == entries[..n] + [entries[n]];
    }
  }

  /** One list and line: the device's own expansion in its order, or else all entries in theirs. */
  ghost predicate SettledAt(entries: seq<EntryLine>, slot: Slot, chosen: seq<EntryLine>) {
    var here := At(entries, slot);
    chosen == if exists e :: e in here && e.expanded then OnlyExpanded(here) else here
  }

  lemma ChosenAtIs(entries: seq<EntryLine>, slot: Slot)
    ensures SettledAt(entries, slot, ChosenAt(At(entries, slot)))
    ensures forall k | 0 <= k < |ChosenAt(At(entries, slot))| :: SlotOf(ChosenAt(At(entries, slot))[k]) == slot
  {
    hide At, OnlyExpanded, SlotOf;
    var here := At(entries, slot);
    var chosen := ChosenAt(here);
    forall e ensures e in OnlyExpanded(here) <==> e in here && e.expanded {
      OnlyExpandedIs(here, e);
    }
    if OnlyExpanded(here) != [] {
      assert OnlyExpanded(here)[0] in OnlyExpanded(here);
    }
    forall k | 0 <= k < |chosen| ensures SlotOf(chosen[k]) == slot {
      assert chosen[k] in chosen && chosen[k] in here;
      AtHolds(entries, slot, chosen[k]);
    }
  }

  lemma {:induction false} ChosenAmongSlots(entries: seq<EntryLine>, slots: seq<Slot>, slot: Slot)
    requires forall i, j | 0 <= i < j < |slots| :: slots[i] != slots[j]
    ensures var parts := seq(|slots|, i requires 0 <= i < |slots| => ChosenAt(At(entries, slots[i])));
            At(Flatten(parts), slot) == if slot in slots then ChosenAt(At(entries, slot)) else []
  {
    hide ChosenAt, SlotOf, At, Flatten;
    var parts := seq(|slots|, i requires 0 <= i < |slots| => ChosenAt(At(entries, slots[i])));
    if slots == [] {
      NothingChosen(parts, slot);
    } else {
      var n := |slots| - 1;
      var front := seq(n, i requires 0 <= i < n => ChosenAt(At(entries, slots[..n][i])));
      assert parts[..n] == front;
      ChosenAmongSlots(entries, slots[..n], slot);
      ChosenAtIs(entries, slots[n]);
      AtOwnSlot(parts[n], slots[n], slot);
      FlattenLast(parts);
      AtConcat(Flatten(front), parts[n], slot);
      assert slot in slots <==> slot in slots[..n] || slot == slots[n];
      assert slot == slots[n] ==> slot !in slots[..n];
    }
  }

  lemma NothingChosen(parts: seq<seq<EntryLine>>, slot: Slot)
    requires parts == []
    ensures At(Flatten(parts), slot) == []
  {
  }

  lemma FlattenLast(parts: seq<seq<EntryLine>>)
    requires parts != []
    ensures Flatten(parts) == Flatten(parts[..|parts| - 1]) + parts[|parts| - 1]
  {
  }

  /**
   Of each list and line, the device's own expansion counts when there is one and all
   entries otherwise, in the order they came; nothing else counts.
   */
  lemma ChosenExactlyWhen(entries: seq<EntryLine>, slot: Slot)
    ensures SettledAt(entries, slot, At(Chosen(entries), slot))
    ensures forall e :: e in Chosen(entries) <==> e in entries && (e.expanded || NoneExpanded(entries, e))
  {
    ChosenSettles(entries, slot);
    forall e ensures e in Chosen(entries) <==> e in entries && (e.expanded || NoneExpanded(entries, e)) {
      ChosenSettles(entries, SlotOf(e));
      SettledHolds(entries, Chosen(entries), e);
    }
  }

  /** No entry of the same list and line comes from the device's own expansion. */
  ghost predicate NoneExpanded(entries: seq<EntryLine>, e: EntryLine) {
    forall other | other in entries && other.acl == e.acl && other.line == e.line :: !other.expanded
  }

  lemma ChosenSettles(entries: seq<EntryLine>, slot: Slot)
    ensures SettledAt(entries, slot, At(Chosen(entries), slot))
  {
    hide At, ChosenAt, SlotOf;
    ChosenAmongSlots(entries, Slots(entries), slot);
    ChosenAtIs(entries, slot);
    if slot !in Slots(entries) && At(entries, slot) != [] {
      var e := At(entries, slot)[0];
      AtHolds(entries, slot, e);
      SlotOccurs(entries, e);
    }
    NothingToChoose();
  }

  lemma NothingToChoose()
    ensures ChosenAt([]) == []
  {
  }

  lemma SettledHolds(entries: seq<EntryLine>, chosen: seq<EntryLine>, e: EntryLine)
    requires SettledAt(entries, SlotOf(e), At(chosen, SlotOf(e)))
    ensures e in chosen <==> e in entries && (e.expanded || NoneExpanded(entries, e))
  {
    hide At, OnlyExpanded;
    var here := At(entries, SlotOf(e));
    OnlyExpandedIs(here, e);
    AtHolds(chosen, SlotOf(e), e);
    forall other ensures other in here <==> other in entries && SlotOf(other) == SlotOf(e) {
      AtHolds(entries, SlotOf(e), other);
    }
  }

  // ---------------------------------------------------------------------
  // Same verdict, nothing lost
  // ---------------------------------------------------------------------

  /** Entry i is the first, by line and then by position, that says anything about the flow. */
  ghost predicate FirstEntry(g: Registries, chosen: seq<EntryLine>, flow: Flow, i: nat) {
    && i < |chosen| && EntryApplies(g, chosen[i], flow)
    && forall j: nat | j < |chosen| && j != i && EntryApplies(g, chosen[j], flow) ::
         chosen[i].line < chosen[j].line || (chosen[i].line == chosen[j].line && i < j)
  }

  /** The first entry for a flow, among the first n of which some matches. */
  lemma {:induction false} FirstEntryAmong(g: Registries, chosen: seq<EntryLine>, flow: Flow, n: nat) returns (i: nat)
    requires n <= |chosen| && exists j :: 0 <= j < n && EntryApplies(g, chosen[j], flow)
    ensures i < n && FirstEntry(g, chosen[..n], flow, i)
  {
    hide EntryApplies;
    var last := n - 1;
    if exists j :: 0 <= j < last && EntryApplies(g, chosen[j], flow) {
      i := FirstEntryAmong(g, chosen, flow, last);
      assert forall j: nat | j < last :: chosen[..last][j] == chosen[..n][j] == chosen[j];
      if EntryApplies(g, chosen[last], flow) && chosen[last].line < chosen[i].line {
        i := last;
      }
    } else {
      i := last;
    }
  }

  lemma RulesShareTheLine(g: Registries, e: EntryLine, rule: AclRule)
    requires rule in RulesOf(g, e)
    ensures rule.line == e.line && rule.acl == e.acl
    ensures rule.body.action != Unparsed ==>
              e.parts.Some? && rule.body.action == e.parts.value.action
  {
    if e.parts.Some? && Resolve(g, e.parts.value).Some? {
      CrossProductIsEveryChoice(e, Resolve(g, e.parts.value).value, rule);
    }
  }

  /** The first matching rule of one entry. */
  lemma {:induction false} FirstWithin(rules: seq<AclRule>, flow: Flow, n: nat) returns (k: nat)
    requires n <= |rules| && exists i :: 0 <= i < n && Matches(rules[i].body, flow)
    ensures k < n && Matches(rules[k].body, flow) && forall i | 0 <= i < k :: !Matches(rules[i].body, flow)
  {
    if exists i :: 0 <= i < n - 1 && Matches(rules[i].body, flow) {
      k := FirstWithin(rules, flow, n - 1);
    } else {
      k := n - 1;
    }
  }

  lemma HitMeansApplies(g: Registries, chosen: seq<EntryLine>, flow: Flow, j: nat, m: nat)
    requires Hits(AllRules(g, chosen), flow, j, m) && PortsReadRight(g, chosen[j])
    ensures AllRules(g, chosen)[j][m] in RulesOf(g, chosen[j]) && EntryApplies(g, chosen[j], flow)
  {
    hide RulesOf, EntryApplies, PortsReadRight;
    assert AllRules(g, chosen)[j][m] in RulesOf(g, chosen[j]);
    RulesMeanTheEntryExactlyWhen(g, chosen[j]);
    assert RulesMatch(g, chosen[j], flow);
  }

  lemma FirstEntryDecides(g: Registries, chosen: seq<EntryLine>, flow: Flow, i: nat) returns (k: nat)
    requires forall j | 0 <= j < |chosen| :: PortsReadRight(g, chosen[j])
    requires FirstEntry(g, chosen, flow, i)
    ensures GroupDecides(AllRules(g, chosen), flow, i, k)
  {
    hide RulesOf, EntryApplies, PortsReadRight;
    var groups := AllRules(g, chosen);
    RulesMeanTheEntryExactlyWhen(g, chosen[i]);
    assert RulesMatch(g, chosen[i], flow);
    var rule: AclRule :| rule in groups[i] && Matches(rule.body, flow);
    k := FirstWithin(groups[i], flow, |groups[i]|);
    RulesShareTheLine(g, chosen[i], groups[i][k]);
    forall j: nat, m: nat | Hits(groups, flow, j, m)
      ensures (j == i && m == k) || Precedes(groups, i, k, j, m)
    {
      HitMeansApplies(g, chosen, flow, j, m);
      RulesShareTheLine(g, chosen[j], groups[j][m]);
    }
  }

  /**
   First match over the laid-out rules gives every flow the verdict that first match
   over the entries themselves gives it: the action of the first entry that applies to
   the flow, or the implicit deny when none does.
   */
  lemma ExpansionPreservesMeaning(g: Registries, entries: seq<EntryLine>, flow: Flow)
    requires forall j | 0 <= j < |Chosen(entries)| :: PortsReadRight(g, Chosen(entries)[j])
    ensures var chosen, verdict := Chosen(entries), EvaluateFlow(ParsedRules(g, entries), flow);
            && (verdict.hit.Some? ==> exists i: nat :: FirstEntry(g, chosen, flow, i))
            && (forall i: nat | FirstEntry(g, chosen, flow, i) ::
                  verdict.hit.Some? && verdict.action == chosen[i].parts.value.action)
            && (verdict.hit.None? ==>
                  verdict.action == Deny && forall i: nat | i < |chosen| :: !EntryApplies(g, chosen[i], flow))
  {
    var chosen := Chosen(entries);
    var groups := AllRules(g, chosen);
    hide RulesOf, PortsReadRight, Sorted;
    SortingFirstChangesNothing(Flatten(groups), flow);
    forall i: nat | FirstEntry(g, chosen, flow, i)
      ensures EvaluateFlow(Flatten(groups), flow).action == chosen[i].parts.value.action
      ensures EvaluateFlow(Flatten(groups), flow).hit.Some?
    {
      var k := FirstEntryDecides(g, chosen, flow, i);
      GroupedEvaluation(groups, flow, i, k);
      assert groups[i][k] in RulesOf(g, chosen[i]);
      RulesShareTheLine(g, chosen[i], groups[i][k]);
    }
    if forall i: nat | i < |chosen| :: !EntryApplies(g, chosen[i], flow) {
      forall j: nat, m: nat ensures !Hits(groups, flow, j, m) {
        if Hits(groups, flow, j, m) {
          HitMeansApplies(g, chosen, flow, j, m);
        }
      }
      GroupedEvaluationUnmatched(groups, flow);
    } else {
      var i := FirstEntryAmong(g, chosen, flow, |chosen|);
      assert chosen[..|chosen|] == chosen;
    }
    EvaluateIsFirstMatch(Sorted(Flatten(groups)), flow);
  }

  lemma {:induction false} OnlyExpandedIsPart(entries: seq<EntryLine>)
    ensures forall e | e in OnlyExpanded(entries) :: e in entries
  {
    if entries != [] {
      OnlyExpandedIsPart(entries[..|entries| - 1]);
    }
  }

  lemma EntryYieldsARule(g: Registries, e: EntryLine) returns (rule: AclRule)
    ensures rule in RulesOf(g, e)
  {
    if e.parts.Some? && Resolve(g, e.parts.value).Some? {
      var r := Resolve(g, e.parts.value).value;
      rule := AclRule(e.line, Body(r.action, r.protocols[0], r.sources[0], r.destinations[0], r.ports[0]), e.acl);
      CrossProductIsEveryChoice(e, r, rule);
    } else {
      rule := AclRule(e.line, UNPARSED, e.acl);
    }
  }

  /** Every slot that occurs keeps at least one of its entries. */
  lemma SlotKeepsAnEntry(entries: seq<EntryLine>, e: EntryLine) returns (kept: EntryLine)
    requires e in entries
    ensures kept in Chosen(entries) && SlotOf(kept) == SlotOf(e)
  {
    hide Flatten, Unique;
    var slots := Slots(entries);
    SlotOccurs(entries, e);
    var i :| 0 <= i < |slots| && slots[i] == SlotOf(e);
    var here := At(entries, slots[i]);
    AtHolds(entries, slots[i], e);
    OnlyExpandedIsPart(here);
    kept := ChosenAt(here)[0];
    assert kept in ChosenAt(here) && kept in here;
    AtHolds(entries, slots[i], kept);
    var parts := seq(|slots|, k requires 0 <= k < |slots| => ChosenAt(At(entries, slots[k])));
    assert kept in parts[i];
    InFlattened(parts, kept);
  }

  lemma SlotOccurs(entries: seq<EntryLine>, e: EntryLine)
    requires e in entries
    ensures SlotOf(e) in Slots(entries)
  {
    var keys := seq(|entries|, i requires 0 <= i < |entries| => SlotOf(entries[i]));
    var n :| 0 <= n < |entries| && entries[n] == e;
    assert keys[n] in keys;
  }

  /** No access-list line vanishes: each leaves at least one rule, modelled or unparsed, at that line of that list. */
  lemma NoLineVanishes(g: Registries, entries: seq<EntryLine>, e: EntryLine)
    requires e in entries
    ensures exists rule :: rule in ParsedRules(g, entries) && rule.acl == e.acl && rule.line == e.line
  {
    hide Chosen, RulesOf, Flatten, Sorted;
    var kept := SlotKeepsAnEntry(entries, e);
    var rule := EntryYieldsARule(g, kept);
    RulesShareTheLine(g, kept, rule);
    var m :| 0 <= m < |Chosen(entries)| && Chosen(entries)[m] == kept;
    var groups := AllRules(g, Chosen(entries));
    assert rule in groups[m];
    InFlattened(groups, rule);
    SortedKeepsRules(Flatten(groups), rule);
  }

  lemma SortedKeepsRules(rules: seq<AclRule>, rule: AclRule)
    requires rule in rules
    ensures rule in Sorted(rules)
  {
    var i :| 0 <= i < |rules| && rules[i] == rule;
    var order := StableOrder(Lines(rules), |rules|);
    assert i in order;
    var k :| 0 <= k < |order| && order[k] == i;
    assert Sorted(rules)[k] == rule;
  }

  /** The conditions are needed: `permit any eq 443 any` lets in what goes to port 443, wherever it comes from. */
  lemma SourcePortsAreReadAsDestination(g: Registries, e: EntryLine, flow: Flow, from: int)
    requires e.parts.Some? && e.parts.value.action != Unparsed
    requires var p := e.parts.value;
             && p.protocol == Unstated && p.src == Literal(AnyHost) && p.dst == Literal(AnyHost)
             && p.srcPorts.Eq? && p.srcPorts.port.Some? && p.dstPorts == NoPorts
    ensures EntryMatches(g, e, flow, from) <==> from == e.parts.value.srcPorts.port.value
    ensures RulesMatch(g, e, flow) <==> flow.port == e.parts.value.srcPorts.port.value
    ensures !PortsReadRight(g, e) && !NoSourcePorts(g, e)
  {
    var parts := e.parts.value;
    var port := parts.srcPorts.port.value;
    assert NamesPort(g, parts.srcPorts, port);
    assert (set p | p in ["ip"]) == {"ip"};
    assert Modelled(g, e);
    assert ["ip"][0] in ["ip"] && [AnyHost][0] in [AnyHost];
    assert EndsFit(g, e, flow) && CanFit(g, e);
    assert !NamesSomePort(g, parts.dstPorts) && NamesSomePort(g, parts.srcPorts);
    RulesMatchLaidOut(g, e, flow);
  }
}
