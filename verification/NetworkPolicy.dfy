/**
  The evaluator of dashboard/backend/app/services/netpol_eval.py: whether a flow passes the
  cluster's NetworkPolicies, and which policy decides. Strings that the code parses (addresses,
  CIDR blocks) are integers here; the explanatory texts are left out.
  */
module NetworkPolicy {
  import opened Bytes
  import opened Numbers

  type Labels = map<string, string>

  datatype Operator = In | NotIn | Exists | DoesNotExist | Unknown
  datatype Expression = Expression(key: string, op: Operator, values: seq<string>)

  /** A missing selector is the empty one. */
  datatype Selector = Selector(matchLabels: map<string, string>, matchExpressions: seq<Expression>)

  datatype Address = Address(v6: bool, value: nat)

  /** A block as written: host bits may be set. */
  datatype Cidr = Cidr(v6: bool, value: nat, prefix: nat)

  datatype Block = Block(cidr: Cidr, exceptions: seq<Cidr>)
  datatype Peer = Peer(ipBlock: Option<Block>, namespaceSelector: Option<Selector>, podSelector: Option<Selector>)
  datatype PortName = AnyPort | Named(name: string) | Number(number: int)
  datatype Port = Port(protocol: Option<string>, port: PortName, endPort: Option<int>)

  /** Lists that are missing are empty. */
  datatype Rule = Rule(peers: seq<Peer>, ports: seq<Port>)
  datatype Policy = Policy(namespace: string, name: string, podSelector: Selector, types: seq<string>,
                           ingress: seq<Rule>, egress: seq<Rule>)

  /** One end of the flow: a pod, or an address outside the pod network. */
  datatype Place = Pod(namespace: string, labels: Labels) | Outside(ip: Option<Address>)
  datatype Flow = Flow(src: Place, dst: Place, port: Option<int>, protocol: Option<string>)

  type Namespaces = map<string, Labels>

  datatype Direction = Ingress | Egress
  datatype Result = Ok | No | NotApplicable
  datatype PolicyName = PolicyName(namespace: string, name: string)
  datatype Step = Step(side: Direction, result: Result, policy: Option<PolicyName>)
  datatype Verdict = Verdict(passes: bool, egress: Step, ingress: Step)

  // ---------------------------------------------------------------- the code

  predicate ExpressionHolds(e: Expression, labels: Labels) {
    match e.op
    case In => e.key in labels && labels[e.key] in e.values
    case NotIn => e.key !in labels || labels[e.key] !in e.values
    case Exists => e.key in labels
    case DoesNotExist => e.key !in labels
    case Unknown => false
  }

  predicate ExpressionsHold(es: seq<Expression>, labels: Labels) {
    es == [] || (ExpressionHolds(es[0], labels) && ExpressionsHold(es[1..], labels))
  }

  predicate Selects(s: Selector, labels: Labels) {
    && (forall k <- s.matchLabels :: k in labels && labels[k] == s.matchLabels[k])
    && ExpressionsHold(s.matchExpressions, labels)
  }

  /** How many addresses a block has. */
  function Size(c: Cidr): (n: nat)
    ensures n >= 1
  {
    var width := if c.v6 then 128 else 32;
    if c.prefix <= width then Pow2(width - c.prefix) else 1
  }

  /** `addr in ip_network(cidr, strict=False)`: same family, and the same bits above the host part. */
  predicate InNetwork(a: Address, c: Cidr) {
    a.v6 == c.v6 && a.value - a.value % Size(c) == c.value - c.value % Size(c)
  }

  predicate InAnyNetwork(a: Address, cs: seq<Cidr>) {
    cs != [] && (InNetwork(a, cs[0]) || InAnyNetwork(a, cs[1..]))
  }

  predicate InBlock(ip: Option<Address>, b: Block) {
    ip.Some? && InNetwork(ip.value, b.cidr) && !InAnyNetwork(ip.value, b.exceptions)
  }

  const EVERYTHING := Selector(map[], [])

  function NamespaceLabels(namespaces: Namespaces, ns: string): Labels {
    if ns in namespaces then namespaces[ns] else map["kubernetes.io/metadata.name" := ns]
  }

  function OrEverything(s: Option<Selector>): Selector {
    if s.Some? then s.value else EVERYTHING
  }

  predicate PeerMatches(p: Peer, other: Place, own: string, namespaces: Namespaces) {
    if p.ipBlock.Some? then other.Outside? && InBlock(other.ip, p.ipBlock.value)
    else if other.Outside? then false
    else if p.namespaceSelector.Some? then
      Selects(p.namespaceSelector.value, NamespaceLabels(namespaces, other.namespace))
      && Selects(OrEverything(p.podSelector), other.labels)
    else if p.podSelector.Some? then other.namespace == own && Selects(p.podSelector.value, other.labels)
    else false
  }

  predicate AnyPeerMatches(ps: seq<Peer>, other: Place, own: string, namespaces: Namespaces) {
    ps != [] && (PeerMatches(ps[0], other, own, namespaces) || AnyPeerMatches(ps[1..], other, own, namespaces))
  }

  /** `value or "TCP"` */
  function ProtocolOr(p: Option<string>): string {
    if p.Some? && p.value != "" then p.value else "TCP"
  }

  /** The loop over a non-empty port list. */
  predicate ScanPorts(ports: seq<Port>, port: Option<int>, protocol: string) {
    if ports == [] then false
    else if ProtocolOr(ports[0].protocol) != protocol then ScanPorts(ports[1..], port, protocol)
    else if !ports[0].port.Number? || port == None then true
    else if ports[0].port.number == port.value
            || (ports[0].endPort.Some? && ports[0].port.number <= port.value <= ports[0].endPort.value) then true
    else ScanPorts(ports[1..], port, protocol)
  }

  predicate PortMatches(ports: seq<Port>, port: Option<int>, protocol: string) {
    ports == [] || ScanPorts(ports, port, protocol)
  }

  function KindName(kind: Direction): string {
    if kind == Ingress then "Ingress" else "Egress"
  }

  function PolicyTypes(p: Policy): seq<string> {
    if p.types != [] then p.types else ["Ingress"] + if p.egress != [] then ["Egress"] else []
  }

  /** The policies of a namespace that select a pod in one direction, in their order. */
  function Selecting(ps: seq<Policy>, ns: string, labels: Labels, kind: Direction): seq<Policy> {
    if ps == [] then []
    else (if ps[0].namespace == ns && KindName(kind) in PolicyTypes(ps[0]) && Selects(ps[0].podSelector, labels)
          then [ps[0]] else [])
         + Selecting(ps[1..], ns, labels, kind)
  }

  function NameOf(p: Policy): PolicyName {
    PolicyName(p.namespace, p.name)
  }

  predicate HasName(ps: seq<Policy>, name: string) {
    ps != [] && (ps[0].name == name || HasName(ps[1..], name))
  }

  function DenyName(selecting: seq<Policy>, ns: string, kind: Direction): PolicyName
    requires selecting != []
  {
    var default := if kind == Ingress then "default-deny-ingress" else "default-deny-egress";
    if HasName(selecting, default) then PolicyName(ns, default) else NameOf(selecting[0])
  }

  function RulesOf(p: Policy, kind: Direction): seq<Rule> {
    if kind == Ingress then p.ingress else p.egress
  }

  /** What a rule is asked: who is at the other end, and which port of the destination. */
  datatype Query = Query(kind: Direction, own: string, other: Place, port: Option<int>, protocol: string,
                         namespaces: Namespaces)

  predicate RuleMatches(r: Rule, q: Query) {
    (r.peers == [] || AnyPeerMatches(r.peers, q.other, q.own, q.namespaces)) && PortMatches(r.ports, q.port, q.protocol)
  }

  predicate AnyRuleMatches(rs: seq<Rule>, q: Query) {
    rs != [] && (RuleMatches(rs[0], q) || AnyRuleMatches(rs[1..], q))
  }

  /** The first policy with a matching rule, where the nested loops return. */
  function FirstAllowing(selecting: seq<Policy>, q: Query): Option<Policy> {
    if selecting == [] then None
    else if AnyRuleMatches(RulesOf(selecting[0], q.kind), q) then Some(selecting[0])
    else FirstAllowing(selecting[1..], q)
  }

  /** _egress and _ingress differ in the ends they look at and in what an unselected pod is called. */
  function Side(ps: seq<Policy>, namespaces: Namespaces, f: Flow, kind: Direction): Step {
    var self, other := if kind == Egress then f.src else f.dst, if kind == Egress then f.dst else f.src;
    if self.Outside? then Step(kind, NotApplicable, None) else
    var selecting := Selecting(ps, self.namespace, self.labels, kind);
    if selecting == [] then Step(kind, if kind == Egress then NotApplicable else Ok, None) else
    var q := Query(kind, self.namespace, other, f.port, ProtocolOr(f.protocol), namespaces);
    var allowing := FirstAllowing(selecting, q);
    if allowing.Some? then Step(kind, Ok, Some(NameOf(allowing.value)))
    else Step(kind, No, Some(DenyName(selecting, self.namespace, kind)))
  }

  function Evaluate(ps: seq<Policy>, namespaces: Namespaces, f: Flow): Verdict {
    var egress := Side(ps, namespaces, f, Egress);
    var ingress := if egress.result == No then Step(Ingress, NotApplicable, None) else Side(ps, namespaces, f, Ingress);
    Verdict(egress.result != No && ingress.result != No, egress, ingress)
  }

  // ---------------------------------------------------------------- the declarative reading

  /** The blocks of section 3.1 of RFC 4632: one aligned range of addresses. */
  ghost predicate InRange(a: Address, c: Cidr) {
    var base := c.value - c.value % Size(c);
    a.v6 == c.v6 && base <= a.value < base + Size(c)
  }

  ghost predicate SelectorAccepts(s: Selector, labels: Labels) {
    && (forall k <- s.matchLabels :: k in labels && labels[k] == s.matchLabels[k])
    && (forall e <- s.matchExpressions :: ExpressionHolds(e, labels))
  }

  ghost predicate PeerAccepts(p: Peer, q: Query) {
    match q.other
    case Outside(ip) =>
      && p.ipBlock.Some? && ip.Some? && InRange(ip.value, p.ipBlock.value.cidr)
      && forall c <- p.ipBlock.value.exceptions :: !InRange(ip.value, c)
    case Pod(ns, labels) =>
      && p.ipBlock.None?
      && (p.podSelector.Some? ==> SelectorAccepts(p.podSelector.value, labels))
      && if p.namespaceSelector.Some? then SelectorAccepts(p.namespaceSelector.value, NamespaceLabels(q.namespaces, ns))
         else p.podSelector.Some? && ns == q.own
  }

  ghost predicate PortAccepts(p: Port, q: Query) {
    && ProtocolOr(p.protocol) == q.protocol
    && (p.port.Number? && q.port.Some? ==>
          p.port.number == q.port.value || (p.endPort.Some? && p.port.number <= q.port.value <= p.endPort.value))
  }

  ghost predicate RuleAccepts(r: Rule, q: Query) {
    && (r.peers == [] || exists p <- r.peers :: PeerAccepts(p, q))
    && (r.ports == [] || exists p <- r.ports :: PortAccepts(p, q))
  }

  ghost predicate Allows(p: Policy, q: Query) {
    exists r <- RulesOf(p, q.kind) :: RuleAccepts(r, q)
  }

  /** The policy applies to a direction; unset types mean Ingress, and Egress too when it has egress rules. */
  ghost predicate Covers(p: Policy, kind: Direction) {
    if p.types != [] then KindName(kind) in p.types else kind == Ingress || p.egress != []
  }

  /** The policy isolates the pod in that direction. */
  ghost predicate Isolates(p: Policy, ns: string, labels: Labels, kind: Direction) {
    p.namespace == ns && Covers(p, kind) && SelectorAccepts(p.podSelector, labels)
  }

  function Self(f: Flow, kind: Direction): Place {
    if kind == Egress then f.src else f.dst
  }

  function Ask(namespaces: Namespaces, f: Flow, kind: Direction): Query
    requires Self(f, kind).Pod?
  {
    var other := if kind == Egress then f.dst else f.src;
    Query(kind, Self(f, kind).namespace, other, f.port, ProtocolOr(f.protocol), namespaces)
  }

  /** `p` isolates the pod at this end of the flow. */
  ghost predicate Concerns(p: Policy, f: Flow, kind: Direction) {
    Self(f, kind).Pod? && Isolates(p, Self(f, kind).namespace, Self(f, kind).labels, kind)
  }

  ghost predicate Lets(p: Policy, namespaces: Namespaces, f: Flow, kind: Direction) {
    Concerns(p, f, kind) && Allows(p, Ask(namespaces, f, kind))
  }

  /** This end of the flow is open: nothing isolates it, or something that isolates it lets the flow through. */
  ghost predicate Open(ps: seq<Policy>, namespaces: Namespaces, f: Flow, kind: Direction) {
    (exists p <- ps :: Concerns(p, f, kind)) ==> exists p <- ps :: Lets(p, namespaces, f, kind)
  }

  // ---------------------------------------------------------------- the code refines it

  lemma {:induction false} NetworkIsRange(a: Address, c: Cidr)
    ensures InNetwork(a, c) <==> InRange(a, c)
  {
    var n := Size(c);
    SameBlock(a.value, c.value, n);
  }

  lemma {:induction false} SameBlock(x: nat, y: nat, n: nat)
    requires n >= 1
    ensures x - x % n == y - y % n <==> y - y % n <= x < y - y % n + n
  {
    var base := y - y % n;
    if base <= x < base + n {
      var r := x - base;
      assert base == n * (y / n);
      assert x == n * (y / n) + r;
      Remainder(y / n, r, n);
    }
  }

  lemma {:induction false} Remainder(q: nat, r: nat, n: nat)
    requires r < n
    ensures (n * q + r) % n == r
  {
    var x := n * q + r;
    var d := x / n - q;
    assert x == n * (x / n) + x % n;
    assert n * d == n * (x / n) - n * q;
    MultiplesAreFar(n, d);
  }

  lemma {:induction false} MultiplesAreFar(n: int, d: int)
    requires n >= 0
    ensures d >= 1 ==> n * d >= n
    ensures d <= -1 ==> n * d <= -n
  {
    if d >= 1 {
      assert n * d == n + n * (d - 1);
    } else if d <= -1 {
      assert n * d == -n - n * (-d - 1);
    }
  }

  lemma {:induction false} AnyNetworkIff(a: Address, cs: seq<Cidr>)
    ensures InAnyNetwork(a, cs) <==> exists c <- cs :: InRange(a, c)
  {
    if cs != [] {
      NetworkIsRange(a, cs[0]);
      AnyNetworkIff(a, cs[1..]);
      assert cs == [cs[0]] + cs[1..];
    }
  }

  lemma {:induction false} ExpressionsIff(es: seq<Expression>, labels: Labels)
    ensures ExpressionsHold(es, labels) <==> forall e <- es :: ExpressionHolds(e, labels)
  {
    if es != [] {
      ExpressionsIff(es[1..], labels);
      assert es == [es[0]] + es[1..];
    }
  }

  lemma {:induction false} SelectsIff(s: Selector, labels: Labels)
    ensures Selects(s, labels) <==> SelectorAccepts(s, labels)
  {
    ExpressionsIff(s.matchExpressions, labels);
  }

  lemma {:induction false} PeerIff(p: Peer, q: Query)
    ensures PeerMatches(p, q.other, q.own, q.namespaces) <==> PeerAccepts(p, q)
  {
    match q.other
    case Outside(ip) =>
      if p.ipBlock.Some? && ip.Some? {
        NetworkIsRange(ip.value, p.ipBlock.value.cidr);
        AnyNetworkIff(ip.value, p.ipBlock.value.exceptions);
      }
    case Pod(ns, labels) =>
      SelectsIff(OrEverything(p.podSelector), labels);
      SelectsIff(OrEverything(p.namespaceSelector), NamespaceLabels(q.namespaces, ns));
  }

  lemma {:induction false} PeersIff(ps: seq<Peer>, q: Query)
    ensures AnyPeerMatches(ps, q.other, q.own, q.namespaces) <==> exists p <- ps :: PeerAccepts(p, q)
  {
    if ps != [] {
      PeerIff(ps[0], q);
      PeersIff(ps[1..], q);
      assert ps == [ps[0]] + ps[1..];
    }
  }

  lemma {:induction false} PortsIff(ports: seq<Port>, q: Query)
    ensures ScanPorts(ports, q.port, q.protocol) <==> exists p <- ports :: PortAccepts(p, q)
  {
    if ports != [] {
      PortsIff(ports[1..], q);
      assert ports == [ports[0]] + ports[1..];
      assert ScanPorts(ports, q.port, q.protocol)
             <==> PortAccepts(ports[0], q) || ScanPorts(ports[1..], q.port, q.protocol);
    }
  }

  lemma {:induction false} RuleIff(r: Rule, q: Query)
    ensures RuleMatches(r, q) <==> RuleAccepts(r, q)
  {
    PeersIff(r.peers, q);
    PortsIff(r.ports, q);
  }

  lemma {:induction false} RulesIff(rs: seq<Rule>, q: Query)
    ensures AnyRuleMatches(rs, q) <==> exists r <- rs :: RuleAccepts(r, q)
  {
    if rs != [] {
      RuleIff(rs[0], q);
      RulesIff(rs[1..], q);
      assert rs == [rs[0]] + rs[1..];
    }
  }

  lemma {:induction false} TypesIff(p: Policy, kind: Direction)
    ensures KindName(kind) in PolicyTypes(p) <==> Covers(p, kind)
  {
    assert "Ingress"[0] != "Egress"[0];
  }

  lemma {:induction false} SelectingIff(ps: seq<Policy>, ns: string, labels: Labels, kind: Direction)
    ensures forall p :: p in Selecting(ps, ns, labels, kind) <==> p in ps && Isolates(p, ns, labels, kind)
  {
    if ps != [] {
      SelectingIff(ps[1..], ns, labels, kind);
      TypesIff(ps[0], kind);
      SelectsIff(ps[0].podSelector, labels);
      assert ps == [ps[0]] + ps[1..];
    }
  }

  lemma {:induction false} FirstAllowingIff(selecting: seq<Policy>, q: Query)
    ensures match FirstAllowing(selecting, q)
            case Some(p) => p in selecting && Allows(p, q)
            case None => forall p <- selecting :: !Allows(p, q)
  {
    if selecting != [] {
      RulesIff(RulesOf(selecting[0], q.kind), q);
      FirstAllowingIff(selecting[1..], q);
      assert selecting == [selecting[0]] + selecting[1..];
    }
  }

  lemma {:induction false} HasNameIff(ps: seq<Policy>, name: string)
    ensures HasName(ps, name) <==> exists p <- ps :: p.name == name
  {
    if ps != [] {
      HasNameIff(ps[1..], name);
      assert ps == [ps[0]] + ps[1..];
    }
  }

  /** One end: it is refused exactly when it is not open, and the policy named is one that decides. */
  lemma {:induction false} SideIff(ps: seq<Policy>, namespaces: Namespaces, f: Flow, kind: Direction)
    ensures var step := Side(ps, namespaces, f, kind);
            && (step.result != No <==> Open(ps, namespaces, f, kind))
            && (step.result == No ==> exists p <- ps :: Concerns(p, f, kind) && step.policy == Some(NameOf(p)))
            && (step.policy.Some? && step.result == Ok ==>
                  exists p <- ps :: Lets(p, namespaces, f, kind) && step.policy == Some(NameOf(p)))
  {
    var self := Self(f, kind);
    if self.Pod? {
      var selecting := Selecting(ps, self.namespace, self.labels, kind);
      SelectingIff(ps, self.namespace, self.labels, kind);
      FirstAllowingIff(selecting, Ask(namespaces, f, kind));
      assert forall p :: p in selecting <==> p in ps && Concerns(p, f, kind);
      if selecting != [] {
        assert selecting[0] in selecting;
        HasNameIff(selecting, if kind == Ingress then "default-deny-ingress" else "default-deny-egress");
      }
    }
  }

  /** The verdict is the declarative one: a flow passes exactly when both its ends are open. */
  lemma {:induction false} EvaluateIff(ps: seq<Policy>, namespaces: Namespaces, f: Flow)
    ensures Evaluate(ps, namespaces, f).passes <==> Open(ps, namespaces, f, Egress) && Open(ps, namespaces, f, Ingress)
  {
    SideIff(ps, namespaces, f, Egress);
    SideIff(ps, namespaces, f, Ingress);
  }

  /** A denial names a policy that isolates the end it is about. */
  lemma {:induction false} DenialNamesAPolicy(ps: seq<Policy>, namespaces: Namespaces, f: Flow)
    requires !Evaluate(ps, namespaces, f).passes
    ensures var v := Evaluate(ps, namespaces, f);
            exists kind, p :: p in ps && Concerns(p, f, kind)
              && (if kind == Egress then v.egress else v.ingress) == Step(kind, No, Some(NameOf(p)))
  {
    var v := Evaluate(ps, namespaces, f);
    var kind := if v.egress.result == No then Egress else Ingress;
    SideIff(ps, namespaces, f, kind);
    var step := if kind == Egress then v.egress else v.ingress;
    var p :| p in ps && Concerns(p, f, kind) && step.policy == Some(NameOf(p));
    assert step == Step(kind, No, Some(NameOf(p)));
  }

  // ---------------------------------------------------------------- order does not matter

  /** The same rule, its peers and ports in any order. */
  ghost predicate SameRule(r: Rule, s: Rule) {
    multiset(r.peers) == multiset(s.peers) && multiset(r.ports) == multiset(s.ports)
  }

  ghost predicate HasSameRule(r: Rule, ss: seq<Rule>) {
    exists s <- ss :: SameRule(r, s)
  }

  ghost predicate SameRules(rs: seq<Rule>, ss: seq<Rule>) {
    && (forall r {:trigger HasSameRule(r, ss)} | r in rs :: HasSameRule(r, ss))
    && (forall s {:trigger HasSameRule(s, rs)} | s in ss :: HasSameRule(s, rs))
  }

  /** The same policy, its rules in any order. */
  ghost predicate SamePolicy(p: Policy, q: Policy) {
    && p.namespace == q.namespace && p.podSelector == q.podSelector && p.types == q.types
    && SameRules(p.ingress, q.ingress) && SameRules(p.egress, q.egress)
  }

  ghost predicate HasSamePolicy(p: Policy, qs: seq<Policy>) {
    exists q <- qs :: SamePolicy(p, q)
  }

  ghost predicate SamePolicies(ps: seq<Policy>, qs: seq<Policy>) {
    && (forall p {:trigger HasSamePolicy(p, qs)} | p in ps :: HasSamePolicy(p, qs))
    && (forall q {:trigger HasSamePolicy(q, ps)} | q in qs :: HasSamePolicy(q, ps))
  }

  lemma {:induction false} SameElements<T>(xs: seq<T>, ys: seq<T>)
    requires multiset(xs) == multiset(ys)
    ensures (forall x :: x in xs <==> x in ys) && (xs == [] <==> ys == [])
  {
    assert forall x :: x in xs <==> x in multiset(xs);
    assert forall x :: x in ys <==> x in multiset(ys);
    assert |multiset(xs)| == |xs| && |multiset(ys)| == |ys|;
  }

  lemma {:induction false} SameRuleAccepts(r: Rule, s: Rule, q: Query)
    requires SameRule(r, s)
    ensures RuleAccepts(r, q) <==> RuleAccepts(s, q)
  {
    SameElements(r.peers, s.peers);
    SameElements(r.ports, s.ports);
  }

  lemma {:induction false} SameRulesAccept(rs: seq<Rule>, ss: seq<Rule>, q: Query)
    requires SameRules(rs, ss)
    ensures (exists r <- rs :: RuleAccepts(r, q)) ==> exists s <- ss :: RuleAccepts(s, q)
    ensures rs != [] ==> ss != []
  {
    if rs != [] {
      assert HasSameRule(rs[0], ss);
    }
    if r :| r in rs && RuleAccepts(r, q) {
      assert HasSameRule(r, ss);
      var s :| s in ss && SameRule(r, s);
      SameRuleAccepts(r, s, q);
    }
  }

  lemma {:induction false} SamePolicyLets(p: Policy, q: Policy, namespaces: Namespaces, f: Flow, kind: Direction)
    requires SamePolicy(p, q)
    ensures Concerns(p, f, kind) ==> Concerns(q, f, kind)
    ensures Lets(p, namespaces, f, kind) ==> Lets(q, namespaces, f, kind)
  {
    if Self(f, kind).Pod? {
      var ask := Ask(namespaces, f, kind);
      SameRulesAccept(RulesOf(p, kind), RulesOf(q, kind), ask);
      SameRulesAccept(p.egress, q.egress, ask);
    }
  }

  lemma {:induction false} SamePoliciesLet(ps: seq<Policy>, qs: seq<Policy>, namespaces: Namespaces, f: Flow,
                                           kind: Direction)
    requires SamePolicies(ps, qs)
    ensures (exists p <- ps :: Concerns(p, f, kind)) ==> exists q <- qs :: Concerns(q, f, kind)
    ensures (exists p <- ps :: Lets(p, namespaces, f, kind)) ==> exists q <- qs :: Lets(q, namespaces, f, kind)
  {
    if p :| p in ps && Concerns(p, f, kind) {
      assert HasSamePolicy(p, qs);
      var q :| q in qs && SamePolicy(p, q);
      SamePolicyLets(p, q, namespaces, f, kind);
    }
    if p :| p in ps && Lets(p, namespaces, f, kind) {
      assert HasSamePolicy(p, qs);
      var q :| q in qs && SamePolicy(p, q);
      SamePolicyLets(p, q, namespaces, f, kind);
    }
  }

  lemma {:induction false} SameOpen(ps: seq<Policy>, qs: seq<Policy>, namespaces: Namespaces, f: Flow, kind: Direction)
    requires SamePolicies(ps, qs)
    ensures Open(ps, namespaces, f, kind) <==> Open(qs, namespaces, f, kind)
  {
    SamePoliciesLet(ps, qs, namespaces, f, kind);
    SamePoliciesLet(qs, ps, namespaces, f, kind);
  }

  /** The order of policies, of their rules, and of the rules' peers and ports does not change the verdict. */
  lemma {:induction false} OrderDoesNotMatter(ps: seq<Policy>, qs: seq<Policy>, namespaces: Namespaces, f: Flow)
    requires SamePolicies(ps, qs)
    ensures Evaluate(ps, namespaces, f).passes <==> Evaluate(qs, namespaces, f).passes
  {
    EvaluateIff(ps, namespaces, f);
    EvaluateIff(qs, namespaces, f);
    SameOpen(ps, qs, namespaces, f, Egress);
    SameOpen(ps, qs, namespaces, f, Ingress);
  }

  /** A permutation of the policies is a case of it. */
  lemma {:induction false} PermutedPolicies(ps: seq<Policy>, qs: seq<Policy>, namespaces: Namespaces, f: Flow)
    requires multiset(ps) == multiset(qs)
    ensures Evaluate(ps, namespaces, f).passes <==> Evaluate(qs, namespaces, f).passes
  {
    SameElements(ps, qs);
    forall p: Policy ensures SamePolicy(p, p) {
      assert forall r: Rule :: SameRule(r, r);
    }
    OrderDoesNotMatter(ps, qs, namespaces, f);
  }

  // ---------------------------------------------------------------- adding a policy

  /** A policy newly isolates an end that it does not let the flow through. */
  ghost predicate Shuts(p: Policy, ps: seq<Policy>, namespaces: Namespaces, f: Flow, kind: Direction) {
    Concerns(p, f, kind) && !Lets(p, namespaces, f, kind) && forall q <- ps :: !Concerns(q, f, kind)
  }

  lemma {:induction false} AddingOpens(ps: seq<Policy>, p: Policy, namespaces: Namespaces, f: Flow, kind: Direction)
    requires Open(ps, namespaces, f, kind)
    ensures Open(ps + [p], namespaces, f, kind) <==> !Shuts(p, ps, namespaces, f, kind)
  {
    var all := ps + [p];
    assert forall q :: q in all <==> q in ps || q == p;
    assert all[|ps|] == p;
    if q :| q in ps && Lets(q, namespaces, f, kind) {
      assert q in all;
    }
  }

  /**
    Adding a policy turns "passes" into "blocked" exactly when it is the first to isolate an end of the flow
    and does not itself let the flow through; so never for a pod that is already isolated.
    */
  lemma {:induction false} AddingAPolicy(ps: seq<Policy>, p: Policy, namespaces: Namespaces, f: Flow)
    requires Evaluate(ps, namespaces, f).passes
    ensures Evaluate(ps + [p], namespaces, f).passes <==>
            !Shuts(p, ps, namespaces, f, Egress) && !Shuts(p, ps, namespaces, f, Ingress)
  {
    EvaluateIff(ps, namespaces, f);
    EvaluateIff(ps + [p], namespaces, f);
    AddingOpens(ps, p, namespaces, f, Egress);
    AddingOpens(ps, p, namespaces, f, Ingress);
  }

  /** A policy that isolates neither end changes nothing, the named policies included. */
  lemma {:induction false} IrrelevantPolicy(ps: seq<Policy>, p: Policy, namespaces: Namespaces, f: Flow)
    requires !Concerns(p, f, Egress) && !Concerns(p, f, Ingress)
    ensures Evaluate(ps + [p], namespaces, f) == Evaluate(ps, namespaces, f)
  {
    IrrelevantSide(ps, p, namespaces, f, Egress);
    IrrelevantSide(ps, p, namespaces, f, Ingress);
  }

  lemma {:induction false} IrrelevantSide(ps: seq<Policy>, p: Policy, namespaces: Namespaces, f: Flow, kind: Direction)
    requires !Concerns(p, f, kind)
    ensures Side(ps + [p], namespaces, f, kind) == Side(ps, namespaces, f, kind)
  {
    if Self(f, kind).Pod? {
      SelectingSame(ps, p, Self(f, kind).namespace, Self(f, kind).labels, kind);
    }
  }

  lemma {:induction false} SelectingSame(ps: seq<Policy>, p: Policy, ns: string, labels: Labels, kind: Direction)
    requires !Isolates(p, ns, labels, kind)
    ensures Selecting(ps + [p], ns, labels, kind) == Selecting(ps, ns, labels, kind)
  {
    if ps == [] {
      assert ps + [p] == [p];
      TypesIff(p, kind);
      SelectsIff(p.podSelector, labels);
    } else {
      SelectingSame(ps[1..], p, ns, labels, kind);
      assert (ps + [p])[1..] == ps[1..] + [p];
    }
  }

  /** One more rule in a direction the policy already covers never turns "passes" into "blocked". */
  lemma {:induction false} AddingARule(before: seq<Policy>, p: Policy, after: seq<Policy>, kind: Direction, r: Rule,
                                       namespaces: Namespaces, f: Flow)
    requires Covers(p, kind) && Evaluate(before + [p] + after, namespaces, f).passes
    ensures var p' := if kind == Ingress then p.(ingress := p.ingress + [r]) else p.(egress := p.egress + [r]);
            Evaluate(before + [p'] + after, namespaces, f).passes
  {
    var p' := if kind == Ingress then p.(ingress := p.ingress + [r]) else p.(egress := p.egress + [r]);
    var ps, ps' := before + [p] + after, before + [p'] + after;
    EvaluateIff(ps, namespaces, f);
    EvaluateIff(ps', namespaces, f);
    forall side: Direction ensures Open(ps, namespaces, f, side) ==> Open(ps', namespaces, f, side) {
      assert Concerns(p', f, side) <==> Concerns(p, f, side);
      assert Lets(p, namespaces, f, side) ==> Lets(p', namespaces, f, side);
      ReplacedOpens(before, p, p', after, namespaces, f, side);
    }
  }

  lemma {:induction false} ReplacedOpens(before: seq<Policy>, p: Policy, p': Policy, after: seq<Policy>,
                                         namespaces: Namespaces, f: Flow, kind: Direction)
    requires Concerns(p', f, kind) <==> Concerns(p, f, kind)
    requires Lets(p, namespaces, f, kind) ==> Lets(p', namespaces, f, kind)
    requires Open(before + [p] + after, namespaces, f, kind)
    ensures Open(before + [p'] + after, namespaces, f, kind)
  {
    var ps, ps' := before + [p] + after, before + [p'] + after;
    assert forall q :: q in ps <==> q in before || q == p || q in after;
    assert forall q :: q in ps' <==> q in before || q == p' || q in after;
    if exists q <- ps' :: Concerns(q, f, kind) {
      var q :| q in ps' && Concerns(q, f, kind);
      var q' := if q == p' && q !in before && q !in after then p else q;
      assert q' in ps && Concerns(q', f, kind);
      var l :| l in ps && Lets(l, namespaces, f, kind);
      var l' := if l == p && l !in before && l !in after then p' else l;
      assert l' in ps' && Lets(l', namespaces, f, kind);
    }
  }
}
