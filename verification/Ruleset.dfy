/**
  The prison's network policy compiler (nix/prison/ruleset.nix): a declared policy,
  the rule lists it is compiled to, what each means for a packet, and that both
  mean the same. Addresses are numbers here, not text.
*/
module Ruleset {
  import opened Wrappers

  // ---- Packets ----

  datatype L4 = Tcp | Udp | Icmp6 | OtherL4

  datatype State = New | Established | Related | Invalid | Untracked

  /** `toLo` and `fromLo`: leaving or arriving by the loopback interface; `uid`: owner of the sending socket, if any. */
  datatype Packet = Packet(
    fromLo: bool, toLo: bool, v6: bool, source: nat, destination: nat,
    l4: L4, port: int, icmpType: nat, hopLimit: nat, state: State, uid: Option<int>)

  datatype Verdict = Accept | Drop | Reject(tcpReset: bool)

  // ---- The declared policy ----

  /** An address block; a single address has all its bits. */
  datatype Cidr = Cidr(v6: bool, address: nat, bits: nat)

  datatype Listen = Listen(address: Option<Cidr>, port: int)

  datatype Target = Target(address: Cidr, l4: L4, port: int)

  /** A port as configured; the protocol is `tcp` unless given. */
  datatype PortEntry = PortEntry(port: int, protocol: Option<string>)

  datatype LoopbackPort = LoopbackPort(entry: PortEntry, clients: seq<int>)

  datatype LoopbackSource = LoopbackSource(address: Cidr, clients: seq<int>)

  datatype Loopback = Loopback(ports: seq<LoopbackPort>, sources: seq<LoopbackSource>)

  datatype Config = Config(
    tcp: seq<Listen>, udp: seq<Listen>, mode: string, targets: seq<Target>, lan: seq<Cidr>,
    publicPorts: seq<PortEntry>, resolvers: seq<Cidr>, loopback: Option<Loopback>)

  function Pow2(n: nat): (p: nat)
    ensures p > 0
  {
    if n == 0 then 1 else 2 * Pow2(n - 1)
  }

  predicate Covers(c: Cidr, address: nat) {
    var width := if c.v6 then 128 else 32;
    c.bits <= width && address / Pow2(width - c.bits) == c.address / Pow2(width - c.bits)
  }

  predicate AnyCovers(cs: seq<Cidr>, address: nat) {
    exists c | c in cs :: Covers(c, address)
  }

  function V4(a: nat, b: nat, c: nat, bits: nat): Cidr {
    Cidr(false, ((a * 256 + b) * 256 + c) * 256, bits)
  }

  const PRIVATE_V4 := [
    V4(0, 0, 0, 8), V4(127, 0, 0, 8), V4(10, 0, 0, 8), V4(172, 16, 0, 12), V4(192, 168, 0, 16),
    V4(169, 254, 0, 16), V4(100, 64, 0, 10), V4(192, 0, 2, 24), V4(198, 51, 100, 24), V4(203, 0, 113, 24),
    V4(224, 0, 0, 4), V4(240, 0, 0, 4)]

  const PRIVATE_V6 := [
    Cidr(true, 0xfc00_0000_0000_0000_0000_0000_0000_0000, 7),
    Cidr(true, 0xfe80_0000_0000_0000_0000_0000_0000_0000, 10)]

  // ---- What a policy must satisfy ----

  function Protocol(e: PortEntry): string {
    if e.protocol.Some? then e.protocol.value else "tcp"
  }

  predicate EntryOk(e: PortEntry) {
    1 <= e.port <= 65535 && (Protocol(e) == "tcp" || Protocol(e) == "udp")
  }

  predicate ClientsOk(clients: seq<int>) {
    clients != [] && forall uid <- clients :: uid > 0
  }

  predicate SourceOk(s: LoopbackSource) {
    && !s.address.v6 && s.address.bits == 32
    && s.address.address / 0x100_0000 == 127
    && s.address.address != 0x7f00_0001
    && ClientsOk(s.clients)
  }

  /** What tells two port entries apart. */
  function Key(e: PortEntry): (string, int) {
    (Protocol(e), e.port)
  }

  ghost predicate KeysDiffer(ports: seq<LoopbackPort>) {
    forall i, j :: 0 <= i < j < |ports| ==> Key(ports[i].entry) != Key(ports[j].entry)
  }

  ghost predicate LoopbackOk(l: Loopback) {
    && (forall p <- l.ports :: EntryOk(p.entry) && ClientsOk(p.clients))
    && (forall s <- l.sources :: SourceOk(s))
    && KeysDiffer(l.ports)
  }

  ghost predicate PolicyOk(c: Config) {
    && c.mode in {"none", "targets", "internet", "unrestricted"}
    && (c.publicPorts != [] ==> c.mode == "internet")
    && (forall e <- c.publicPorts :: EntryOk(e))
    && (c.loopback.Some? ==> LoopbackOk(c.loopback.value))
  }

  // ---- What a policy means ----

  predicate ListensFor(l: Listen, p: Packet) {
    p.port == l.port && (l.address.Some? ==> p.v6 == l.address.value.v6 && Covers(l.address.value, p.destination))
  }

  /** A port published to the world. */
  predicate Published(c: Config, p: Packet) {
    || (p.l4 == Tcp && exists l | l in c.tcp :: ListensFor(l, p))
    || (p.l4 == Udp && exists l | l in c.udp :: ListensFor(l, p))
  }

  /** Link control that IPv6 cannot do without. */
  predicate Neighbourly(p: Packet, types: set<nat>) {
    p.v6 && p.hopLimit == 255 && p.l4 == Icmp6 && p.icmpType in types
  }

  predicate OnGoing(p: Packet) {
    p.state == Established || p.state == Related
  }

  ghost function InputMeaning(c: Config, p: Packet): Verdict {
    if p.fromLo || Neighbourly(p, {134, 135, 136}) || OnGoing(p) || (p.state != Invalid && Published(c, p))
    then Accept else Drop
  }

  predicate ToResolver(c: Config, p: Packet) {
    !p.v6 && AnyCovers(c.resolvers, p.destination) && (p.l4 == Tcp || p.l4 == Udp) && p.port == 53
  }

  predicate ToTarget(c: Config, p: Packet) {
    exists t | t in c.targets ::
      p.v6 == t.address.v6 && Covers(t.address, p.destination) && p.l4 == t.l4 && p.port == t.port
  }

  predicate ToLan(c: Config, p: Packet) {
    exists a | a in c.lan :: p.v6 == a.v6 && Covers(a, p.destination)
  }

  predicate ToPrivate(p: Packet) {
    AnyCovers(if p.v6 then PRIVATE_V6 else PRIVATE_V4, p.destination)
  }

  function Speaks(e: PortEntry): L4 {
    if Protocol(e) == "tcp" then Tcp else Udp
  }

  predicate OnPort(e: PortEntry, p: Packet) {
    p.l4 == Speaks(e) && p.port == e.port
  }

  predicate OnPublicPort(c: Config, p: Packet) {
    c.publicPorts == [] || exists e | e in c.publicPorts :: OnPort(e, p)
  }

  /** Where the mode lets a new flow go. */
  predicate EgressAllows(c: Config, p: Packet) {
    match c.mode
    case "none" => false
    case "targets" => ToTarget(c, p)
    case "internet" => ToTarget(c, p) || ToLan(c, p) || (!ToPrivate(p) && OnPublicPort(c, p))
    case _ => true
  }

  /** A reserved source address is in use by somebody else. */
  predicate Barred(l: Loopback, p: Packet) {
    p.uid.Some? && exists s | s in l.sources ::
      !p.v6 && Covers(s.address, p.source) && p.uid.value !in s.clients
  }

  predicate Declared(l: Loopback, p: Packet) {
    exists e | e in l.ports :: OnPort(e.entry, p)
  }

  predicate Admitted(l: Loopback, p: Packet) {
    p.uid.Some? && exists e | e in l.ports :: OnPort(e.entry, p) && p.uid.value in e.clients
  }

  ghost function LoopbackMeaning(c: Config, l: Loopback, p: Packet): Verdict {
    if p.uid == Some(0) then Accept
    else if Barred(l, p) then Reject(false)
    else if (if Declared(l, p) then Admitted(l, p) else Published(c, p)) then Accept
    else Reject(p.l4 == Tcp)
  }

  ghost function OutputMeaning(c: Config, p: Packet): Verdict {
    if p.toLo then
      if c.loopback.Some? && p.state == New then LoopbackMeaning(c, c.loopback.value, p) else Accept
    else if Neighbourly(p, {133, 135, 136}) || OnGoing(p) ||
            (p.state != Invalid && (ToResolver(c, p) || EgressAllows(c, p)))
    then Accept else Drop
  }

  // ---- Rules ----

  datatype Match =
    | FromLo | ToLo | NotFromLo | NotToLo
    | HopLimit(n: nat) | IcmpType(types: set<nat>)
    | CtState(states: set<State>)
    | Source(v6: bool, address: Cidr)
    | Destination(v6: bool, addresses: seq<Cidr>)
    | AnyDestination(v6: bool)
    | Port(l4: L4, port: int)
    | Layer4(l4: L4)
    | UidIn(uids: seq<int>) | UidNotIn(uids: seq<int>)

  datatype Action = Do(verdict: Verdict) | Jump(chain: seq<Rule>)

  datatype Rule = Rule(matches: seq<Match>, action: Action)

  /** A packet with no socket has no uid to compare, and matches neither uid test. */
  predicate Holds(m: Match, p: Packet) {
    match m
    case FromLo => p.fromLo
    case ToLo => p.toLo
    case NotFromLo => !p.fromLo
    case NotToLo => !p.toLo
    case HopLimit(n) => p.v6 && p.hopLimit == n
    case IcmpType(types) => p.l4 == Icmp6 && p.icmpType in types
    case CtState(states) => p.state in states
    case Source(v6, address) => p.v6 == v6 && Covers(address, p.source)
    case Destination(v6, addresses) => p.v6 == v6 && AnyCovers(addresses, p.destination)
    case AnyDestination(v6) => p.v6 == v6
    case Port(l4, port) => p.l4 == l4 && p.port == port
    case Layer4(l4) => p.l4 == l4
    case UidIn(uids) => p.uid.Some? && p.uid.value in uids
    case UidNotIn(uids) => p.uid.Some? && p.uid.value !in uids
  }

  predicate AllHold(ms: seq<Match>, p: Packet) {
    if ms == [] then true else Holds(ms[0], p) && AllHold(ms[1..], p)
  }

  /** The first rule that matches decides; a chain that was jumped to and decides nothing falls back. */
  function Evaluate(rules: seq<Rule>, p: Packet): Option<Verdict>
    decreases rules
  {
    if rules == [] then None
    else if !AllHold(rules[0].matches, p) then Evaluate(rules[1..], p)
    else
      match rules[0].action
      case Do(v) => Some(v)
      case Jump(chain) =>
        var inner := Evaluate(chain, p);
        if inner.Some? then inner else Evaluate(rules[1..], p)
  }

  /** A base chain with `policy drop`. */
  function Verdictive(rules: seq<Rule>, p: Packet): Verdict {
    match Evaluate(rules, p)
    case Some(v) => v
    case None => Drop
  }

  // ---- The compiler ----

  function Accepting(matches: seq<Match>): Rule {
    Rule(matches, Do(Accept))
  }

  function TargetRule(t: Target): Rule {
    Accepting([Destination(t.address.v6, [t.address]), Port(t.l4, t.port)])
  }

  function TargetRules(ts: seq<Target>): seq<Rule> {
    if ts == [] then [] else [TargetRule(ts[0])] + TargetRules(ts[1..])
  }

  function ListenRule(l4: L4, l: Listen): Rule {
    Accepting((if l.address.Some? then [Destination(l.address.value.v6, [l.address.value])] else []) + [Port(l4, l.port)])
  }

  function ListenRules(l4: L4, ls: seq<Listen>): seq<Rule> {
    if ls == [] then [] else [ListenRule(l4, ls[0])] + ListenRules(l4, ls[1..])
  }

  function OfFamily(v6: bool, cs: seq<Cidr>): seq<Cidr> {
    if cs == [] then [] else (if cs[0].v6 == v6 then [cs[0]] else []) + OfFamily(v6, cs[1..])
  }

  function LanRules(v6: bool, lan: seq<Cidr>): seq<Rule> {
    var mine := OfFamily(v6, lan);
    if mine == [] then [] else [Accepting([Destination(v6, mine)])]
  }

  function PublicPortRule(v6: bool, e: PortEntry): Rule {
    Accepting([AnyDestination(v6), Port(Speaks(e), e.port)])
  }

  function PublicPortRules(v6: bool, es: seq<PortEntry>): seq<Rule> {
    if es == [] then []
    else [PublicPortRule(v6, es[0])] + PublicPortRules(v6, es[1..])
  }

  function PublicRules(v6: bool, es: seq<PortEntry>): seq<Rule> {
    if es == [] then [Accepting([AnyDestination(v6)])] else PublicPortRules(v6, es)
  }

  function InternetTail(c: Config): seq<Rule> {
    [Rule([Destination(false, PRIVATE_V4)], Do(Drop)), Rule([Destination(true, PRIVATE_V6)], Do(Drop))] +
    (PublicRules(false, c.publicPorts) + PublicRules(true, c.publicPorts))
  }

  /** `None` where the configuration is refused. */
  function EgressRules(c: Config): Option<seq<Rule>> {
    if c.publicPorts != [] && c.mode != "internet" then None
    else if c.mode == "none" then Some([])
    else if c.mode == "targets" then Some(TargetRules(c.targets))
    else if c.mode == "internet" then
      if !PortsOk(c.publicPorts) then None
      else Some(TargetRules(c.targets) + (LanRules(false, c.lan) + (LanRules(true, c.lan) + InternetTail(c))))
    else if c.mode == "unrestricted" then Some([Accepting([AnyDestination(false)]), Accepting([AnyDestination(true)])])
    else None
  }

  function PortsOk(es: seq<PortEntry>): bool {
    if es == [] then true else EntryOk(es[0]) && PortsOk(es[1..])
  }

  /** `lib.unique`: first occurrences, in order. */
  function Unique<T(==, !new)>(xs: seq<T>): (u: seq<T>)
    ensures forall x :: x in u <==> x in xs
    ensures |u| <= |xs|
  {
    if xs == [] then []
    else
      var before := Unique(xs[..|xs| - 1]);
      var last := xs[|xs| - 1];
      assert xs == xs[..|xs| - 1] + [last];
      if last in before then before else before + [last]
  }

  function SourceRules(ss: seq<LoopbackSource>): seq<Rule> {
    if ss == [] then []
    else
      [Rule([Source(false, ss[0].address), UidNotIn(Unique(ss[0].clients))], Do(Reject(false)))] + SourceRules(ss[1..])
  }

  /** Accept the clients, then refuse everybody else. */
  function EntryRules(e: LoopbackPort): seq<Rule> {
    var on := Port(Speaks(e.entry), e.entry.port);
    [Accepting([on, UidIn(Unique(e.clients))]), Rule([on], Do(Reject(Protocol(e.entry) == "tcp")))]
  }

  function LoopbackPortRules(ps: seq<LoopbackPort>): seq<Rule> {
    if ps == [] then [] else EntryRules(ps[0]) + LoopbackPortRules(ps[1..])
  }

  function Keys(ps: seq<LoopbackPort>): seq<(string, int)> {
    if ps == [] then [] else Keys(ps[..|ps| - 1]) + [Key(ps[|ps| - 1].entry)]
  }

  predicate EntriesOk(ps: seq<LoopbackPort>) {
    if ps == [] then true else EntryOk(ps[0].entry) && ClientsOk(ps[0].clients) && EntriesOk(ps[1..])
  }

  predicate SourcesOk(ss: seq<LoopbackSource>) {
    if ss == [] then true else SourceOk(ss[0]) && SourcesOk(ss[1..])
  }

  function PublishedRules(c: Config): seq<Rule> {
    ListenRules(Tcp, c.tcp) + ListenRules(Udp, c.udp)
  }

  function LoopbackTail(c: Config): seq<Rule> {
    PublishedRules(c) + [Rule([Layer4(Tcp)], Do(Reject(true))), Rule([], Do(Reject(false)))]
  }

  function LoopbackChain(c: Config, l: Loopback): seq<Rule> {
    [Accepting([UidIn([0])])] + (SourceRules(l.sources) + (LoopbackPortRules(l.ports) + LoopbackTail(c)))
  }

  predicate LoopbackAccepted(l: Loopback) {
    EntriesOk(l.ports) && SourcesOk(l.sources) && |Unique(Keys(l.ports))| == |Keys(l.ports)|
  }

  datatype Chains = Chains(input: seq<Rule>, output: seq<Rule>, forward: seq<Rule>)

  function InputChain(c: Config): seq<Rule> {
    [Accepting([FromLo]), Accepting([NotFromLo, HopLimit(255), IcmpType({134, 135, 136})]),
     Accepting([CtState({Established, Related})]), Rule([CtState({Invalid})], Do(Drop))] + PublishedRules(c)
  }

  function JumpRules(c: Config): seq<Rule> {
    match c.loopback
    case None => []
    case Some(l) => [Rule([ToLo, CtState({New})], Jump(LoopbackChain(c, l)))]
  }

  function ControlRules(): seq<Rule> {
    [Accepting([ToLo]), Accepting([NotToLo, HopLimit(255), IcmpType({133, 135, 136})]),
     Accepting([CtState({Established, Related})]), Rule([CtState({Invalid})], Do(Drop))]
  }

  function ResolverRules(c: Config): seq<Rule> {
    if c.resolvers == [] then []
    else [Accepting([Destination(false, c.resolvers), Port(Udp, 53)]), Accepting([Destination(false, c.resolvers), Port(Tcp, 53)])]
  }

  function Compile(c: Config): Option<Chains> {
    if c.loopback.Some? && !LoopbackAccepted(c.loopback.value) then None
    else
      match EgressRules(c)
      case None => None
      case Some(egress) =>
        Some(Chains(InputChain(c), JumpRules(c) + (ControlRules() + (ResolverRules(c) + egress)), []))
  }

  // ---- Evaluation, section by section ----

  lemma {:induction false} EvaluateAppend(a: seq<Rule>, b: seq<Rule>, p: Packet)
    ensures Evaluate(a + b, p) == if Evaluate(a, p).Some? then Evaluate(a, p) else Evaluate(b, p)
    decreases |a|
  {
    if a == [] {
      assert a + b == b;
    } else {
      assert (a + b)[1..] == a[1..] + b && (a + b)[0] == a[0];
      EvaluateAppend(a[1..], b, p);
    }
  }

  lemma EvaluateOne(r: Rule, rest: seq<Rule>, p: Packet)
    requires r.action.Do?
    ensures Evaluate([r] + rest, p) == if AllHold(r.matches, p) then Some(r.action.verdict) else Evaluate(rest, p)
  {
    assert ([r] + rest)[1..] == rest;
  }

  lemma Hold1(a: Match, p: Packet)
    ensures AllHold([a], p) <==> Holds(a, p)
  {
    assert [a][1..] == [];
  }

  lemma Hold2(a: Match, b: Match, p: Packet)
    ensures AllHold([a, b], p) <==> Holds(a, p) && Holds(b, p)
  {
    assert [a, b][1..] == [b];
    Hold1(b, p);
  }

  lemma Hold3(a: Match, b: Match, c: Match, p: Packet)
    ensures AllHold([a, b, c], p) <==> Holds(a, p) && Holds(b, p) && Holds(c, p)
  {
    assert [a, b, c][1..] == [b, c];
    Hold2(b, c, p);
  }

  function Decision(accepted: bool): Option<Verdict> {
    if accepted then Some(Accept) else None
  }

  lemma TargetRuleMeans(t: Target, p: Packet)
    ensures AllHold(TargetRule(t).matches, p) <==>
            p.v6 == t.address.v6 && Covers(t.address, p.destination) && p.l4 == t.l4 && p.port == t.port
  {
    hide Covers;
    Hold2(Destination(t.address.v6, [t.address]), Port(t.l4, t.port), p);
    assert [t.address][0] == t.address;
  }

  lemma {:induction false} TargetsMean(ts: seq<Target>, p: Packet)
    ensures Evaluate(TargetRules(ts), p) ==
            Decision(exists t :: t in ts && p.v6 == t.address.v6 && Covers(t.address, p.destination) &&
                                 p.l4 == t.l4 && p.port == t.port)
    decreases |ts|
  {
    hide Covers, AllHold;
    if ts != [] {
      TargetsMean(ts[1..], p);
      TargetRuleMeans(ts[0], p);
      EvaluateOne(TargetRule(ts[0]), TargetRules(ts[1..]), p);
      hide Evaluate;
      assert forall t :: t in ts <==> t == ts[0] || t in ts[1..];
    }
  }

  lemma ListenRuleMeans(l4: L4, l: Listen, p: Packet)
    ensures AllHold(ListenRule(l4, l).matches, p) <==> p.l4 == l4 && ListensFor(l, p)
  {
    hide Covers;
    if l.address.Some? {
      var a := l.address.value;
      Hold2(Destination(a.v6, [a]), Port(l4, l.port), p);
      assert [Destination(a.v6, [a])] + [Port(l4, l.port)] == [Destination(a.v6, [a]), Port(l4, l.port)];
      assert [a][0] == a;
    } else {
      Hold1(Port(l4, l.port), p);
      assert [] + [Port(l4, l.port)] == [Port(l4, l.port)];
    }
  }

  lemma {:induction false} ListensMean(l4: L4, ls: seq<Listen>, p: Packet)
    ensures Evaluate(ListenRules(l4, ls), p) == Decision(p.l4 == l4 && exists l :: l in ls && ListensFor(l, p))
    decreases |ls|
  {
    hide ListensFor, AllHold;
    if ls != [] {
      ListensMean(l4, ls[1..], p);
      ListenRuleMeans(l4, ls[0], p);
      EvaluateOne(ListenRule(l4, ls[0]), ListenRules(l4, ls[1..]), p);
      hide Evaluate;
      assert forall l :: l in ls <==> l == ls[0] || l in ls[1..];
    }
  }

  lemma PublishedMeans(c: Config, p: Packet)
    ensures Evaluate(PublishedRules(c), p) == Decision(Published(c, p))
  {
    hide Evaluate, ListensFor;
    EvaluateAppend(ListenRules(Tcp, c.tcp), ListenRules(Udp, c.udp), p);
    ListensMean(Tcp, c.tcp, p);
    ListensMean(Udp, c.udp, p);
  }

  lemma {:induction false} FamilyMembers(v6: bool, cs: seq<Cidr>)
    ensures forall c :: c in OfFamily(v6, cs) <==> c in cs && c.v6 == v6
    decreases |cs|
  {
    if cs != [] {
      FamilyMembers(v6, cs[1..]);
      assert forall c :: c in cs <==> c == cs[0] || c in cs[1..];
    }
  }

  lemma LanMeans(v6: bool, lan: seq<Cidr>, p: Packet)
    ensures Evaluate(LanRules(v6, lan), p) ==
            Decision(p.v6 == v6 && exists a :: a in lan && a.v6 == v6 && Covers(a, p.destination))
  {
    var mine := OfFamily(v6, lan);
    FamilyMembers(v6, lan);
    hide Covers, OfFamily;
    if mine != [] {
      var r := Accepting([Destination(v6, mine)]);
      EvaluateOne(r, [], p);
      Hold1(Destination(v6, mine), p);
      assert [r] + [] == [r];
      hide Evaluate, AllHold;
    } else {
      hide Evaluate;
      assert Evaluate(LanRules(v6, lan), p) == None by { EvaluateNothing(p); }
      assert forall a | a in lan :: a.v6 == v6 ==> a in mine;
    }
  }

  lemma EvaluateNothing(p: Packet)
    ensures Evaluate([], p) == None
  {}

  lemma PublicPortRuleMeans(v6: bool, e: PortEntry, p: Packet)
    ensures AllHold(PublicPortRule(v6, e).matches, p) <==> p.v6 == v6 && OnPort(e, p)
  {
    Hold2(AnyDestination(v6), Port(Speaks(e), e.port), p);
  }

  lemma {:induction false} PublicPortsMean(v6: bool, es: seq<PortEntry>, p: Packet)
    ensures Evaluate(PublicPortRules(v6, es), p) == Decision(p.v6 == v6 && exists e :: e in es && OnPort(e, p))
    decreases |es|
  {
    hide OnPort, AllHold;
    if es != [] {
      PublicPortsMean(v6, es[1..], p);
      PublicPortRuleMeans(v6, es[0], p);
      EvaluateOne(PublicPortRule(v6, es[0]), PublicPortRules(v6, es[1..]), p);
      hide Evaluate;
      assert forall e :: e in es <==> e == es[0] || e in es[1..];
    }
  }

  lemma PublicMeans(v6: bool, c: Config, p: Packet)
    ensures Evaluate(PublicRules(v6, c.publicPorts), p) == Decision(p.v6 == v6 && OnPublicPort(c, p))
  {
    hide OnPort;
    if c.publicPorts == [] {
      var r := Accepting([AnyDestination(v6)]);
      EvaluateOne(r, [], p);
      Hold1(AnyDestination(v6), p);
      assert [r] + [] == [r];
      hide AllHold;
      EvaluateNothing(p);
      hide Evaluate;
    } else {
      hide Evaluate;
      PublicPortsMean(v6, c.publicPorts, p);
    }
  }

  lemma InternetTailMeans(c: Config, p: Packet)
    ensures Evaluate(InternetTail(c), p) ==
            if ToPrivate(p) then Some(Drop) else Decision(OnPublicPort(c, p))
  {
    hide Evaluate, AllHold, AnyCovers, OnPublicPort;
    var d4, d6 := Rule([Destination(false, PRIVATE_V4)], Do(Drop)), Rule([Destination(true, PRIVATE_V6)], Do(Drop));
    var p4, p6 := PublicRules(false, c.publicPorts), PublicRules(true, c.publicPorts);
    Hold1(Destination(false, PRIVATE_V4), p);
    Hold1(Destination(true, PRIVATE_V6), p);
    PublicMeans(false, c, p);
    PublicMeans(true, c, p);
    EvaluateAppend(p4, p6, p);
    EvaluateOne(d6, p4 + p6, p);
    EvaluateOne(d4, [d6] + (p4 + p6), p);
    assert InternetTail(c) == [d4] + ([d6] + (p4 + p6));
  }

  lemma InternetMeans(c: Config, p: Packet)
    ensures Evaluate(TargetRules(c.targets) + (LanRules(false, c.lan) + (LanRules(true, c.lan) + InternetTail(c))), p) ==
            if ToTarget(c, p) || ToLan(c, p) then Some(Accept)
            else if ToPrivate(p) then Some(Drop) else Decision(OnPublicPort(c, p))
  {
    hide Evaluate, OnPublicPort, InternetTail, LanRules, ToPrivate, Covers;
    var tail := InternetTail(c);
    EvaluateAppend(LanRules(true, c.lan), tail, p);
    EvaluateAppend(LanRules(false, c.lan), LanRules(true, c.lan) + tail, p);
    EvaluateAppend(TargetRules(c.targets), LanRules(false, c.lan) + (LanRules(true, c.lan) + tail), p);
    TargetsMean(c.targets, p);
    LanMeans(false, c.lan, p);
    LanMeans(true, c.lan, p);
    InternetTailMeans(c, p);
  }

  lemma UnrestrictedMeans(p: Packet)
    ensures Evaluate([Accepting([AnyDestination(false)]), Accepting([AnyDestination(true)])], p) == Some(Accept)
  {
    var r4, r6 := Accepting([AnyDestination(false)]), Accepting([AnyDestination(true)]);
    Hold1(AnyDestination(false), p);
    Hold1(AnyDestination(true), p);
    EvaluateOne(r6, [], p);
    EvaluateOne(r4, [r6], p);
    hide AllHold, Evaluate;
    assert [r6] + [] == [r6] && [r4] + [r6] == [r4, r6];
  }

  lemma EgressMeans(c: Config, p: Packet)
    requires EgressRules(c).Some?
    ensures Evaluate(EgressRules(c).value, p) ==
            if EgressAllows(c, p) then Some(Accept)
            else if c.mode == "internet" && ToPrivate(p) then Some(Drop) else None
  {
    hide Evaluate, ToPrivate, OnPublicPort, ToTarget, ToLan, InternetTail, LanRules, PortsOk;
    if c.mode == "none" {
      EvaluateNothing(p);
    } else if c.mode == "targets" {
      TargetsMean(c.targets, p);
      assert ToTarget(c, p) <==> Evaluate(TargetRules(c.targets), p) == Some(Accept) by { TargetsAreTargets(c, p); }
    } else if c.mode == "internet" {
      InternetMeans(c, p);
    } else {
      UnrestrictedMeans(p);
    }
  }

  lemma TargetsAreTargets(c: Config, p: Packet)
    ensures Evaluate(TargetRules(c.targets), p) == Decision(ToTarget(c, p))
  {
    TargetsMean(c.targets, p);
    hide Evaluate, Covers;
  }

  lemma ResolversMean(c: Config, p: Packet)
    ensures Evaluate(ResolverRules(c), p) == Decision(ToResolver(c, p))
  {
    hide AnyCovers, Evaluate, AllHold;
    if c.resolvers == [] {
      EvaluateNothing(p);
      assert !AnyCovers([], p.destination) by { NothingCovers(p.destination); }
    } else {
      var at := Destination(false, c.resolvers);
      var u, t := Accepting([at, Port(Udp, 53)]), Accepting([at, Port(Tcp, 53)]);
      Hold2(at, Port(Udp, 53), p);
      Hold2(at, Port(Tcp, 53), p);
      EvaluateNothing(p);
      EvaluateOne(t, [], p);
      EvaluateOne(u, [t], p);
      assert [t] + [] == [t] && [u] + [t] == [u, t];
    }
  }

  lemma NothingCovers(address: nat)
    ensures !AnyCovers([], address)
  {}

  lemma InputControlMeans(rest: seq<Rule>, p: Packet)
    ensures Evaluate([Accepting([FromLo]), Accepting([NotFromLo, HopLimit(255), IcmpType({134, 135, 136})]),
                      Accepting([CtState({Established, Related})]), Rule([CtState({Invalid})], Do(Drop))] + rest, p) ==
            if p.fromLo || Neighbourly(p, {134, 135, 136}) || OnGoing(p) then Some(Accept)
            else if p.state == Invalid then Some(Drop) else Evaluate(rest, p)
  {
    hide Evaluate, AllHold;
    var lo, nd := Accepting([FromLo]), Accepting([NotFromLo, HopLimit(255), IcmpType({134, 135, 136})]);
    var on, bad := Accepting([CtState({Established, Related})]), Rule([CtState({Invalid})], Do(Drop));
    Hold1(FromLo, p);
    Hold3(NotFromLo, HopLimit(255), IcmpType({134, 135, 136}), p);
    Hold1(CtState({Established, Related}), p);
    Hold1(CtState({Invalid}), p);
    EvaluateOne(bad, rest, p);
    EvaluateOne(on, [bad] + rest, p);
    EvaluateOne(nd, [on] + ([bad] + rest), p);
    EvaluateOne(lo, [nd] + ([on] + ([bad] + rest)), p);
    assert [lo, nd, on, bad] + rest == [lo] + ([nd] + ([on] + ([bad] + rest)));
  }

  lemma OutputControlMeans(rest: seq<Rule>, p: Packet)
    ensures Evaluate(ControlRules() + rest, p) ==
            if p.toLo || Neighbourly(p, {133, 135, 136}) || OnGoing(p) then Some(Accept)
            else if p.state == Invalid then Some(Drop) else Evaluate(rest, p)
  {
    hide Evaluate, AllHold;
    var lo, nd := Accepting([ToLo]), Accepting([NotToLo, HopLimit(255), IcmpType({133, 135, 136})]);
    var on, bad := Accepting([CtState({Established, Related})]), Rule([CtState({Invalid})], Do(Drop));
    Hold1(ToLo, p);
    Hold3(NotToLo, HopLimit(255), IcmpType({133, 135, 136}), p);
    Hold1(CtState({Established, Related}), p);
    Hold1(CtState({Invalid}), p);
    EvaluateOne(bad, rest, p);
    EvaluateOne(on, [bad] + rest, p);
    EvaluateOne(nd, [on] + ([bad] + rest), p);
    EvaluateOne(lo, [nd] + ([on] + ([bad] + rest)), p);
    assert ControlRules() + rest == [lo] + ([nd] + ([on] + ([bad] + rest)));
  }

  // ---- The loopback chain ----

  lemma {:induction false} SourcesMean(ss: seq<LoopbackSource>, p: Packet)
    ensures Evaluate(SourceRules(ss), p) ==
            if p.uid.Some? && exists s :: s in ss && !p.v6 && Covers(s.address, p.source) && p.uid.value !in s.clients
            then Some(Reject(false)) else None
    decreases |ss|
  {
    hide Covers;
    if ss != [] {
      var s := ss[0];
      var m1, m2 := Source(false, s.address), UidNotIn(Unique(s.clients));
      SourcesMean(ss[1..], p);
      EvaluateOne(Rule([m1, m2], Do(Reject(false))), SourceRules(ss[1..]), p);
      Hold2(m1, m2, p);
      hide Evaluate, AllHold;
      assert forall x :: x in ss <==> x == s || x in ss[1..];
    }
  }

  lemma EntryMeans(e: LoopbackPort, p: Packet)
    requires EntryOk(e.entry)
    ensures Evaluate(EntryRules(e), p) ==
            if !OnPort(e.entry, p) then None
            else if p.uid.Some? && p.uid.value in e.clients then Some(Accept) else Some(Reject(p.l4 == Tcp))
  {
    var on, mine := Port(Speaks(e.entry), e.entry.port), UidIn(Unique(e.clients));
    var yes, no := Accepting([on, mine]), Rule([on], Do(Reject(Protocol(e.entry) == "tcp")));
    Hold2(on, mine, p);
    Hold1(on, p);
    hide Evaluate, AllHold;
    EvaluateNothing(p);
    EvaluateOne(no, [], p);
    EvaluateOne(yes, [no], p);
    assert [no] + [] == [no] && [yes] + [no] == [yes, no];
  }

  /** With distinct keys at most one entry is for the packet's port, so the first is the only one. */
  lemma {:induction false} LoopbackPortsMean(ps: seq<LoopbackPort>, p: Packet)
    requires KeysDiffer(ps) && forall e <- ps :: EntryOk(e.entry)
    ensures Evaluate(LoopbackPortRules(ps), p) ==
            if !(exists e :: e in ps && OnPort(e.entry, p)) then None
            else if p.uid.Some? && exists e :: e in ps && OnPort(e.entry, p) && p.uid.value in e.clients then Some(Accept)
            else Some(Reject(p.l4 == Tcp))
    decreases |ps|
  {
    if ps != [] {
      LoopbackPortsMean(ps[1..], p);
      OthersElsewhere(ps, p);
      assert ps[0] in ps;
      hide KeysDiffer, EntryOk, OnPort, EntryRules, Evaluate;
      EntryMeans(ps[0], p);
      EvaluateAppend(EntryRules(ps[0]), LoopbackPortRules(ps[1..]), p);
      assert forall x :: x in ps <==> x == ps[0] || x in ps[1..];
    } else {
      EvaluateNothing(p);
    }
  }

  lemma OthersElsewhere(ps: seq<LoopbackPort>, p: Packet)
    requires ps != [] && KeysDiffer(ps) && (forall e <- ps :: EntryOk(e.entry))
    ensures OnPort(ps[0].entry, p) ==> forall e <- ps[1..] :: !OnPort(e.entry, p)
  {
    if OnPort(ps[0].entry, p) {
      forall e | e in ps[1..]
        ensures !OnPort(e.entry, p)
      {
        var i :| 0 <= i < |ps[1..]| && ps[1..][i] == e;
        assert e == ps[i + 1] && Key(ps[0].entry) != Key(ps[i + 1].entry);
        assert ps[0] in ps && e in ps;
      }
    }
  }

  lemma LoopbackTailMeans(c: Config, p: Packet)
    ensures Evaluate(LoopbackTail(c), p) == Some(if Published(c, p) then Accept else Reject(p.l4 == Tcp))
  {
    hide Evaluate, AllHold, PublishedRules, Published;
    var reset, plain := Rule([Layer4(Tcp)], Do(Reject(true))), Rule([], Do(Reject(false)));
    PublishedMeans(c, p);
    EvaluateAppend(PublishedRules(c), [reset, plain], p);
    Hold1(Layer4(Tcp), p);
    assert AllHold([], p) by { HoldNothing(p); }
    EvaluateOne(plain, [], p);
    EvaluateOne(reset, [plain], p);
    assert [plain] + [] == [plain] && [reset] + [plain] == [reset, plain];
  }

  lemma HoldNothing(p: Packet)
    ensures AllHold([], p)
  {}

  lemma {:induction false} EntriesOkEach(ps: seq<LoopbackPort>)
    ensures EntriesOk(ps) <==> forall p <- ps :: EntryOk(p.entry) && ClientsOk(p.clients)
    decreases |ps|
  {
    hide EntryOk, ClientsOk;
    if ps != [] {
      EntriesOkEach(ps[1..]);
      assert forall x :: x in ps <==> x == ps[0] || x in ps[1..];
    }
  }

  lemma {:induction false} SourcesOkEach(ss: seq<LoopbackSource>)
    ensures SourcesOk(ss) <==> forall s <- ss :: SourceOk(s)
    decreases |ss|
  {
    hide SourceOk;
    if ss != [] {
      SourcesOkEach(ss[1..]);
      assert forall x :: x in ss <==> x == ss[0] || x in ss[1..];
    }
  }

  lemma {:induction false} PortsOkEach(es: seq<PortEntry>)
    ensures PortsOk(es) <==> forall e <- es :: EntryOk(e)
    decreases |es|
  {
    hide EntryOk;
    if es != [] {
      PortsOkEach(es[1..]);
      assert forall x :: x in es <==> x == es[0] || x in es[1..];
    }
  }

  lemma {:induction false} KeysAre(ps: seq<LoopbackPort>)
    ensures |Keys(ps)| == |ps| && forall i :: 0 <= i < |ps| ==> Keys(ps)[i] == Key(ps[i].entry)
    decreases |ps|
  {
    hide Key;
    if ps != [] {
      KeysAre(ps[..|ps| - 1]);
    }
  }

  ghost predicate AllDiffer<T>(xs: seq<T>) {
    forall i, j :: 0 <= i < j < |xs| ==> xs[i] != xs[j]
  }

  /** Nothing is dropped exactly when nothing repeats. */
  lemma {:induction false} UniqueDropsRepeats<T(!new)>(xs: seq<T>)
    ensures |Unique(xs)| == |xs| <==> AllDiffer(xs)
    decreases |xs|
  {
    if xs != [] {
      var before, last := xs[..|xs| - 1], xs[|xs| - 1];
      UniqueDropsRepeats(before);
      if last in before {
        var i :| 0 <= i < |before| && before[i] == last;
        assert xs[i] == xs[|xs| - 1];
      } else if AllDiffer(before) {
        forall i, j | 0 <= i < j < |xs|
          ensures xs[i] != xs[j]
        {
          assert xs[i] == before[i];
          if j < |before| {
            assert xs[j] == before[j];
          } else {
            assert before[i] in before;
          }
        }
      } else {
        var i, j :| 0 <= i < j < |before| && before[i] == before[j];
        assert xs[i] == xs[j];
      }
    }
  }

  lemma LoopbackAcceptedIsOk(l: Loopback)
    ensures LoopbackAccepted(l) <==> LoopbackOk(l)
  {
    hide Unique, EntryOk, ClientsOk, SourceOk, Key;
    EntriesOkEach(l.ports);
    SourcesOkEach(l.sources);
    KeysAre(l.ports);
    UniqueDropsRepeats(Keys(l.ports));
    hide EntriesOk, SourcesOk, Keys;
  }

  /** The chain always decides, so nothing falls back to the rule that accepts all of loopback. */
  lemma LoopbackChainMeans(c: Config, l: Loopback, p: Packet)
    requires LoopbackOk(l)
    ensures Evaluate(LoopbackChain(c, l), p) == Some(LoopbackMeaning(c, l, p))
  {
    hide Evaluate, AllHold, LoopbackTail, Published, Covers, OnPort, KeysDiffer, ClientsOk, EntryOk, SourceOk;
    var root := Accepting([UidIn([0])]);
    Hold1(UidIn([0]), p);
    assert [0][0] == 0 && forall x :: x in [0] ==> x == 0;
    var tail := LoopbackTail(c);
    var ports, sources := LoopbackPortRules(l.ports), SourceRules(l.sources);
    LoopbackTailMeans(c, p);
    LoopbackPortsMean(l.ports, p);
    SourcesMean(l.sources, p);
    hide LoopbackPortRules, SourceRules;
    EvaluateAppend(ports, tail, p);
    EvaluateAppend(sources, ports + tail, p);
    EvaluateOne(root, sources + (ports + tail), p);
  }

  // ---- The compiled chains mean what was declared ----

  /** A policy is compiled exactly when it is well formed. */
  lemma CompilesIffOk(c: Config)
    ensures Compile(c).Some? <==> PolicyOk(c)
  {
    hide LoopbackAccepted, LoopbackOk, EntryOk, PortsOk, JumpRules, InputChain, ResolverRules, InternetTail, LanRules;
    PortsOkEach(c.publicPorts);
    if c.loopback.Some? {
      LoopbackAcceptedIsOk(c.loopback.value);
    }
  }

  lemma InputIsMeaning(c: Config, p: Packet)
    requires Compile(c).Some?
    ensures Verdictive(Compile(c).value.input, p) == InputMeaning(c, p)
  {
    assert Compile(c).value.input == InputChain(c);
    hide Compile, Evaluate, PublishedRules, Published, Neighbourly, OnGoing;
    InputControlMeans(PublishedRules(c), p);
    PublishedMeans(c, p);
  }

  lemma JumpMeans(c: Config, rest: seq<Rule>, p: Packet)
    requires c.loopback.Some? ==> LoopbackOk(c.loopback.value)
    ensures Evaluate(JumpRules(c) + rest, p) ==
            if c.loopback.Some? && p.toLo && p.state == New
            then Some(LoopbackMeaning(c, c.loopback.value, p)) else Evaluate(rest, p)
  {
    hide LoopbackChain, LoopbackMeaning, LoopbackOk, AllHold;
    match c.loopback
    case None => assert JumpRules(c) + rest == rest;
    case Some(l) =>
      Hold2(ToLo, CtState({New}), p);
      LoopbackChainMeans(c, l, p);
      var jump := Rule([ToLo, CtState({New})], Jump(LoopbackChain(c, l)));
      assert JumpRules(c) + rest == [jump] + rest && ([jump] + rest)[1..] == rest;
  }

  /** For every policy that compiles and every packet, first match is the declared meaning. */
  lemma OutputIsMeaning(c: Config, p: Packet)
    requires Compile(c).Some?
    ensures Verdictive(Compile(c).value.output, p) == OutputMeaning(c, p)
  {
    CompilesIffOk(c);
    var egress := EgressRules(c).value;
    assert Compile(c).value.output == JumpRules(c) + (ControlRules() + (ResolverRules(c) + egress));
    EgressMeans(c, p);
    hide *;
    PolicyLoopbackOk(c);
    JumpMeans(c, ControlRules() + (ResolverRules(c) + egress), p);
    OutputControlMeans(ResolverRules(c) + egress, p);
    EvaluateAppend(ResolverRules(c), egress, p);
    ResolversMean(c, p);
    OutputFromParts(c, p, Compile(c).value.output, egress);
  }

  lemma PolicyLoopbackOk(c: Config)
    requires PolicyOk(c)
    ensures c.loopback.Some? ==> LoopbackOk(c.loopback.value)
  {}

  lemma OutputFromParts(c: Config, p: Packet, output: seq<Rule>, egress: seq<Rule>)
    requires Evaluate(egress, p) ==
             if EgressAllows(c, p) then Some(Accept)
             else if c.mode == "internet" && ToPrivate(p) then Some(Drop) else None
    requires Evaluate(output, p) ==
             if c.loopback.Some? && p.toLo && p.state == New then Some(LoopbackMeaning(c, c.loopback.value, p))
             else if p.toLo || Neighbourly(p, {133, 135, 136}) || OnGoing(p) then Some(Accept)
             else if p.state == Invalid then Some(Drop)
             else if ToResolver(c, p) then Some(Accept) else Evaluate(egress, p)
    ensures Verdictive(output, p) == OutputMeaning(c, p)
  {
    hide Evaluate, EgressAllows, ToPrivate, LoopbackMeaning, Neighbourly, OnGoing, ToResolver;
  }

  /** Nothing is routed through a prison. */
  lemma ForwardDropsAll(c: Config, p: Packet)
    requires Compile(c).Some?
    ensures Verdictive(Compile(c).value.forward, p) == Drop
  {
    hide Evaluate;
    EvaluateNothing(p);
  }

  // ---- What follows ----

  /** A new flow to a private address leaves a prison only if that address was named. */
  lemma PrivateMustBeNamed(c: Config, p: Packet)
    requires Compile(c).Some? && c.mode != "unrestricted"
    requires !p.toLo && p.state == New && !Neighbourly(p, {133, 135, 136}) && ToPrivate(p)
    requires Verdictive(Compile(c).value.output, p) == Accept
    ensures ToResolver(c, p) || (c.mode != "none" && ToTarget(c, p)) || (c.mode == "internet" && ToLan(c, p))
  {
    OutputIsMeaning(c, p);
    CompilesIffOk(c);
    hide Compile, Verdictive, ToPrivate, ToResolver, ToTarget, ToLan, OnPublicPort;
  }

  ghost predicate SameEntries(a: Loopback, b: Loopback) {
    && (forall e :: e in a.ports <==> e in b.ports)
    && (forall s :: s in a.sources <==> s in b.sources)
  }

  /** A reordering of the loopback entries is accepted when the original is. */
  lemma ReorderedStillCompiles(c: Config, a: Loopback, b: Loopback)
    requires multiset(a.ports) == multiset(b.ports) && multiset(a.sources) == multiset(b.sources)
    requires Compile(c.(loopback := Some(a))).Some?
    ensures Compile(c.(loopback := Some(b))).Some?
  {
    CompilesIffOk(c.(loopback := Some(a)));
    CompilesIffOk(c.(loopback := Some(b)));
    hide Compile, EntryOk, ClientsOk, SourceOk;
    SameMembers(a.ports, b.ports);
    SameMembers(a.sources, b.sources);
    KeysDifferAnyOrder(a.ports, b.ports);
    hide KeysDiffer;
  }

  lemma SameMembers<T>(a: seq<T>, b: seq<T>)
    requires multiset(a) == multiset(b)
    ensures forall x :: x in a <==> x in b
  {
    assert forall x :: x in a <==> x in multiset(a);
    assert forall x :: x in b <==> x in multiset(b);
  }

  lemma CountedTwice<T>(xs: seq<T>, i: nat, j: nat)
    requires i < j < |xs| && xs[i] == xs[j]
    ensures multiset(xs)[xs[i]] >= 2
  {
    var a, b, c, d := xs[..i], [xs[i]], xs[i + 1..j], xs[j + 1..];
    assert xs == a + b + c + [xs[j]] + d;
    assert multiset(xs) == multiset(a) + multiset(b) + multiset(c) + multiset([xs[j]]) + multiset(d);
  }

  lemma {:induction false} CountedOnce<T>(xs: seq<T>, x: T)
    requires AllDiffer(xs)
    ensures multiset(xs)[x] <= 1
    decreases |xs|
  {
    if xs != [] {
      assert xs == [xs[0]] + xs[1..];
      CountedOnce(xs[1..], x);
      if x == xs[0] {
        assert x !in xs[1..];
        assert x !in multiset(xs[1..]);
      }
    }
  }

  lemma KeysDifferAnyOrder(a: seq<LoopbackPort>, b: seq<LoopbackPort>)
    requires multiset(a) == multiset(b) && KeysDiffer(a)
    ensures KeysDiffer(b)
  {
    hide Key;
    forall i, j | 0 <= i < j < |b|
      ensures Key(b[i].entry) != Key(b[j].entry)
    {
      SameMembers(a, b);
      assert b[i] in a && b[j] in a;
      var m :| 0 <= m < |a| && a[m] == b[i];
      var n :| 0 <= n < |a| && a[n] == b[j];
      if m == n {
        CountedTwice(b, i, j);
        CountedOnce(a, b[i]);
      } else if m < n {
        assert Key(a[m].entry) != Key(a[n].entry);
      } else {
        assert Key(a[n].entry) != Key(a[m].entry);
      }
    }
  }

  /** The order in which loopback ports and sources are declared decides nothing. */
  lemma LoopbackOrderIsIrrelevant(c: Config, a: Loopback, b: Loopback, p: Packet)
    requires multiset(a.ports) == multiset(b.ports) && multiset(a.sources) == multiset(b.sources)
    requires Compile(c.(loopback := Some(a))).Some?
    ensures Compile(c.(loopback := Some(b))).Some?
    ensures Verdictive(Compile(c.(loopback := Some(a))).value.output, p) ==
            Verdictive(Compile(c.(loopback := Some(b))).value.output, p)
  {
    hide *;
    var ca, cb := c.(loopback := Some(a)), c.(loopback := Some(b));
    ReorderedStillCompiles(c, a, b);
    OutputIsMeaning(ca, p);
    OutputIsMeaning(cb, p);
    SameMembers(a.ports, b.ports);
    SameMembers(a.sources, b.sources);
    SameOutputMeaning(c, a, b, p);
  }

  lemma SameOutputMeaning(c: Config, a: Loopback, b: Loopback, p: Packet)
    requires forall e :: e in a.ports <==> e in b.ports
    requires forall s :: s in a.sources <==> s in b.sources
    ensures OutputMeaning(c.(loopback := Some(a)), p) == OutputMeaning(c.(loopback := Some(b)), p)
  {
    SameLoopbackMeaning(c, a, b, p);
    SameEgress(c.(loopback := Some(a)), c.(loopback := Some(b)), p);
    hide LoopbackMeaning, EgressAllows, ToResolver, Neighbourly, OnGoing;
  }

  lemma SameLoopbackMeaning(c: Config, a: Loopback, b: Loopback, p: Packet)
    requires SameEntries(a, b)
    ensures LoopbackMeaning(c.(loopback := Some(a)), a, p) == LoopbackMeaning(c.(loopback := Some(b)), b, p)
  {
    hide Covers, OnPort, ListensFor;
  }

  lemma SameEgress(ca: Config, cb: Config, p: Packet)
    requires ca.loopback.Some? && cb == ca.(loopback := cb.loopback)
    ensures EgressAllows(ca, p) == EgressAllows(cb, p) && ToResolver(ca, p) == ToResolver(cb, p)
  {
    hide Covers, OnPort, AnyCovers;
  }

  /** Declaring one port twice is refused: which entry came first would decide. */
  lemma RepeatedPortIsRefused(c: Config, l: Loopback, i: nat, j: nat)
    requires c.loopback == Some(l) && i < j < |l.ports|
    requires l.ports[i].entry.port == l.ports[j].entry.port
    requires Protocol(l.ports[i].entry) == Protocol(l.ports[j].entry)
    ensures Compile(c).None?
  {
    CompilesIffOk(c);
    hide Compile, EntryOk, ClientsOk, SourceOk;
    assert Key(l.ports[i].entry) == Key(l.ports[j].entry);
  }
}
