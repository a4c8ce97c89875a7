/**
  The compiled network policy in numbers (nix/prison/ruleset.nix:42-176): which
  addresses a block holds, which are private, and which configurations are refused.
*/
module RulesetNumbers {
  import opened Wrappers
  import opened Ruleset

  // ---- Address blocks ----

  lemma {:induction false} Pow2Adds(a: nat, b: nat)
    ensures Pow2(a + b) == Pow2(a) * Pow2(b)
    decreases a
  {
    if a > 0 {
      Pow2Adds(a - 1, b);
      assert Pow2(a + b) == 2 * Pow2(a - 1 + b);
    }
  }

  lemma SmallPowers()
    ensures Pow2(1) == 2 && Pow2(4) == 0x10 && Pow2(8) == 0x100 && Pow2(16) == 0x1_0000
  {
    assert Pow2(2) == 4 && Pow2(3) == 8;
    Pow2Adds(4, 4);
    Pow2Adds(8, 8);
  }

  lemma Powers()
    ensures Pow2(8) == 0x100 && Pow2(16) == 0x1_0000 && Pow2(20) == 0x10_0000
    ensures Pow2(22) == 0x40_0000 && Pow2(24) == 0x100_0000 && Pow2(28) == 0x1000_0000
  {
    SmallPowers();
    assert Pow2(2) == 4;
    hide Pow2;
    Pow2Adds(16, 4);
    Pow2Adds(20, 2);
    Pow2Adds(16, 8);
    Pow2Adds(24, 4);
  }

  lemma LargePowers()
    ensures Pow2(118) == 0x40_0000_0000_0000_0000_0000_0000_0000
    ensures Pow2(121) == 0x200_0000_0000_0000_0000_0000_0000_0000
  {
    SmallPowers();
    Powers();
    hide Pow2;
    Pow2Adds(16, 16);
    Pow2Adds(32, 32);
    Pow2Adds(64, 32);
    Pow2Adds(96, 22);
    Pow2Adds(96, 24);
    Pow2Adds(120, 1);
  }

  lemma QuotientIs(d: nat, q: nat, size: nat)
    requires size > 0
    ensures d / size == q <==> q * size <= d < q * size + size
  {
    var k, r := d / size, d % size;
    assert d == k * size + r;
    if k < q {
      Monotone(k + 1, q, size);
      Spread(k, size);
    } else if k > q {
      Monotone(q + 1, k, size);
      Spread(q, size);
    }
  }

  lemma Monotone(a: nat, b: nat, size: nat)
    requires a <= b
    ensures a * size <= b * size
  {}

  lemma Spread(a: nat, size: nat)
    ensures (a + 1) * size == a * size + size
  {}

  lemma SameQuotient(a: nat, d: nat, size: nat)
    requires size > 0
    ensures a % size <= a
    ensures d / size == a / size <==> a - a % size <= d < a - a % size + size
  {
    QuotientIs(d, a / size, size);
    assert a == a / size * size + a % size;
  }

  /** A block of `bits` bits holds the addresses that agree with it in those, and one with too many bits holds none. */
  lemma BlockIsRange(c: Cidr, d: nat)
    ensures var width := if c.v6 then 128 else 32;
      if c.bits > width then !Covers(c, d)
      else
        var size := Pow2(width - c.bits);
        var first := c.address - c.address % size;
        Covers(c, d) <==> first <= d < first + size
  {
    var width := if c.v6 then 128 else 32;
    if c.bits <= width {
      hide Pow2;
      SameQuotient(c.address, d, Pow2(width - c.bits));
    }
  }

  lemma BlockFrom(c: Cidr, first: nat, size: nat, d: nat)
    requires c.address == first && c.bits <= (if c.v6 then 128 else 32)
    requires size == Pow2((if c.v6 then 128 else 32) - c.bits) && first % size == 0
    ensures Covers(c, d) <==> first <= d < first + size
  {
    BlockIsRange(c, d);
    hide Covers, Pow2;
  }

  // ---- Private addresses ----

  /** The ranges that are not the public internet. */
  predicate PrivateAddress(v6: bool, d: nat) {
    if v6 then
      || 0xfc00_0000_0000_0000_0000_0000_0000_0000 <= d < 0xfe00_0000_0000_0000_0000_0000_0000_0000
      || 0xfe80_0000_0000_0000_0000_0000_0000_0000 <= d < 0xfec0_0000_0000_0000_0000_0000_0000_0000
    else
      || 0x0000_0000 <= d < 0x0100_0000
      || 0x0a00_0000 <= d < 0x0b00_0000
      || 0x6440_0000 <= d < 0x6480_0000
      || 0x7f00_0000 <= d < 0x8000_0000
      || 0xa9fe_0000 <= d < 0xa9ff_0000
      || 0xac10_0000 <= d < 0xac20_0000
      || 0xc000_0200 <= d < 0xc000_0300
      || 0xc0a8_0000 <= d < 0xc0a9_0000
      || 0xc633_6400 <= d < 0xc633_6500
      || 0xcb00_7100 <= d < 0xcb00_7200
      || 0xe000_0000 <= d < 0xf000_0000
      || 0xf000_0000 <= d < 0x1_0000_0000
  }

  lemma CoversFirst(c: Cidr, more: seq<Cidr>, d: nat)
    ensures AnyCovers([c] + more, d) <==> Covers(c, d) || AnyCovers(more, d)
  {
    hide Covers;
    var cs := [c] + more;
    assert cs[0] == c && forall k | 0 <= k < |more| :: cs[k + 1] == more[k];
  }

  lemma BlockV4(a: nat, b: nat, c: nat, bits: nat, first: nat, size: nat, more: seq<Cidr>, d: nat)
    requires ((a * 256 + b) * 256 + c) * 256 == first && bits <= 32 && size == Pow2(32 - bits) && first % size == 0
    ensures AnyCovers([V4(a, b, c, bits)] + more, d) <==> first <= d < first + size || AnyCovers(more, d)
  {
    CoversFirst(V4(a, b, c, bits), more, d);
    BlockFrom(V4(a, b, c, bits), first, size, d);
    hide Covers, AnyCovers, Pow2;
  }

  lemma FirstBlocks(more: seq<Cidr>, d: nat)
    ensures AnyCovers([V4(0, 0, 0, 8), V4(127, 0, 0, 8), V4(10, 0, 0, 8), V4(172, 16, 0, 12)] + more, d) <==>
            0x0000_0000 <= d < 0x0100_0000
            || 0x7f00_0000 <= d < 0x8000_0000
            || 0x0a00_0000 <= d < 0x0b00_0000
            || 0xac10_0000 <= d < 0xac20_0000
            || AnyCovers(more, d)
  {
    Powers();
    var a, b, c, e := V4(0, 0, 0, 8), V4(127, 0, 0, 8), V4(10, 0, 0, 8), V4(172, 16, 0, 12);
    hide V4, Covers, AnyCovers, Pow2;
    assert [a, b, c, e] + more == [a] + ([b] + ([c] + ([e] + more)));
    BlockV4(172, 16, 0, 12, 0xac10_0000, 0x10_0000, more, d);
    BlockV4(10, 0, 0, 8, 0x0a00_0000, 0x100_0000, [e] + more, d);
    BlockV4(127, 0, 0, 8, 0x7f00_0000, 0x100_0000, [c] + ([e] + more), d);
    BlockV4(0, 0, 0, 8, 0x0000_0000, 0x100_0000, [b] + ([c] + ([e] + more)), d);
  }

  lemma MiddleBlocks(more: seq<Cidr>, d: nat)
    ensures AnyCovers([V4(192, 168, 0, 16), V4(169, 254, 0, 16), V4(100, 64, 0, 10), V4(192, 0, 2, 24)] + more, d) <==>
            0xc0a8_0000 <= d < 0xc0a9_0000
            || 0xa9fe_0000 <= d < 0xa9ff_0000
            || 0x6440_0000 <= d < 0x6480_0000
            || 0xc000_0200 <= d < 0xc000_0300
            || AnyCovers(more, d)
  {
    Powers();
    var a, b, c, e := V4(192, 168, 0, 16), V4(169, 254, 0, 16), V4(100, 64, 0, 10), V4(192, 0, 2, 24);
    hide V4, Covers, AnyCovers, Pow2;
    assert [a, b, c, e] + more == [a] + ([b] + ([c] + ([e] + more)));
    BlockV4(192, 0, 2, 24, 0xc000_0200, 0x100, more, d);
    BlockV4(100, 64, 0, 10, 0x6440_0000, 0x40_0000, [e] + more, d);
    BlockV4(169, 254, 0, 16, 0xa9fe_0000, 0x1_0000, [c] + ([e] + more), d);
    BlockV4(192, 168, 0, 16, 0xc0a8_0000, 0x1_0000, [b] + ([c] + ([e] + more)), d);
  }

  lemma LastBlocks(more: seq<Cidr>, d: nat)
    ensures AnyCovers([V4(198, 51, 100, 24), V4(203, 0, 113, 24), V4(224, 0, 0, 4), V4(240, 0, 0, 4)] + more, d) <==>
            0xc633_6400 <= d < 0xc633_6500
            || 0xcb00_7100 <= d < 0xcb00_7200
            || 0xe000_0000 <= d < 0xf000_0000
            || 0xf000_0000 <= d < 0x1_0000_0000
            || AnyCovers(more, d)
  {
    Powers();
    var a, b, c, e := V4(198, 51, 100, 24), V4(203, 0, 113, 24), V4(224, 0, 0, 4), V4(240, 0, 0, 4);
    hide V4, Covers, AnyCovers, Pow2;
    assert [a, b, c, e] + more == [a] + ([b] + ([c] + ([e] + more)));
    BlockV4(240, 0, 0, 4, 0xf000_0000, 0x1000_0000, more, d);
    BlockV4(224, 0, 0, 4, 0xe000_0000, 0x1000_0000, [e] + more, d);
    BlockV4(203, 0, 113, 24, 0xcb00_7100, 0x100, [c] + ([e] + more), d);
    BlockV4(198, 51, 100, 24, 0xc633_6400, 0x100, [b] + ([c] + ([e] + more)), d);
  }

  lemma PrivateV4Is(d: nat)
    ensures AnyCovers(PRIVATE_V4, d) <==> PrivateAddress(false, d)
  {
    NothingCovers(d);
    var last := [V4(198, 51, 100, 24), V4(203, 0, 113, 24), V4(224, 0, 0, 4), V4(240, 0, 0, 4)];
    var middle := [V4(192, 168, 0, 16), V4(169, 254, 0, 16), V4(100, 64, 0, 10), V4(192, 0, 2, 24)];
    var first := [V4(0, 0, 0, 8), V4(127, 0, 0, 8), V4(10, 0, 0, 8), V4(172, 16, 0, 12)];
    assert PRIVATE_V4 == first + (middle + (last + []));
    hide V4, Covers, AnyCovers;
    LastBlocks([], d);
    MiddleBlocks(last + [], d);
    FirstBlocks(middle + (last + []), d);
  }

  lemma PrivateV6Is(d: nat)
    ensures AnyCovers(PRIVATE_V6, d) <==> PrivateAddress(true, d)
  {
    LargePowers();
    NothingCovers(d);
    var ula, local := PRIVATE_V6[0], PRIVATE_V6[1];
    assert PRIVATE_V6 == [ula] + [local] && [local] + [] == [local];
    BlockFrom(ula, 0xfc00_0000_0000_0000_0000_0000_0000_0000, 0x200_0000_0000_0000_0000_0000_0000_0000, d);
    BlockFrom(local, 0xfe80_0000_0000_0000_0000_0000_0000_0000, 0x40_0000_0000_0000_0000_0000_0000_0000, d);
    hide Covers, AnyCovers, Pow2;
    CoversFirst(ula, [local], d);
    CoversFirst(local, [], d);
  }

  // ---- Internet mode ----

  /** Neighbour discovery: ICMPv6 with hop limit 255, of type 133, 135 or 136. */
  predicate NeighbourDiscovery(p: Packet) {
    p.v6 && p.hopLimit == 255 && p.l4 == Icmp6 && (p.icmpType == 133 || p.icmpType == 135 || p.icmpType == 136)
  }

  /** One of the ports the policy narrows the internet to, or any if it does not. */
  predicate PublicPort(c: Config, p: Packet) {
    c.publicPorts == [] ||
    exists e | e in c.publicPorts ::
      p.port == e.port && p.l4 == if e.protocol == Some("udp") then Udp else Tcp
  }

  lemma PublicPortIs(c: Config, p: Packet)
    requires Compile(c).Some? && c.mode == "internet"
    ensures OnPublicPort(c, p) <==> PublicPort(c, p)
  {
    CompilesIffOk(c);
    hide Compile, LoopbackOk;
    forall e | e in c.publicPorts
      ensures OnPort(e, p) <==> p.port == e.port && p.l4 == if e.protocol == Some("udp") then Udp else Tcp
    {
      assert EntryOk(e);
    }
    hide OnPort;
  }

  /**
    In mode `internet` a new flow that is not for a resolver, a target or a LAN entry
    is dropped if its address is private, and otherwise accepted exactly on a public
    port; neighbour discovery is accepted.
  */
  lemma InternetFlow(c: Config, p: Packet)
    requires Compile(c).Some? && c.mode == "internet"
    requires !p.toLo && p.state == New && !ToResolver(c, p) && !ToTarget(c, p) && !ToLan(c, p)
    ensures Verdictive(Compile(c).value.output, p) ==
            if NeighbourDiscovery(p) then Accept
            else if PrivateAddress(p.v6, p.destination) then Drop
            else if PublicPort(c, p) then Accept else Drop
  {
    hide *;
    OutputIsMeaning(c, p);
    PublicPortIs(c, p);
    if p.v6 {
      PrivateV6Is(p.destination);
    } else {
      PrivateV4Is(p.destination);
    }
    FlowMeaning(c, p);
  }

  lemma FlowMeaning(c: Config, p: Packet)
    requires c.mode == "internet" && !p.toLo && p.state == New && !ToResolver(c, p) && !ToTarget(c, p) && !ToLan(c, p)
    ensures OutputMeaning(c, p) ==
            if NeighbourDiscovery(p) then Accept
            else if AnyCovers(if p.v6 then PRIVATE_V6 else PRIVATE_V4, p.destination) then Drop
            else if OnPublicPort(c, p) then Accept else Drop
  {
    hide AnyCovers, OnPublicPort, ToResolver, ToTarget, ToLan;
  }

  // ---- Which configurations are refused ----

  predicate PortInNumbers(e: PortEntry) {
    1 <= e.port <= 65535 && (e.protocol == None || e.protocol == Some("tcp") || e.protocol == Some("udp"))
  }

  predicate ClientsInNumbers(clients: seq<int>) {
    clients != [] && forall uid <- clients :: uid >= 1
  }

  /** What tells two declared ports apart: the number, and whether it is UDP. */
  ghost predicate PortsApart(ports: seq<LoopbackPort>) {
    forall i, j :: 0 <= i < j < |ports| ==>
      ports[i].entry.port != ports[j].entry.port ||
      (ports[i].entry.protocol == Some("udp")) != (ports[j].entry.protocol == Some("udp"))
  }

  /** A single address of 127.0.0.0/8 other than 127.0.0.1. */
  predicate SourceInNumbers(a: Cidr) {
    !a.v6 && a.bits == 32 && 0x7f00_0000 <= a.address < 0x8000_0000 && a.address != 0x7f00_0001
  }

  ghost predicate LoopbackInNumbers(l: Loopback) {
    && (forall p <- l.ports :: PortInNumbers(p.entry) && ClientsInNumbers(p.clients))
    && (forall s <- l.sources :: SourceInNumbers(s.address) && ClientsInNumbers(s.clients))
    && PortsApart(l.ports)
  }

  lemma LoopbackOkInNumbers(l: Loopback)
    ensures LoopbackOk(l) <==> LoopbackInNumbers(l)
  {
    forall s | s in l.sources
      ensures SourceOk(s) <==> SourceInNumbers(s.address) && ClientsInNumbers(s.clients)
    {}
    forall p | p in l.ports
      ensures EntryOk(p.entry) <==> PortInNumbers(p.entry)
      ensures ClientsOk(p.clients) <==> ClientsInNumbers(p.clients)
    {}
    hide SourceOk, SourceInNumbers, ClientsOk, ClientsInNumbers;
    if forall p <- l.ports :: PortInNumbers(p.entry) {
      forall i, j | 0 <= i < j < |l.ports|
        ensures Key(l.ports[i].entry) != Key(l.ports[j].entry) <==>
                || l.ports[i].entry.port != l.ports[j].entry.port
                || (l.ports[i].entry.protocol == Some("udp")) != (l.ports[j].entry.protocol == Some("udp"))
      {
        assert PortInNumbers(l.ports[i].entry) && PortInNumbers(l.ports[j].entry);
      }
    }
    hide EntryOk, PortInNumbers, Key;
  }

  /**
    A configuration is compiled exactly if its mode is one of the four, it narrows
    ports only in mode `internet`, every port is 1 to 65535 over tcp or udp, every
    list of clients is nonempty and of positive uids, reserved sources are single
    loopback addresses but 127.0.0.1, and no loopback port is declared twice.
  */
  lemma CompilesIff(c: Config)
    ensures Compile(c).Some? <==>
            && (c.mode == "none" || c.mode == "targets" || c.mode == "internet" || c.mode == "unrestricted")
            && (c.publicPorts != [] ==> c.mode == "internet")
            && (forall e <- c.publicPorts :: PortInNumbers(e))
            && (c.loopback.Some? ==> LoopbackInNumbers(c.loopback.value))
  {
    CompilesIffOk(c);
    hide Compile, LoopbackOk, LoopbackInNumbers;
    if c.loopback.Some? {
      LoopbackOkInNumbers(c.loopback.value);
    }
    forall e | e in c.publicPorts
      ensures EntryOk(e) <==> PortInNumbers(e)
    {}
    hide EntryOk, PortInNumbers;
  }
}
