/** Static addresses of Incus containers: the least free index is allocated per container
    and mapped to one IPv4 and a block of IPv6 addresses. Proved over every run: recorded
    containers never share an index or an address. */
module Allocator {
  import opened Ipv6
  import opened Numbers
  import opened Wrappers

  const FIRST := 2
  const LAST := 4094

  const NETWORK_V4 := 0x0A5B_0000   // 10.91.0.0
  const GATEWAY_V4 := 0x0A5B_0001   // 10.91.0.1

  /** fd91:cafe:cafe:10::/112 without its last two bytes. */
  const ULA: seq<Byte> := [0xfd, 0x91, 0xca, 0xfe, 0xca, 0xfe, 0, 0x10, 0, 0, 0, 0, 0, 0]

  datatype Mode = SubnetMode | SnatMode | OtherMode

  /** A parsed CIDR with its host bits cleared. */
  datatype Prefix = Prefix(base: Addr, bits: nat)

  /** `subnet` is None when the text does not parse; `hostAddr` None when it is empty. */
  datatype Config = Config(mode: Mode, subnet: Option<Prefix>, hostAddr: Option<Addr>, alloc: nat, ipv6Only: bool)

  function Size(p: Prefix): nat {
    Pow2(if p.bits <= 128 then 128 - p.bits else 0)
  }

  predicate Contains(p: Prefix, a: Addr) {
    a.V6? == p.base.V6? && Value(p.base.bytes) <= Value(a.bytes) < Value(p.base.bytes) + Size(p)
  }

  ghost predicate ValidConfig(c: Config) {
    && 1 <= c.alloc <= 15
    && (c.hostAddr.Some? ==> WellFormed(c.hostAddr.value))
    && (c.subnet.Some? ==>
          var p := c.subnet.value;
          WellFormed(p.base)
          && (p.base.V6? ==> p.bits <= 128 && Value(p.base.bytes) + Size(p) <= Weight(BYTES)))
  }

  /** The configuration packs containers into an IPv6 prefix. */
  predicate Packs(c: Config) {
    c.mode == SubnetMode && c.subnet.Some? && c.subnet.value.base.V6?
  }

  function SnatAddr(n: nat): Addr
    requires n < 0x1_0000
  {
    V6(ULA + [(n / 256) as Byte, (n % 256) as Byte])
  }

  /** Address number from which offsets are counted, and a container's first offset. */
  function Origin(c: Config): nat {
    if Packs(c) then Value(c.subnet.value.base.bytes) else Value(SnatAddr(0).bytes)
  }

  function FirstOffset(c: Config, idx: nat): nat
    requires idx >= FIRST
  {
    if Packs(c) then 2 + (idx - 2) * c.alloc else idx * c.alloc
  }

  /** The container's whole block lies in the prefix. */
  predicate Fits(c: Config, idx: nat)
    requires idx >= FIRST
  {
    Packs(c) ==> FirstOffset(c, idx) + c.alloc <= Size(c.subnet.value)
  }

  /** `v6s` is the block of container `idx`: all of it, in order, or nothing. */
  ghost predicate IsBlock(c: Config, idx: nat, v6s: seq<Addr>)
    requires idx >= FIRST
  {
    if (Packs(c) || c.mode == SnatMode) && Fits(c, idx) then
      && |v6s| == c.alloc
      && (forall k :: 0 <= k < |v6s| ==>
            WellFormed(v6s[k]) && v6s[k].V6? && Value(v6s[k].bytes) == Origin(c) + FirstOffset(c, idx) + k)
    else v6s == []
  }

  function Ipv4Of(idx: nat): nat {
    NETWORK_V4 + (idx / 256) % 16 * 256 + idx % 256
  }

  lemma SnatValue(n: nat)
    requires n < 0x1_0000
    ensures WellFormed(SnatAddr(n)) && Value(SnatAddr(n).bytes) == Value(SnatAddr(0).bytes) + n
  {
    Trailing(ULA, (n / 256) as Byte, (n % 256) as Byte);
    Trailing(ULA, 0, 0);
  }

  lemma Trailing(b: seq<Byte>, x: Byte, y: Byte)
    ensures Value(b + [x, y]) == 65536 * Value(b) + 256 * x as int + y as int
  {
    assert (b + [x, y])[..|b| + 1] == b + [x];
    assert (b + [x])[..|b|] == b;
  }

  /** The largest offsets stay below the gateway's 0xffff. */
  lemma OffsetBound(c: Config, idx: nat)
    requires ValidConfig(c) && FIRST <= idx <= LAST
    ensures 2 <= FirstOffset(c, idx) && FirstOffset(c, idx) + c.alloc <= 0xffff
  {
    Scaled(idx - 2, c.alloc);
    Scaled(idx, c.alloc);
    hide ValidConfig, Packs;
  }

  lemma Scaled(i: nat, n: nat)
    requires i <= LAST && 1 <= n <= 15
    ensures i * n + n <= 61425 && (i >= 2 ==> i * n >= 2)
  {
    Product(i, LAST, n);
    if i >= 2 {
      Product(2, i, n);
    }
  }

  /** Blocks follow each other without a gap, from offset 2 of a prefix on. */
  lemma BlocksContiguous(c: Config, idx: nat)
    requires FIRST <= idx
    ensures FirstOffset(c, idx + 1) == FirstOffset(c, idx) + c.alloc
    ensures Packs(c) ==> FirstOffset(c, FIRST) == 2
  {
  }

  /** The addresses of container `idx`. */
  method ComputeIPs(c: Config, idx: nat) returns (v4: nat, v6s: seq<Addr>)
    requires ValidConfig(c) && FIRST <= idx <= LAST
    ensures v4 == NETWORK_V4 + idx
    ensures IsBlock(c, idx, v6s)
  {
    hide Value, Weight, Pow2;
    v4 := Ipv4Of(idx);
    v6s := [];
    OffsetBound(c, idx);
    match c.mode
    case SubnetMode =>
      if c.subnet.Some? && c.subnet.value.base.V6? {
        var p := c.subnet.value;
        var base := FirstOffset(c, idx);
        var k := 0;
        while k < c.alloc
          invariant 0 <= k <= c.alloc && |v6s| == k
          invariant base + k <= Size(p) || k == 0
          invariant forall j :: 0 <= j < k ==>
                      WellFormed(v6s[j]) && v6s[j].V6? && Value(v6s[j].bytes) == Origin(c) + base + j
        {
          var a := AddOffset(p.base, base + k);
          if a.None? || !Contains(p, a.value) {
            v6s := [];
            return;
          }
          v6s := v6s + [a.value];
          k := k + 1;
        }
      }
    case SnatMode =>
      var base := idx * c.alloc;
      var k := 0;
      while k < c.alloc
        invariant 0 <= k <= c.alloc && |v6s| == k
        invariant forall j :: 0 <= j < k ==>
                    WellFormed(v6s[j]) && v6s[j].V6? && Value(v6s[j].bytes) == Origin(c) + base + j
      {
        SnatValue(base + k);
        v6s := v6s + [SnatAddr(base + k)];
        k := k + 1;
      }
    case OtherMode =>
  }

  // ---------- the bridge gateway ----------

  function Fallback(c: Config): Addr {
    if c.mode == SnatMode || c.hostAddr.None? then SnatAddr(1) else c.hostAddr.value
  }

  /** Offset 0xffff of the prefix where it has one, otherwise the fallback. */
  ghost predicate IsGateway(c: Config, g: Addr) {
    if Packs(c) && 0xffff < Size(c.subnet.value)
    then g.V6? && Value(g.bytes) == Origin(c) + 0xffff
    else g == Fallback(c)
  }

  /** Gateway written into a container's network configuration. */
  method Gateway(c: Config) returns (g: Addr)
    requires ValidConfig(c)
    ensures WellFormed(g) && IsGateway(c, g)
  {
    hide Value, Weight, Pow2;
    SnatValue(1);
    if c.mode == SubnetMode && c.subnet.Some? && c.subnet.value.base.V6? {
      var a := AddOffset(c.subnet.value.base, 0xffff);
      if a.Some? && Contains(c.subnet.value, a.value) {
        return a.value;
      }
    }
    if c.mode == SnatMode {
      return SnatAddr(1);
    }
    if c.hostAddr.Some? {
      return c.hostAddr.value;
    }
    return SnatAddr(1);
  }

  // ---------- the table ----------

  datatype Row = Row(idx: nat, v4: Option<nat>, v6s: seq<Addr>)

  ghost predicate RowOf(c: Config, r: Row) {
    && FIRST <= r.idx <= LAST
    && IsBlock(c, r.idx, r.v6s)
    && r.v4 == (if c.ipv6Only then None else Some(NETWORK_V4 + r.idx))
    && (c.ipv6Only ==> r.v6s != [])
  }

  ghost predicate Used(rows: map<string, Row>, i: int) {
    exists vm :: vm in rows && rows[vm].idx == i
  }

  /** The least index no row uses. */
  ghost predicate IsLeast(rows: map<string, Row>, i: nat) {
    FIRST <= i <= LAST && !Used(rows, i) && forall j :: FIRST <= j < i ==> Used(rows, j)
  }

  /** There are IPv6 addresses for container `idx`. */
  ghost predicate HasBlock(c: Config, idx: nat) {
    (Packs(c) || c.mode == SnatMode) && idx >= FIRST && Fits(c, idx)
  }

  /** A container can be created beside these: an index is left, and addresses for it where
      containers have IPv6 only. */
  ghost predicate Creatable(c: Config, rows: map<string, Row>) {
    exists i: nat :: IsLeast(rows, i) && (c.ipv6Only ==> HasBlock(c, i))
  }

  lemma LeastOnly(rows: map<string, Row>, i: nat)
    requires IsLeast(rows, i)
    ensures forall j: nat :: IsLeast(rows, j) ==> j == i
  {
  }

  class Manager {
    const cfg: Config
    var rows: map<string, Row>

    ghost predicate Valid()
      reads this
    {
      && ValidConfig(cfg)
      && (forall vm :: vm in rows ==> RowOf(cfg, rows[vm]))
      && (forall vm, wm :: vm in rows && wm in rows && rows[vm].idx == rows[wm].idx ==> vm == wm)
    }

    constructor (c: Config)
      requires ValidConfig(c)
      ensures Valid() && cfg == c && rows == map[]
    {
      cfg, rows := c, map[];
    }

    /** The least index no row uses. */
    method NextIdx() returns (r: Option<nat>)
      ensures r.Some? ==> FIRST <= r.value <= LAST && (forall vm :: vm in rows ==> rows[vm].idx != r.value)
      ensures r.Some? ==> forall i :: FIRST <= i < r.value ==> Used(rows, i)
      ensures r.None? ==> forall i :: 2 <= i <= 4094 ==> Used(rows, i)
    {
      var used: set<nat> := {};
      var todo := rows.Keys;
      while todo != {}
        invariant todo <= rows.Keys
        invariant forall i :: i in used ==> Used(rows, i)
        invariant forall vm :: vm in rows.Keys - todo ==> rows[vm].idx in used
        decreases todo
      {
        var vm :| vm in todo;
        used := used + {rows[vm].idx};
        todo := todo - {vm};
      }
      var idx := FIRST;
      while idx <= LAST
        invariant FIRST <= idx <= LAST + 1
        invariant forall i :: FIRST <= i < idx ==> i in used
      {
        if idx !in used {
          return Some(idx);
        }
        idx := idx + 1;
      }
      return None;
    }

    method Delete(vm: string)
      requires Valid()
      modifies this
      ensures Valid() && rows == old(rows) - {vm}
    {
      rows := rows - {vm};
    }

    /** Replaces any container of that name; `built` tells whether the instance could be
        created and configured. Nothing but `vm` changes, and it is recorded if and only
        if the creation is reported as done. */
    method Create(vm: string, built: bool) returns (ok: bool)
      requires Valid()
      modifies this
      ensures Valid()
      ensures rows - {vm} == old(rows) - {vm}
      ensures ok <==> vm in rows
      ensures ok <==> built && Creatable(cfg, old(rows) - {vm})
      ensures ok ==> IsLeast(old(rows) - {vm}, rows[vm].idx)
    {
      Delete(vm);
      ghost var others := rows;
      var idx := NextIdx();
      if idx.None? {
        assert forall i :: FIRST <= i <= LAST ==> Used(others, i);
        return false;
      }
      assert IsLeast(others, idx.value);
      LeastOnly(others, idx.value);
      var v4, v6s := ComputeIPs(cfg, idx.value);
      assert v6s != [] <==> HasBlock(cfg, idx.value);
      if cfg.ipv6Only && v6s == [] {
        return false;
      }
      if !built {
        return false;
      }
      rows := rows[vm := Row(idx.value, if cfg.ipv6Only then None else Some(v4), v6s)];
      ok := true;
    }

    method Reinstall(vm: string, built: bool) returns (ok: bool)
      requires Valid()
      modifies this
      ensures Valid()
      ensures rows - {vm} == old(rows) - {vm}
      ensures ok <==> vm in rows
      ensures ok <==> built && Creatable(cfg, old(rows) - {vm})
    {
      Delete(vm);
      assert rows - {vm} == old(rows) - {vm};
      ok := Create(vm, built);
    }
  }

  datatype Op = CreateOp(vm: string, built: bool) | DeleteOp(vm: string) | ReinstallOp(vm: string, built: bool)

  ghost predicate NoSharing(rows: map<string, Row>) {
    forall v, w :: v in rows && w in rows && v != w ==>
      && rows[v].idx != rows[w].idx
      && (rows[v].v4.Some? ==> rows[v].v4 != rows[w].v4)
      && (forall a :: a in rows[v].v6s ==> a !in rows[w].v6s)
  }

  /** IPv4 addresses inside 10.91.0.0/20 and off the bridge. */
  ghost predicate InNetwork(rows: map<string, Row>) {
    forall v :: v in rows && rows[v].v4.Some? ==>
      0x0A5B_0002 <= rows[v].v4.value < 0x0A5B_1000
  }

  /** No container has the gateway's IPv6 address. */
  ghost predicate OffGateway(rows: map<string, Row>, g: Addr) {
    forall v :: v in rows ==> g !in rows[v].v6s
  }

  /** Every run from an empty table ends without two containers sharing an index or an
      address, and without one on a gateway that is clear of the pool. */
  method Run(c: Config, ops: seq<Op>) returns (m: Manager)
    requires ValidConfig(c)
    ensures fresh(m) && m.cfg == c && m.Valid() && NoSharing(m.rows) && InNetwork(m.rows)
    ensures GatewayClear(c) ==> forall g :: WellFormed(g) && IsGateway(c, g) ==> OffGateway(m.rows, g)
  {
    hide GatewayClear, IsGateway, NoSharing, InNetwork, OffGateway;
    m := new Manager(c);
    for i := 0 to |ops|
      invariant fresh(m) && m.cfg == c && m.Valid()
    {
      match ops[i]
      case CreateOp(vm, built) => var _ := m.Create(vm, built);
      case DeleteOp(vm) => m.Delete(vm);
      case ReinstallOp(vm, built) => var _ := m.Reinstall(vm, built);
    }
    ValidMeans(c, m.rows);
  }

  // ---------- what a valid table means ----------

  lemma BlocksApart(i: nat, j: nat, n: nat, a: nat, b: nat)
    requires i < j && a < n
    ensures i * n + a < j * n + b
  {
    assert (i + 1) * n <= j * n by { Product(i + 1, j, n); }
    assert (i + 1) * n == i * n + n;
  }

  lemma OffsetsApart(c: Config, i: nat, j: nat, a: nat, b: nat)
    requires FIRST <= i < j && a < c.alloc
    ensures FirstOffset(c, i) + a < FirstOffset(c, j) + b
  {
    BlocksApart(i - 2, j - 2, c.alloc, a, b);
    BlocksApart(i, j, c.alloc, a, b);
  }

  /** Two recorded containers share no address, IPv4 or IPv6, and IPv4 addresses stay
      inside 10.91.0.0/20 and clear of the bridge. */
  lemma RowsDisjoint(c: Config, r: Row, s: Row)
    requires ValidConfig(c) && RowOf(c, r) && RowOf(c, s) && r.idx != s.idx
    ensures r.v4.Some? && s.v4.Some? ==> r.v4 != s.v4
    ensures r.v4.Some? ==> r.v4.value / 4096 == NETWORK_V4 / 4096 && r.v4.value != GATEWAY_V4
    ensures forall a :: a in r.v6s ==> a !in s.v6s
  {
    hide Value;
    forall x, y | 0 <= x < |r.v6s| && 0 <= y < |s.v6s| ensures r.v6s[x] != s.v6s[y] {
      if r.idx < s.idx {
        OffsetsApart(c, r.idx, s.idx, x, y);
      } else {
        OffsetsApart(c, s.idx, r.idx, y, x);
      }
    }
  }

  lemma ValidMeans(c: Config, rows: map<string, Row>)
    requires ValidConfig(c) && forall vm :: vm in rows ==> RowOf(c, rows[vm])
    requires forall vm, wm :: vm in rows && wm in rows && rows[vm].idx == rows[wm].idx ==> vm == wm
    ensures NoSharing(rows) && InNetwork(rows)
    ensures GatewayClear(c) ==> forall g :: WellFormed(g) && IsGateway(c, g) ==> OffGateway(rows, g)
  {
    forall v, w | v in rows && w in rows && v != w
      ensures rows[v].idx != rows[w].idx
      ensures rows[v].v4.Some? ==> rows[v].v4 != rows[w].v4
      ensures forall a :: a in rows[v].v6s ==> a !in rows[w].v6s
    {
      RowsDisjoint(c, rows[v], rows[w]);
    }
    assert InNetwork(rows) by {
      hide IsBlock;
    }
    if GatewayClear(c) {
      forall g, v | WellFormed(g) && IsGateway(c, g) && v in rows ensures g !in rows[v].v6s {
        GatewayAvoided(c, g, rows[v].idx, rows[v].v6s);
      }
    }
  }

  /** Blocks of the prefix that containers can be given. */
  function Blocks(c: Config): nat
    requires Packs(c) && c.alloc > 0
  {
    var n := if Size(c.subnet.value) < 2 then 0 else (Size(c.subnet.value) - 2) / c.alloc;
    if n <= LAST - 1 then n else LAST - 1
  }

  /** The gateway is clear of the pool: it is the 0xffff address, or a fallback address
      outside the blocks. */
  ghost predicate GatewayClear(c: Config)
    requires ValidConfig(c)
  {
    Packs(c) && Size(c.subnet.value) <= 0xffff ==>
      var g := Fallback(c);
      !(g.V6? && Origin(c) + 2 <= Value(g.bytes) < Origin(c) + 2 + Blocks(c) * c.alloc)
  }

  /** No container is given the gateway's address if and only if GatewayClear: always in
      SNAT mode and for prefixes up to /112, but a longer prefix falls back to the host's
      own address, which the pool may contain. */
  lemma GatewayIff(c: Config, g: Addr)
    requires ValidConfig(c) && WellFormed(g)
    requires IsGateway(c, g)
    ensures GatewayClear(c)
       <==> forall idx, v6s :: FIRST <= idx <= LAST && IsBlock(c, idx, v6s) ==> g !in v6s
  {
    hide Value, Pow2, Weight;
    if GatewayClear(c) {
      forall idx, v6s | FIRST <= idx <= LAST && IsBlock(c, idx, v6s) ensures g !in v6s {
        GatewayAvoided(c, g, idx, v6s);
      }
    } else {
      var idx, v6s := GatewayHit(c, g);
      assert IsBlock(c, idx, v6s) && g in v6s;
    }
  }

  lemma GatewayAvoided(c: Config, g: Addr, idx: nat, v6s: seq<Addr>)
    requires ValidConfig(c) && WellFormed(g) && GatewayClear(c)
    requires IsGateway(c, g)
    requires FIRST <= idx <= LAST && IsBlock(c, idx, v6s)
    ensures g !in v6s
  {
    hide Value, Pow2, Weight;
    OffsetBound(c, idx);
    SnatValue(1);
    if Packs(c) && Fits(c, idx) {
      LastBlock(idx, c.alloc, Size(c.subnet.value));
      Product(idx - 1, Blocks(c), c.alloc);
    }
  }

  lemma LastBlock(idx: nat, n: nat, size: nat)
    requires 2 <= idx && n >= 1 && 2 + (idx - 2) * n + n <= size
    ensures (idx - 1) * n == (idx - 2) * n + n && size >= 2 && idx - 1 <= (size - 2) / n
  {
    assert (idx - 1) * n == (idx - 2) * n + n;
    Division(size - 2, n);
    var q := (size - 2) / n;
    assert (q + 1) * n == q * n + n;
    if idx - 1 > q {
      Product(q + 1, idx - 1, n);
    }
  }

  /** A container whose block holds the fallback gateway. */
  lemma GatewayHit(c: Config, g: Addr) returns (idx: nat, v6s: seq<Addr>)
    requires ValidConfig(c) && WellFormed(g) && !GatewayClear(c) && g == Fallback(c)
    ensures FIRST <= idx <= LAST && IsBlock(c, idx, v6s) && g in v6s
  {
    var k: nat;
    hide Value, Pow2, Weight, Size;
    idx, k := HitIndex(c, g);
    hide GatewayClear, Blocks;
    v6s := BlockAt(Origin(c) + FirstOffset(c, idx), c.alloc);
    ValueInjective(v6s[k].bytes, g.bytes);
    assert v6s[k] == g;
  }

  /** The block the fallback gateway falls into, and its place there. */
  lemma HitIndex(c: Config, g: Addr) returns (idx: nat, k: nat)
    requires ValidConfig(c) && WellFormed(g) && !GatewayClear(c) && g == Fallback(c)
    ensures Packs(c) && FIRST <= idx <= LAST && k < c.alloc && g.V6? && Fits(c, idx)
    ensures Value(g.bytes) == Origin(c) + FirstOffset(c, idx) + k
  {
    hide Value, Size, Fallback, SnatAddr, WellFormed, Pow2, Weight;
    HitPlace(c, g);
    var o := Value(g.bytes) - Origin(c) - 2;
    hide Origin, Blocks, GatewayClear, ValidConfig;
    BlocksFit(c);
    PlaceOf(o, c.alloc, Blocks(c));
    var q := o / c.alloc;
    idx, k := 2 + q, o % c.alloc;
    OffsetAt(c, q);
    hide FirstOffset;
  }

  lemma HitPlace(c: Config, g: Addr)
    requires ValidConfig(c) && !GatewayClear(c) && g == Fallback(c)
    ensures Packs(c) && g.V6? && c.alloc >= 1 && Origin(c) + 2 <= Value(g.bytes) < Origin(c) + 2 + Blocks(c) * c.alloc
  {
    hide Value, Size, Fallback, Origin, Blocks;
  }

  lemma BlocksFit(c: Config)
    requires Packs(c) && c.alloc > 0
    ensures Blocks(c) < LAST && (Blocks(c) > 0 ==> 2 + Blocks(c) * c.alloc <= Size(c.subnet.value))
  {
    hide Size;
    if Blocks(c) > 0 {
      Division(Size(c.subnet.value) - 2, c.alloc);
      Product(Blocks(c), (Size(c.subnet.value) - 2) / c.alloc, c.alloc);
    }
  }

  lemma OffsetAt(c: Config, q: nat)
    requires Packs(c)
    ensures FirstOffset(c, 2 + q) == 2 + q * c.alloc
  {
    assert 2 + q - 2 == q;
  }

  lemma PlaceOf(o: nat, n: nat, blocks: nat)
    requires n >= 1 && o < blocks * n
    ensures o / n < blocks && o == o / n * n + o % n && o % n < n && o / n * n + n <= blocks * n
  {
    Division(o, n);
    if o / n >= blocks {
      Product(blocks, o / n, n);
    }
    Product(o / n + 1, blocks, n);
    assert (o / n + 1) * n == o / n * n + n;
  }

  lemma BlockAt(first: nat, n: nat) returns (v6s: seq<Addr>)
    requires first + n <= Weight(BYTES)
    ensures |v6s| == n
    ensures forall k :: 0 <= k < n ==>
              WellFormed(v6s[k]) && v6s[k].V6? && Value(v6s[k].bytes) == first + k
    decreases n
  {
    hide Value, Weight;
    if n == 0 {
      v6s := [];
    } else {
      v6s := BlockAt(first, n - 1);
      var b := Bytes(first + n - 1, BYTES);
      v6s := v6s + [V6(b)];
    }
  }

  /** Every number below 256^n has an n-byte spelling. */
  lemma {:induction false} Bytes(v: nat, n: nat) returns (b: seq<Byte>)
    requires v < Weight(n)
    ensures |b| == n && Value(b) == v
    decreases n
  {
    if n == 0 {
      b := [];
    } else {
      var high := Bytes(v / 256, n - 1);
      b := high + [(v % 256) as Byte];
      assert b[..n - 1] == high;
    }
  }
}
