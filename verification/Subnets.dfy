/**
 IP addresses as the Go `net` package compares them: `IP.Equal` and
 `IPNet.Contains`, with an IPv4 address and its 16-byte form taken as one.
 The byte-wise mask test is shown to be agreement on leading bits.
 */
module Subnets {
  import opened Prelude
  import opened Bytes
  import opened Packets

  const V4_PREFIX: Address := [0, 0, 0, 0, 0, 0, 0, 0, 0, 0, 255, 255]

  /** `IP.To4`. */
  function To4(ip: Address): Option<Address> {
    if |ip| == 4 then Some(ip)
    else if |ip| == 16 && ip[..12] == V4_PREFIX then Some(ip[12..])
    else None
  }

  /** The short form where there is one. */
  function Canonical(ip: Address): Address {
    match To4(ip) case None => ip case Some(short) => short
  }

  /** `IP.Equal`. */
  function Equal(a: Address, b: Address): bool {
    if |a| == |b| then a == b
    else if |a| == 4 && |b| == 16 then b[..12] == V4_PREFIX && a == b[12..]
    else if |a| == 16 && |b| == 4 then a[..12] == V4_PREFIX && b == a[12..]
    else false
  }

  /** Two well-formed addresses are equal exactly when their canonical forms are. */
  lemma EqualIsCanonical(a: Address, b: Address)
    requires |a| in {4, 16} && |b| in {4, 16}
    ensures Equal(a, b) <==> Canonical(a) == Canonical(b)
  {
    if |a| == |b| == 16 && Canonical(a) == Canonical(b) {
      assert a == a[..12] + a[12..] && b == b[..12] + b[12..];
    }
  }

  /** A network as an address and a prefix length, which `net.ParseCIDR` turns into a mask of that many ones. */
  datatype Cidr = Cidr(ip: Address, prefix: nat) {
    predicate Valid() {
      |ip| in {4, 16} && prefix <= 8 * |ip|
    }

    /** The network number in short form where there is one. */
    function Net(): Address {
      Canonical(ip)
    }

    /** Where in the mask the first byte of the network number stands. */
    function Skipped(): nat {
      if |ip| == 16 && |Net()| == 4 then 12 else 0
    }

    /** Bits that count: the prefix, less those of a mapped address's fixed part. */
    function Leading(): nat {
      if prefix < 8 * Skipped() then 0 else prefix - 8 * Skipped()
    }
  }

  /** `n >> k`. */
  function Shr(n: nat, k: nat): nat
    requires k <= 8
  {
    if k == 0 then n else if k == 1 then n / 2 else if k == 2 then n / 4 else if k == 3 then n / 8
    else if k == 4 then n / 16 else if k == 5 then n / 32 else if k == 6 then n / 64 else if k == 7 then n / 128
    else n / 256
  }

  /** `n << k`. */
  function Shl(n: nat, k: nat): nat
    requires k <= 8
  {
    if k == 0 then n else if k == 1 then n * 2 else if k == 2 then n * 4 else if k == 3 then n * 8
    else if k == 4 then n * 16 else if k == 5 then n * 32 else if k == 6 then n * 64 else if k == 7 then n * 128
    else n * 256
  }

  /** Ones in byte `i` of a mask of `n` ones. */
  function Ones(n: nat, i: nat): (k: nat)
    ensures k <= 8
  {
    if n <= 8 * i then 0 else if n - 8 * i >= 8 then 8 else n - 8 * i
  }

  /** `b` under a mask byte of `k` leading ones. */
  function Masked(b: byte, k: nat): nat
    requires k <= 8
  {
    Shl(Shr(b, 8 - k), 8 - k)
  }

  /** `IPNet.Contains`. */
  function Contains(c: Cidr, ip: Address): bool
    requires c.Valid()
  {
    var net, x := c.Net(), Canonical(ip);
    |x| == |net| && forall i :: 0 <= i < |net| ==>
      Masked(net[i], Ones(c.prefix, i + c.Skipped())) == Masked(x[i], Ones(c.prefix, i + c.Skipped()))
  }

  // Bits

  /** Bit `i` of an address, most significant first. */
  function Bit(a: Address, i: nat): nat
    requires i < 8 * |a|
  {
    BitOf(a[i / 8], i % 8)
  }

  function BitOf(b: byte, j: nat): nat
    requires j < 8
  {
    Shr(b, 7 - j) % 2
  }

  lemma HalfStep(b: byte, k: nat)
    requires k < 8
    ensures Shr(b, 7 - k) == 2 * Shr(b, 8 - k) + BitOf(b, k)
  {
  }

  /** Bytes agree under a mask of `k` ones exactly when their first `k` bits do. */
  lemma {:induction false} TopBits(x: byte, y: byte, k: nat)
    requires k <= 8
    ensures Masked(x, k) == Masked(y, k) <==> forall j :: 0 <= j < k ==> BitOf(x, j) == BitOf(y, j)
  {
    hide *;
    Shifted(x, y, k);
    if k == 0 {
      Vanish(x);
      Vanish(y);
    } else {
      TopBits(x, y, k - 1);
      Shifted(x, y, k - 1);
      HalfStep(x, k - 1);
      HalfStep(y, k - 1);
      BitIsBit(x, k - 1);
      BitIsBit(y, k - 1);
    }
  }

  lemma Vanish(b: byte)
    ensures Shr(b, 8) == 0
  {
  }

  lemma BitIsBit(b: byte, j: nat)
    requires j < 8
    ensures BitOf(b, j) in {0, 1}
  {
  }

  /** Masking loses nothing that shifting keeps. */
  lemma Shifted(x: byte, y: byte, k: nat)
    requires k <= 8
    ensures Masked(x, k) == Masked(y, k) <==> Shr(x, 8 - k) == Shr(y, 8 - k)
  {
  }

  /** The first `n` bits of two addresses of one length agree. */
  predicate Agree(a: Address, b: Address, n: nat) {
    |a| == |b| && forall i :: 0 <= i < n && i < 8 * |a| ==> Bit(a, i) == Bit(b, i)
  }

  /** Byte-wise comparison under the mask is agreement on the bits the mask has. */
  lemma MaskIsBits(a: Address, b: Address, n: nat)
    requires |a| == |b|
    ensures (forall i :: 0 <= i < |a| ==> Masked(a[i], Ones(n, i)) == Masked(b[i], Ones(n, i))) <==> Agree(a, b, n)
  {
    hide Masked;
    hide BitOf;
    forall i | 0 <= i < |a|
      ensures Masked(a[i], Ones(n, i)) == Masked(b[i], Ones(n, i)) <==>
              forall j :: 0 <= j < Ones(n, i) ==> BitOf(a[i], j) == BitOf(b[i], j)
    {
      TopBits(a[i], b[i], Ones(n, i));
    }
    if forall i :: 0 <= i < |a| ==> Masked(a[i], Ones(n, i)) == Masked(b[i], Ones(n, i)) {
      forall i | 0 <= i < n && i < 8 * |a| ensures Bit(a, i) == Bit(b, i) {
        Split(i);
        assert Masked(a[i / 8], Ones(n, i / 8)) == Masked(b[i / 8], Ones(n, i / 8));
        assert i % 8 < Ones(n, i / 8);
      }
    }
    if Agree(a, b, n) {
      forall i, j | 0 <= i < |a| && 0 <= j < Ones(n, i) ensures BitOf(a[i], j) == BitOf(b[i], j) {
        Split(8 * i + j);
        assert Bit(a, 8 * i + j) == Bit(b, 8 * i + j);
        assert (8 * i + j) / 8 == i && (8 * i + j) % 8 == j;
      }
    }
  }

  lemma Split(i: nat)
    ensures i == 8 * (i / 8) + i % 8 && i % 8 < 8
  {
  }

  /** An address is in a network exactly when it has the network's form and its first bits. */
  lemma ContainsIsPrefix(c: Cidr, ip: Address)
    requires c.Valid()
    ensures Contains(c, ip) <==> Agree(c.Net(), Canonical(ip), c.Leading())
  {
    var net, x := c.Net(), Canonical(ip);
    if |net| == |x| {
      forall i | 0 <= i < |net| ensures Ones(c.prefix, i + c.Skipped()) == Ones(c.Leading(), i) {
      }
      hide Ones;
      hide Masked;
      hide To4;
      MaskIsBits(net, x, c.Leading());
      hide Bit;
    }
  }

  /** `inner` is a part of `outer`: its number lies there and its prefix is no shorter. */
  predicate Within(inner: Cidr, outer: Cidr)
    requires inner.Valid() && outer.Valid()
  {
    outer.Leading() <= inner.Leading() && Contains(outer, inner.ip)
  }

  /** Whatever a subnet contains, every network around it contains. */
  lemma NestedSubnets(inner: Cidr, outer: Cidr, ip: Address)
    requires inner.Valid() && outer.Valid() && Within(inner, outer) && Contains(inner, ip)
    ensures Contains(outer, ip)
  {
    hide Contains;
    hide Bit;
    hide To4;
    ContainsIsPrefix(outer, inner.ip);
    ContainsIsPrefix(inner, ip);
    ContainsIsPrefix(outer, ip);
    var a, b, x := outer.Net(), inner.Net(), Canonical(ip);
    forall i | 0 <= i < outer.Leading() && i < 8 * |a| ensures Bit(a, i) == Bit(x, i) {
      assert Bit(a, i) == Bit(b, i) && Bit(b, i) == Bit(x, i);
    }
  }
}
