/** IPv6 addresses as sixteen bytes, and the byte-wise adder the container address
    allocation rests on, proved to be exact 128-bit addition. */
module Ipv6 {
  import opened Numbers
  import opened Wrappers

  const BYTES := 16
  const U64 := 0x1_0000_0000_0000_0000

  /** A parsed address: four bytes or sixteen. */
  datatype Addr = V4(bytes: seq<Byte>) | V6(bytes: seq<Byte>)

  ghost predicate WellFormed(a: Addr) {
    match a
    case V4(b) => |b| == 4
    case V6(b) => |b| == BYTES
  }

  /** 256 to the power `n`. */
  function Weight(n: nat): nat {
    if n == 0 then 1 else 256 * Weight(n - 1)
  }

  /** The number a big-endian byte string writes. */
  function Value(b: seq<Byte>): nat {
    if b == [] then 0 else 256 * Value(b[..|b| - 1]) + b[|b| - 1] as int
  }

  lemma {:induction false} ValueUpdate(b: seq<Byte>, i: nat, x: Byte)
    requires i < |b|
    ensures Value(b[i := x]) == Value(b) + (x as int - b[i] as int) * Weight(|b| - 1 - i)
  {
    var n := |b| - 1;
    if i == n {
      assert b[i := x][..n] == b[..n];
    } else {
      assert b[i := x][..n] == b[..n][i := x];
      ValueUpdate(b[..n], i, x);
      Shift(Value(b[..n]), x as int - b[i] as int, Weight(n - 1 - i));
    }
  }

  lemma Shift(v: int, d: int, w: int)
    ensures 256 * (v + d * w) == 256 * v + d * (256 * w)
  {
  }

  lemma {:induction false} ValueBound(b: seq<Byte>)
    ensures Value(b) < Weight(|b|)
  {
    if b != [] {
      ValueBound(b[..|b| - 1]);
    }
  }

  lemma {:induction false} ValueInjective(a: seq<Byte>, b: seq<Byte>)
    requires |a| == |b| && Value(a) == Value(b)
    ensures a == b
  {
    if a != [] {
      var n := |a| - 1;
      ValueInjective(a[..n], b[..n]);
      assert a == a[..n] + [a[n]] && b == b[..n] + [b[n]];
    }
  }

  /** One step of the ripple: what a byte loses to the carry, the carry gains. */
  lemma RippleStep(value: int, x: int, carry: nat, w: nat, total: int)
    requires 0 <= x < 256
    requires value + carry * w == total
    ensures var sum := x + carry % 256;
            value + (sum % 256 - x) * w + (carry / 256 + sum / 256) * (256 * w) == total
  {
    var sum := x + carry % 256;
    var up := carry / 256 + sum / 256;
    assert (sum % 256 - x) + 256 * up == carry;
    calc {
      (sum % 256 - x) * w + up * (256 * w);
      ((sum % 256 - x) + 256 * up) * w;
      carry * w;
    }
  }

  /** With the bytes after `i` done, bytes and pending carry still add up to `total`. */
  ghost predicate Adds(b: seq<Byte>, i: int, carry: nat, total: nat)
    requires i < |b|
  {
    Value(b) + carry * Weight(|b| - 1 - i) == total
  }

  lemma RippleByte(b: seq<Byte>, i: nat, carry: nat, total: nat)
    requires i < |b| && Adds(b, i, carry, total)
    ensures var sum := b[i] as int + carry % 256;
            Adds(b[i := (sum % 256) as Byte], i - 1, carry / 256 + sum / 256, total)
  {
    var sum := b[i] as int + carry % 256;
    ValueUpdate(b, i, (sum % 256) as Byte);
    RippleStep(Value(b), b[i] as int, carry, Weight(|b| - 1 - i), total);
  }

  lemma RippleEnds(b: seq<Byte>, i: int, carry: nat, total: nat)
    requires -1 <= i < |b| && Adds(b, i, carry, total)
    ensures carry == 0 ==> Value(b) == total
    ensures carry > 0 && i == -1 ==> total >= Weight(|b|)
  {
    hide Value, Weight;
    if carry > 0 {
      AtLeastOnce(carry, Weight(|b| - 1 - i));
    }
  }

  lemma AtLeastOnce(k: nat, w: nat)
    requires k > 0
    ensures k * w >= w
  {
    assert k * w == w + (k - 1) * w;
  }

  /** Adds an offset to an address in place, carrying from the last byte up; refused for
      IPv4 and exactly when the sum needs a seventeenth byte. */
  method AddOffset(addr: Addr, offset: nat) returns (r: Option<Addr>)
    requires WellFormed(addr) && offset < U64
    ensures r.None? <==> addr.V4? || Value(addr.bytes) + offset >= Weight(BYTES)
    ensures r.Some? ==> r.value.V6? && |r.value.bytes| == BYTES
                        && Value(r.value.bytes) == Value(addr.bytes) + offset
  {
    hide Value, Weight, Adds;
    if !addr.V6? {
      return None;
    }
    var b := new Byte[BYTES](i requires 0 <= i < BYTES => addr.bytes[i]);
    assert b[..] == addr.bytes;
    var carry: nat := offset;
    var i := BYTES - 1;
    ghost var total := Value(addr.bytes) + offset;
    RippleStarts(b[..], offset);
    while i >= 0 && carry > 0
      invariant -1 <= i < BYTES
      invariant Adds(b[..], i, carry, total)
    {
      var sum := b[i] as int + carry % 256;
      ghost var before := b[..];
      RippleByte(before, i, carry, total);
      b[i] := (sum % 256) as Byte;
      assert b[..] == before[i := (sum % 256) as Byte];
      carry := carry / 256 + sum / 256;
      i := i - 1;
    }
    RippleEnds(b[..], i, carry, total);
    ValueBound(b[..]);
    if carry != 0 {
      return None;
    }
    return Some(V6(b[..]));
  }

  lemma RippleStarts(b: seq<Byte>, offset: nat)
    requires |b| > 0
    ensures Adds(b, |b| - 1, offset, Value(b) + offset)
  {
  }
}
