/**
 Bytes, and the fixed-width unsigned integers that every file format and
 protocol here lays out in them. `Enc`/`Dec` model Go's `binary.ByteOrder`;
 `EncFields`/`DecFields` model reading or writing a whole fixed-size record.
 */
module Bytes {
  type byte = b: int | 0 <= b < 256

  datatype Endian = Little | Big

  const U16: nat := 0x1_0000
  const U32: nat := 0x1_0000_0000
  const U64: nat := 0x1_0000_0000_0000_0000

  /** Go's `s[n:]`. */
  function From(s: seq<byte>, n: nat): (r: seq<byte>)
    requires n <= |s|
    ensures |r| == |s| - n
  {
    s[n..]
  }

  lemma SliceFrom(s: seq<byte>, n: nat, i: nat, j: nat)
    requires n <= |s| && i <= j <= |s| - n
    ensures From(s, n)[i..j] == s[n + i..n + j]
  {
    var a, b := From(s, n)[i..j], s[n + i..n + j];
    forall k | 0 <= k < j - i ensures a[k] == b[k] {
    }
  }

  lemma SliceTake(s: seq<byte>, n: nat, i: nat, j: nat)
    requires i <= j <= n <= |s|
    ensures s[..n][i..j] == s[i..j]
  {
    var a, b := s[..n][i..j], s[i..j];
    forall k | 0 <= k < j - i ensures a[k] == b[k] {
    }
  }

  lemma Middle(a: seq<byte>, b: seq<byte>, c: seq<byte>)
    ensures (a + (b + c))[|a|..|a| + |b|] == b
  {
  }

  function Pow256(k: nat): (p: nat)
    ensures p >= 1
  {
    if k == 0 then 1 else 256 * Pow256(k - 1)
  }

  lemma Pow256Values()
    ensures Pow256(1) == 256 && Pow256(2) == U16 && Pow256(4) == U32 && Pow256(8) == U64
  {
    assert Pow256(3) == 0x100_0000;
    assert Pow256(4) == U32;
    assert Pow256(5) == 0x100_0000_0000;
    assert Pow256(6) == 0x1_0000_0000_0000;
    assert Pow256(7) == 0x100_0000_0000_0000;
  }

  /** The low `k` bytes of `n`, in byte order `e`. */
  function Enc(e: Endian, n: nat, k: nat): (s: seq<byte>)
    ensures |s| == k
  {
    if k == 0 then []
    else match e
      case Little => [n % 256] + Enc(e, n / 256, k - 1)
      case Big => Enc(e, n / 256, k - 1) + [n % 256]
  }

  /** The number that `s` holds in byte order `e`. */
  function Dec(e: Endian, s: seq<byte>): nat {
    if s == [] then 0
    else match e
      case Little => s[0] + 256 * Dec(e, s[1..])
      case Big => s[|s| - 1] + 256 * Dec(e, s[..|s| - 1])
  }

  lemma {:induction false} DecEnc(e: Endian, n: nat, k: nat)
    requires n < Pow256(k)
    ensures Dec(e, Enc(e, n, k)) == n
  {
    if k > 0 {
      DecEnc(e, n / 256, k - 1);
      var s := Enc(e, n, k);
      assert s[1..] == Enc(Little, n / 256, k - 1) || e.Big?;
      assert s[..k - 1] == Enc(Big, n / 256, k - 1) || e.Little?;
    }
  }

  lemma {:induction false} EncDec(e: Endian, s: seq<byte>)
    ensures Dec(e, s) < Pow256(|s|)
    ensures Enc(e, Dec(e, s), |s|) == s
  {
    if s != [] {
      var b, rest := if e.Little? then s[0] else s[|s| - 1], if e.Little? then s[1..] else s[..|s| - 1];
      EncDec(e, rest);
      LowByte(b, Dec(e, rest));
      assert s == if e.Little? then [b] + rest else rest + [b];
    }
  }

  lemma LowByte(b: byte, d: nat)
    ensures (b + 256 * d) % 256 == b && (b + 256 * d) / 256 == d
  {
  }

  // Fixed-size records: a list of field widths and a list of field values.

  function Width(ws: seq<nat>): nat {
    if ws == [] then 0 else ws[0] + Width(ws[1..])
  }

  lemma {:induction false} WidthAppend(ws: seq<nat>, w: nat)
    ensures Width(ws + [w]) == Width(ws) + w
  {
    if ws != [] {
      WidthAppend(ws[1..], w);
      assert (ws + [w])[1..] == ws[1..] + [w];
    } else {
      assert (ws + [w])[1..] == [];
    }
  }

  ghost predicate Fits(vals: seq<nat>, ws: seq<nat>) {
    |vals| == |ws| && forall i :: 0 <= i < |ws| ==> vals[i] < Pow256(ws[i])
  }

  function EncFields(e: Endian, vals: seq<nat>, ws: seq<nat>): (s: seq<byte>)
    requires |vals| == |ws|
    ensures |s| == Width(ws)
  {
    if ws == [] then [] else Enc(e, vals[0], ws[0]) + EncFields(e, vals[1..], ws[1..])
  }

  function DecFields(e: Endian, s: seq<byte>, ws: seq<nat>): (vals: seq<nat>)
    requires |s| == Width(ws)
    ensures |vals| == |ws|
  {
    if ws == [] then [] else [Dec(e, s[..ws[0]])] + DecFields(e, s[ws[0]..], ws[1..])
  }

  lemma {:induction false} DecEncFields(e: Endian, vals: seq<nat>, ws: seq<nat>)
    requires Fits(vals, ws)
    ensures DecFields(e, EncFields(e, vals, ws), ws) == vals
  {
    if ws != [] {
      DecEnc(e, vals[0], ws[0]);
      DecEncFields(e, vals[1..], ws[1..]);
      var s := EncFields(e, vals, ws);
      assert s[..ws[0]] == Enc(e, vals[0], ws[0]);
      assert s[ws[0]..] == EncFields(e, vals[1..], ws[1..]);
      assert vals == [vals[0]] + vals[1..];
    }
  }

  lemma {:induction false} EncDecFields(e: Endian, s: seq<byte>, ws: seq<nat>)
    requires |s| == Width(ws)
    ensures Fits(DecFields(e, s, ws), ws)
    ensures EncFields(e, DecFields(e, s, ws), ws) == s
  {
    if ws != [] {
      EncDec(e, s[..ws[0]]);
      EncDecFields(e, s[ws[0]..], ws[1..]);
      var vals := DecFields(e, s, ws);
      assert vals[1..] == DecFields(e, s[ws[0]..], ws[1..]);
      assert s == s[..ws[0]] + s[ws[0]..];
    }
  }

  /** Field `i` of a record is the slice that starts after the widths before it. */
  lemma {:induction false} FieldAt(e: Endian, s: seq<byte>, ws: seq<nat>, i: nat)
    requires |s| == Width(ws) && i < |ws|
    ensures Width(ws[..i]) + ws[i] <= |s|
    ensures DecFields(e, s, ws)[i] == Dec(e, s[Width(ws[..i])..Width(ws[..i]) + ws[i]])
  {
    hide Dec;
    if i == 0 {
      assert ws[..0] == [];
    } else {
      var rest, later := s[ws[0]..], ws[1..];
      FieldAt(e, rest, later, i - 1);
      assert ws[..i][1..] == later[..i - 1];
      var o := Width(later[..i - 1]);
      assert Width(ws[..i]) == ws[0] + o;
      assert rest[o..o + ws[i]] == s[ws[0] + o..ws[0] + o + ws[i]];
    }
  }
}
