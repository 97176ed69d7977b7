/**
 Reading fixed amounts from a stream, as `io.ReadFull` and `binary.Read` do,
 and the in-memory `io.ReadSeeker` the parsers read from.
 */
module Streams {
  import opened Bytes

  /** Why a read came short: nothing was left, or less than asked (`io.EOF` and `io.ErrUnexpectedEOF`). */
  datatype Cut = AtEnd | Partway

  function Shortfall(have: nat): Cut {
    if have == 0 then AtEnd else Partway
  }

  datatype Chunk = Full(bytes: seq<byte>) | Short(cut: Cut)

  /** `io.ReadFull` of `n` bytes from the unread bytes `s`; reading nothing always succeeds. */
  function ReadIn(s: seq<byte>, n: nat): (c: Chunk)
    ensures c.Full? <==> n <= |s|
    ensures c.Full? ==> |c.bytes| == n
  {
    if n <= |s| then Full(s[..n]) else Short(Shortfall(|s|))
  }

  lemma ReadAppend(b: seq<byte>, tail: seq<byte>)
    ensures ReadIn(b + tail, |b|) == Full(b) && From(b + tail, |b|) == tail
  {
    assert (b + tail)[..|b|] == b;
  }

  /** What a reader positioned at `offset` still has to read. */
  function Tail(data: seq<byte>, offset: nat): seq<byte> {
    if offset <= |data| then From(data, offset) else []
  }

  /** `b` stands at `offset`. */
  ghost predicate Lies(data: seq<byte>, offset: nat, b: seq<byte>) {
    offset + |b| <= |data| && data[offset..offset + |b|] == b
  }

  /** What a reader finds at a placed section: the section and whatever comes after. */
  lemma TailOf(data: seq<byte>, offset: nat, b: seq<byte>)
    requires Lies(data, offset, b)
    ensures Tail(data, offset) == b + From(data, offset + |b|)
  {
    assert data[offset..] == data[offset..offset + |b|] + data[offset + |b|..];
  }

  lemma ReadPlaced(data: seq<byte>, offset: nat, b: seq<byte>)
    requires Lies(data, offset, b)
    ensures ReadIn(Tail(data, offset), |b|) == Full(b)
  {
    TailOf(data, offset, b);
    ReadAppend(b, From(data, offset + |b|));
  }

  /** `bytes.Reader`. Its position may lie beyond the end. */
  class ByteReader {
    const data: seq<byte>
    var pos: nat

    ghost function Rest(): seq<byte>
      reads this
    {
      Tail(data, pos)
    }

    constructor (data: seq<byte>)
      ensures this.data == data && pos == 0 && Rest() == data
    {
      this.data := data;
      pos := 0;
    }

    method SeekStart(offset: nat)
      modifies this
      ensures pos == offset
    {
      pos := offset;
    }

    /** Reads exactly `n` bytes, or everything that is left and the reason why that is too little. */
    method ReadFull(n: nat) returns (c: Chunk)
      modifies this
      ensures c == ReadIn(old(Rest()), n)
      ensures Rest() == if c.Full? then From(old(Rest()), n) else []
    {
      if n == 0 {
        assert Rest()[..0] == [] && From(Rest(), 0) == Rest();
        return Full([]);
      }
      if pos + n <= |data| {
        c := Full(data[pos..pos + n]);
        Skipping(data, pos, n);
        pos := pos + n;
      } else {
        c := Short(Shortfall(if pos < |data| then |data| - pos else 0));
        pos := if pos < |data| then |data| else pos;
      }
    }
  }

  lemma Skipping(data: seq<byte>, pos: nat, n: nat)
    requires pos + n <= |data|
    ensures From(data, pos)[..n] == data[pos..pos + n]
    ensures From(From(data, pos), n) == From(data, pos + n)
  {
    var a, b := From(data, pos)[..n], data[pos..pos + n];
    forall k | 0 <= k < n ensures a[k] == b[k] {
    }
  }
}
