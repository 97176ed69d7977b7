/**
 The ring buffer sink of internal/pipeline/sinks.go. `history` is every event
 ever stored, in order; the array, head and count are shown to refine it
 across any number of wrap-arounds.
 */
module RingBuffer {
  function Min(a: nat, b: nat): nat {
    if a < b then a else b
  }

  /** The last `n` elements of `s`. */
  function Suffix<T>(s: seq<T>, n: nat): seq<T>
    requires n <= |s|
  {
    s[|s| - n..]
  }

  class RingBufferSink<T(0)> {
    const capacity: nat
    var buffer: array<T>
    var head: nat      // next write position
    var count: nat     // items stored, up to the capacity
    ghost var history: seq<T>

    ghost predicate Valid()
      reads this, buffer
    {
      && capacity > 0
      && buffer.Length == capacity
      && count == Min(|history|, capacity)
      && head == |history| % capacity
      && forall j :: |history| - count <= j < |history| ==> buffer[j % capacity] == history[j]
    }

    constructor (capacity: int)
      ensures Valid() && history == []
      ensures this.capacity == if capacity <= 0 then 256 else capacity
      ensures fresh(buffer)
    {
      var n := if capacity <= 0 then 256 else capacity;
      this.capacity := n;
      buffer := new T[n];
      head, count := 0, 0;
      history := [];
    }

    /** Stores an event, overwriting the oldest when full. */
    method OnEvent(event: T)
      requires Valid()
      modifies this`head, this`count, this`history, buffer
      ensures Valid()
      ensures history == old(history) + [event]
    {
      NextSlot(|history|, capacity);
      Distinct(|history|, capacity);
      buffer[head] := event;
      head := (head + 1) % capacity;
      if count < capacity {
        count := count + 1;
      }
      history := history + [event];
    }

    /** The most recent events, oldest first: as many as asked for and still stored. */
    method Last(n: int) returns (result: seq<T>)
      requires Valid()
      ensures result == Suffix(history, if n <= 0 then 0 else Min(n, Min(|history|, capacity)))
    {
      if n <= 0 || count == 0 {
        return [];
      }
      var m := if n > count then count else n;
      var start := (head - m + capacity) % capacity;
      ghost var first := |history| - m;
      StartSlot(|history|, m, capacity);
      var out := new T[m];
      var i := 0;
      while i < m
        invariant 0 <= i <= m
        invariant Valid()
        invariant start == first % capacity
        invariant forall j :: 0 <= j < i ==> out[j] == history[first + j]
      {
        var idx := (start + i) % capacity;
        Shift(first, i, capacity);
        out[i] := buffer[idx];
        i := i + 1;
      }
      result := out[..];
    }

    method Len() returns (n: nat)
      requires Valid()
      ensures n == Min(|history|, capacity)
    {
      n := count;
    }
  }

  // Positions modulo the capacity

  lemma Modulo(x: int, q: int, r: int, c: nat)
    requires c > 0 && x == q * c + r && 0 <= r < c
    ensures x % c == r
  {
    var d := x / c - q;
    assert d * c == (x / c) * c - q * c;
    assert x == (x / c) * c + x % c;
    assert d * c == r - x % c;
    assert d >= 1 ==> d * c >= c;
    assert d <= -1 ==> d * c + c <= 0;
  }

  lemma NextSlot(h: nat, c: nat)
    requires c > 0
    ensures (h + 1) % c == (h % c + 1) % c
  {
    var q, m := h / c, h % c;
    assert h == q * c + m;
    Modulo(m, 0, m, c);
    if m + 1 < c {
      Modulo(h + 1, q, m + 1, c);
      Modulo(m + 1, 0, m + 1, c);
    } else {
      assert (q + 1) * c == q * c + c;
      Modulo(h + 1, q + 1, 0, c);
      Modulo(m + 1, 1, 0, c);
    }
  }

  /** Positions closer together than the capacity fall in different slots. */
  lemma Distinct(h: nat, c: nat)
    requires c > 0
    ensures forall j :: 0 <= j < h && h - j < c ==> j % c != h % c
  {
    forall j | 0 <= j < h && h - j < c ensures j % c != h % c {
      var k := h / c - j / c;
      assert k * c == (h / c) * c - (j / c) * c;
      assert j % c == h % c ==> h - j == k * c;
      NotMultiple(h - j, k, c);
    }
  }

  lemma NotMultiple(x: nat, k: int, c: nat)
    requires 0 < x < c
    ensures x != k * c
  {
    assert k >= 1 ==> k * c >= c;
    assert k <= 0 ==> k * c <= 0;
  }

  lemma StartSlot(h: nat, m: nat, c: nat)
    requires c > 0 && m <= c && m <= h
    ensures (h % c - m + c) % c == (h - m) % c
  {
    var q, r := (h - m) / c, (h - m) % c;
    var p := h / c;
    assert h % c - m + c == (q - p + 1) * c + r by {
      assert (q - p + 1) * c == q * c - p * c + c;
    }
    Modulo(h % c - m + c, q - p + 1, r, c);
  }

  lemma Shift(first: nat, i: nat, c: nat)
    requires c > 0
    ensures (first % c + i) % c == (first + i) % c
  {
    var q, r := (first + i) / c, (first + i) % c;
    var p := first / c;
    assert (q - p) * c == q * c - p * c;
    Modulo(first % c + i, q - p, r, c);
  }
}
