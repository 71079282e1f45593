/** Little-endian byte memory.

    The driver stores links, markers and handle tables inside raw buffers and
    reads them back through 32-bit pointers. A buffer is a sequence of bytes;
    every store, whether a single word or a memcpy, is a Splice. */
module Bytes {

  type byte = x: int | 0 <= x < 0x100
  type uint32 = x: int | 0 <= x < 0x1_0000_0000

  /** ~0u, the driver's "no offset". */
  const NONE: uint32 := 0xFFFF_FFFF

  /** Buffer m after the bytes s have been stored at offset at. */
  function Splice(m: seq<byte>, at: nat, s: seq<byte>): (r: seq<byte>)
    requires at + |s| <= |m|
    ensures |r| == |m|
    ensures r[at..at + |s|] == s
    ensures forall i :: 0 <= i < |m| && !(at <= i < at + |s|) ==> r[i] == m[i]
  {
    m[..at] + s + m[at + |s|..]
  }

  /** The number of values that n bytes can hold. */
  function Limit(n: nat): nat
  {
    if n == 0 then 1 else 0x100 * Limit(n - 1)
  }

  lemma WordLimit()
    ensures Limit(4) == 0x1_0000_0000
  {
    assert Limit(2) == 0x1_0000;
    assert Limit(3) == 0x100_0000;
  }

  /** The unsigned value of a little-endian byte string. */
  function Value(s: seq<byte>): (v: nat)
    ensures v < Limit(|s|)
  {
    if |s| == 0 then 0 else s[0] + 0x100 * Value(s[1..])
  }

  /** The n low-order bytes of v, least significant first. */
  function Digits(v: nat, n: nat): (s: seq<byte>)
    ensures |s| == n
  {
    if n == 0 then [] else [v % 0x100] + Digits(v / 0x100, n - 1)
  }

  lemma {:induction false} ValueOfDigits(v: nat, n: nat)
    requires v < Limit(n)
    ensures Value(Digits(v, n)) == v
  {
    if n > 0 {
      ValueOfDigits(v / 0x100, n - 1);
      assert Digits(v, n)[1..] == Digits(v / 0x100, n - 1);
    }
  }

  lemma {:induction false} DigitsOfValue(s: seq<byte>)
    ensures Digits(Value(s), |s|) == s
  {
    if |s| > 0 {
      DigitsOfValue(s[1..]);
      assert Value(s) % 0x100 == s[0] && Value(s) / 0x100 == Value(s[1..]);
    }
  }

  function Word(m: seq<byte>, a: nat): (w: uint32)
    requires a + 4 <= |m|
  {
    WordLimit();
    Value(m[a..a + 4])
  }

  /** The least significant byte of a word comes first. */
  lemma WordIsLittleEndian(m: seq<byte>, a: nat)
    requires a + 4 <= |m|
    ensures var (b0: int, b1: int, b2: int, b3: int) := (m[a], m[a + 1], m[a + 2], m[a + 3]);
      Word(m, a) == b0 + 0x100 * b1 + 0x1_0000 * b2 + 0x100_0000 * b3
  {
    var s := m[a..a + 4];
    assert Value(s) == s[0] + 0x100 * Value(s[1..]) && Value(s[1..]) == s[1] + 0x100 * Value(s[1..][1..]);
    var t := s[1..][1..];
    assert Value(t) == t[0] + 0x100 * Value(t[1..]) && Value(t[1..]) == t[1] + 0x100 * Value(t[1..][1..]);
    assert t[1..][1..] == [];
  }

  function WordBytes(w: uint32): (s: seq<byte>)
    ensures |s| == 4
  {
    Digits(w, 4)
  }

  /** Buffer m after the 32-bit word w has been stored at offset a. */
  function SetWord(m: seq<byte>, a: nat, w: uint32): (r: seq<byte>)
    requires a + 4 <= |m|
    ensures |r| == |m|
    ensures Word(r, a) == w
    ensures forall i :: 0 <= i < |m| && !(a <= i < a + 4) ==> r[i] == m[i]
  {
    WordLimit();
    ValueOfDigits(w, 4);
    Splice(m, a, WordBytes(w))
  }

  /** A word depends on its own four bytes only. */
  lemma WordFrame(m: seq<byte>, r: seq<byte>, a: nat)
    requires |m| == |r| && a + 4 <= |m|
    requires forall i :: a <= i < a + 4 ==> r[i] == m[i]
    ensures Word(r, a) == Word(m, a)
  {
    assert r[a..a + 4] == m[a..a + 4];
  }

  lemma SliceOfSlice<T>(m: seq<T>, lo: nat, hi: nat, a: nat, b: nat)
    requires lo <= hi <= |m| && a <= b <= hi - lo
    ensures m[lo..hi][a..b] == m[lo + a..lo + b]
  {
    var s, t := m[lo..hi][a..b], m[lo + a..lo + b];
    assert |s| == |t|;
    assert forall i :: 0 <= i < |s| ==> s[i] == t[i];
  }

  /** A word read through a window of the buffer is the word of the buffer. */
  lemma WordInSlice(m: seq<byte>, lo: nat, hi: nat, a: nat)
    requires lo <= hi <= |m| && a + 4 <= hi - lo
    ensures Word(m[lo..hi], a) == Word(m, lo + a)
  {
    SliceOfSlice(m, lo, hi, a, a + 4);
  }

  /** memcpy into a buffer. */
  method Store(buf: array<byte>, at: nat, s: seq<byte>)
    requires at + |s| <= buf.Length
    modifies buf
    ensures buf[..] == Splice(old(buf[..]), at, s)
  {
    forall i | 0 <= i < |s| {
      buf[at + i] := s[i];
    }
    assert buf[..] == Splice(old(buf[..]), at, s);
  }

  /** A 32-bit store into a buffer. */
  method StoreWord(buf: array<byte>, a: nat, w: uint32)
    requires a + 4 <= buf.Length
    modifies buf
    ensures buf[..] == SetWord(old(buf[..]), a, w)
  {
    Store(buf, a, WordBytes(w));
  }

  /** A 32-bit load from a buffer. */
  method LoadWord(buf: array<byte>, a: nat) returns (w: uint32)
    requires a + 4 <= buf.Length
    ensures w == Word(buf[..], a)
  {
    assert buf[..][a..a + 4] == [buf[a], buf[a + 1], buf[a + 2], buf[a + 3]];
    WordLimit();
    w := Value([buf[a], buf[a + 1], buf[a + 2], buf[a + 3]]);
  }

  lemma WordOfPrefix(s: seq<byte>, t: seq<byte>, a: nat)
    requires a + 4 <= |s|
    ensures Word(s + t, a) == Word(s, a)
  {
    assert (s + t)[a..a + 4] == s[a..a + 4];
  }

  /** Where the bytes of a word stand, the word is read. */
  lemma WordWritten(m: seq<byte>, a: nat, w: uint32)
    requires a + 4 <= |m| && m[a..a + 4] == WordBytes(w)
    ensures Word(m, a) == w
  {
    WordLimit();
    ValueOfDigits(w, 4);
  }
}
