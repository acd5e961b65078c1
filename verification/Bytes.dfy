/** Byte strings: fixed-width little-endian integers, NUL-terminated text, zero padding. */
module Bytes {
  type byte = b: int | 0 <= b < 256
  type bytes = seq<byte>

  // ---- little-endian integers ----

  predicate IsU16(n: int) {
    0 <= n < 0x1_0000
  }

  predicate IsU32(n: int) {
    0 <= n < 0x1_0000_0000
  }

  predicate IsI32(n: int) {
    -0x8000_0000 <= n < 0x8000_0000
  }

  /** n.to_bytes(2, "little"). */
  function Le2(n: int): (s: bytes)
    requires IsU16(n)
    ensures |s| == 2 && FromLe2(s) == n
  {
    [n % 256, n / 256]
  }

  function FromLe2(s: bytes): (n: int)
    requires |s| == 2
    ensures IsU16(n)
  {
    s[0] as int + 256 * (s[1] as int)
  }

  /** n.to_bytes(4, "little"). */
  function Le4(n: int): (s: bytes)
    requires IsU32(n)
    ensures |s| == 4 && FromLe4(s) == n
  {
    var q1 := n / 256;
    var q2 := q1 / 256;
    var q3 := q2 / 256;
    [n % 256, q1 % 256, q2 % 256, q3]
  }

  function FromLe4(s: bytes): (n: int)
    requires |s| == 4
    ensures IsU32(n)
  {
    s[0] as int + 256 * (s[1] as int + 256 * (s[2] as int + 256 * (s[3] as int)))
  }

  /** n.to_bytes(4, "little", signed=True): two's complement. */
  function SignedLe4(n: int): (s: bytes)
    requires IsI32(n)
    ensures |s| == 4 && FromSignedLe4(s) == n
  {
    Le4(if n < 0 then n + 0x1_0000_0000 else n)
  }

  function FromSignedLe4(s: bytes): (n: int)
    requires |s| == 4
    ensures IsI32(n)
  {
    var u := FromLe4(s);
    if u < 0x8000_0000 then u else u - 0x1_0000_0000
  }

  lemma Le2OfFromLe2(s: bytes)
    requires |s| == 2
    ensures Le2(FromLe2(s)) == s
  {
    var n := FromLe2(s);
    assert n % 256 == s[0] && n / 256 == s[1];
  }

  /** Equal encodings come from equal numbers. */
  lemma Le4Injective(a: int, b: int)
    requires IsU32(a) && IsU32(b)
    ensures Le4(a) == Le4(b) <==> a == b
  {
    if Le4(a) == Le4(b) {
      assert FromLe4(Le4(a)) == FromLe4(Le4(b));
    }
  }

  // ---- NUL-terminated text ----

  predicate NulFree(s: bytes) {
    forall i :: 0 <= i < |s| ==> s[i] != 0
  }

  /** The bytes before the first NUL, or all of them when there is none. */
  function CutNul(s: bytes): bytes {
    if s == [] || s[0] == 0 then [] else [s[0]] + CutNul(s[1..])
  }

  /** Whatever follows the terminator, cutting gives back the text up to its own first NUL. */
  lemma {:induction false} CutNulTerminated(text: bytes, rest: bytes)
    ensures CutNul(text + [0] + rest) == CutNul(text)
  {
    if text == [] {
      assert (text + [0] + rest)[0] == 0;
    } else {
      assert (text + [0] + rest)[1..] == text[1..] + [0] + rest;
      CutNulTerminated(text[1..], rest);
    }
  }

  lemma {:induction false} CutNulIdentity(text: bytes)
    ensures CutNul(text) == text <==> NulFree(text)
  {
    if text != [] {
      CutNulIdentity(text[1..]);
      if NulFree(text) {
        assert NulFree(text[1..]);
      } else if text[0] != 0 {
        var i :| 0 <= i < |text| && text[i] == 0;
        assert text[1..][i - 1] == 0;
        assert CutNul(text)[1..] == CutNul(text[1..]);
      }
    }
  }

  lemma {:induction false} CutNulShorter(text: bytes)
    ensures |CutNul(text)| <= |text| && (|CutNul(text)| == |text| ==> CutNul(text) == text)
  {
    if text != [] && text[0] != 0 {
      CutNulShorter(text[1..]);
    }
  }

  // ---- zero padding ----

  function Zeros(n: nat): (s: bytes)
    ensures |s| == n
  {
    seq(n, _ => 0)
  }

  /** s.rstrip(b"\x00"). */
  function RStrip(s: bytes): bytes {
    if s == [] || s[|s| - 1] != 0 then s else RStrip(s[..|s| - 1])
  }

  lemma {:induction false} RStripPadding(s: bytes, n: nat)
    ensures RStrip(s + Zeros(n)) == RStrip(s)
  {
    if n == 0 {
      assert s + Zeros(0) == s;
    } else {
      var padded := s + Zeros(n);
      assert padded[..|padded| - 1] == s + Zeros(n - 1);
      RStripPadding(s, n - 1);
    }
  }

  lemma RStripIdentity(s: bytes)
    ensures RStrip(s) == s <==> (s == [] || s[|s| - 1] != 0)
  {
    RStripShrinks(s);
    if s != [] && s[|s| - 1] == 0 {
      RStripShrinks(s[..|s| - 1]);
    }
  }

  lemma {:induction false} RStripShrinks(s: bytes)
    ensures |RStrip(s)| <= |s|
  {
    if s != [] && s[|s| - 1] == 0 {
      RStripShrinks(s[..|s| - 1]);
    }
  }
}
