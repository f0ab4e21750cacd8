/** UTF-8 as section 4 of RFC 3629 defines it, and Go's decoder, byte by byte. */
module Utf8 {
  type byte = b: int | 0 <= b < 256

  type Bytes = seq<byte>

  const RUNE_ERROR := 0xFFFD

  /** A Unicode scalar value: no surrogates, nothing past the last plane. */
  predicate Scalar(r: int) {
    0 <= r < 0xD800 || 0xE000 <= r <= 0x10FFFF
  }

  /** The encoding of one scalar value. */
  function Encode(r: int): (s: Bytes)
    requires Scalar(r)
    ensures 1 <= |s| <= 4
  {
    if r < 0x80 then [r]
    else if r < 0x800 then [0xC0 + r / 0x40, 0x80 + r % 0x40]
    else if r < 0x10000 then [0xE0 + r / 0x1000, 0x80 + r / 0x40 % 0x40, 0x80 + r % 0x40]
    else [0xF0 + r / 0x40000, 0x80 + r / 0x1000 % 0x40, 0x80 + r / 0x40 % 0x40, 0x80 + r % 0x40]
  }

  ghost predicate AllScalar(runes: seq<int>) {
    forall i :: 0 <= i < |runes| ==> Scalar(runes[i])
  }

  ghost function EncodeAll(runes: seq<int>): Bytes
    requires AllScalar(runes)
  {
    if runes == [] then [] else Encode(runes[0]) + EncodeAll(runes[1..])
  }

  lemma {:induction false} EncodeJoined(a: seq<int>, b: seq<int>)
    requires AllScalar(a) && AllScalar(b)
    ensures EncodeAll(a + b) == EncodeAll(a) + EncodeAll(b)
  {
    if a == [] {
      assert a + b == b;
    } else {
      EncodeJoined(a[1..], b);
      assert (a + b)[1..] == a[1..] + b;
    }
  }

  // ----- the decoder -----

  datatype Decoded = Decoded(rune: int, size: nat)

  const INVALID := Decoded(RUNE_ERROR, 1)

  /** How many bytes the sequence that b starts takes, 0 when b starts none. */
  function LengthOf(b: byte): nat {
    if b < 0x80 then 1
    else if 0xC2 <= b <= 0xDF then 2
    else if 0xE0 <= b <= 0xEF then 3
    else if 0xF0 <= b <= 0xF4 then 4
    else 0
  }

  /** Which second bytes a first byte accepts: no overlong form, no surrogate,
      nothing past the last plane. */
  predicate AcceptsSecond(first: byte, second: byte) {
    if first == 0xE0 then 0xA0 <= second <= 0xBF
    else if first == 0xED then 0x80 <= second <= 0x9F
    else if first == 0xF0 then 0x90 <= second <= 0xBF
    else if first == 0xF4 then 0x80 <= second <= 0x8F
    else 0x80 <= second <= 0xBF
  }

  predicate Continues(b: byte) {
    0x80 <= b <= 0xBF
  }

  /** The payload of a byte once its marker is taken off. */
  function Bits(b: byte, marker: int): int {
    b as int - marker
  }

  /** utf8.DecodeRune on a text that is not empty. */
  function Decode(s: Bytes): (d: Decoded)
    requires s != []
    ensures 1 <= d.size <= 4 && d.size <= |s|
  {
    var n := LengthOf(s[0]);
    if n == 1 then Decoded(s[0], 1)
    else if n == 0 || |s| < n || !AcceptsSecond(s[0], s[1]) then INVALID
    else if n == 2 then Decoded(Bits(s[0], 0xC0) * 0x40 + Bits(s[1], 0x80), 2)
    else if !Continues(s[2]) then INVALID
    else if n == 3 then Decoded(Bits(s[0], 0xE0) * 0x1000 + Bits(s[1], 0x80) * 0x40 + Bits(s[2], 0x80), 3)
    else if !Continues(s[3]) then INVALID
    else Decoded(Bits(s[0], 0xF0) * 0x40000 + Bits(s[1], 0x80) * 0x1000 + Bits(s[2], 0x80) * 0x40 + Bits(s[3], 0x80), 4)
  }

  /** What the decoder accepts is exactly the encoding of a scalar value. */
  lemma DecodeIsEncoding(s: Bytes)
    requires s != [] && Decode(s) != INVALID
    ensures Scalar(Decode(s).rune) && s[..Decode(s).size] == Encode(Decode(s).rune)
  {
    var d := Decode(s);
    match d.size
    case 1 =>
    case 2 =>
      Split2(Bits(s[0], 0xC0), Bits(s[1], 0x80));
    case 3 =>
      Split3(Bits(s[0], 0xE0), Bits(s[1], 0x80), Bits(s[2], 0x80));
    case 4 =>
      Split4(Bits(s[0], 0xF0), Bits(s[1], 0x80), Bits(s[2], 0x80), Bits(s[3], 0x80));
  }

  lemma Split2(a: int, b: int)
    requires 0 <= b < 0x40
    ensures (a * 0x40 + b) / 0x40 == a && (a * 0x40 + b) % 0x40 == b
  {
  }

  lemma Split3(a: int, b: int, c: int)
    requires 0 <= b < 0x40 && 0 <= c < 0x40
    ensures var r := a * 0x1000 + b * 0x40 + c; r / 0x1000 == a && r / 0x40 % 0x40 == b && r % 0x40 == c
  {
    var r := a * 0x1000 + b * 0x40 + c;
    assert r == (a * 0x40 + b) * 0x40 + c;
    assert r / 0x40 == a * 0x40 + b;
  }

  lemma Split4(a: int, b: int, c: int, d: int)
    requires 0 <= b < 0x40 && 0 <= c < 0x40 && 0 <= d < 0x40
    ensures var r := a * 0x40000 + b * 0x1000 + c * 0x40 + d;
            r / 0x40000 == a && r / 0x1000 % 0x40 == b && r / 0x40 % 0x40 == c && r % 0x40 == d
  {
    var r := a * 0x40000 + b * 0x1000 + c * 0x40 + d;
    assert r == ((a * 0x40 + b) * 0x40 + c) * 0x40 + d;
    assert r / 0x40 == (a * 0x40 + b) * 0x40 + c;
    assert r / 0x1000 == a * 0x40 + b;
  }

  lemma Digits3(r: int)
    requires 0 <= r
    ensures r == (r / 0x1000) * 0x1000 + (r / 0x40 % 0x40) * 0x40 + r % 0x40
  {
    var q := r / 0x40;
    assert r == q * 0x40 + r % 0x40 && q == (q / 0x40) * 0x40 + q % 0x40;
    assert q / 0x40 == r / 0x1000;
  }

  lemma Digits4(r: int)
    requires 0 <= r
    ensures r == (r / 0x40000) * 0x40000 + (r / 0x1000 % 0x40) * 0x1000 + (r / 0x40 % 0x40) * 0x40 + r % 0x40
  {
    var q := r / 0x1000;
    Digits3(r);
    assert q == (q / 0x40) * 0x40 + q % 0x40;
    assert q / 0x40 == r / 0x40000;
  }

  lemma Undo3(r: int, s: Bytes)
    requires Scalar(r) && 0x800 <= r < 0x10000 && |s| >= 3 && s[..3] == Encode(r)
    ensures Decode(s) == Decoded(r, 3)
  {
    Digits3(r);
    assert s[0] == s[..3][0] && s[1] == s[..3][1] && s[2] == s[..3][2];
    if r < 0x1000 {
      assert r / 0x1000 == 0 && r / 0x40 >= 0x20;
    } else if 0xD000 <= r {
      assert r / 0x40 % 0x40 == r / 0x40 - (r / 0x1000) * 0x40;
    }
  }

  lemma Undo4(r: int, s: Bytes)
    requires Scalar(r) && 0x10000 <= r && |s| >= 4 && s[..4] == Encode(r)
    ensures Decode(s) == Decoded(r, 4)
  {
    Digits4(r);
    assert s[0] == s[..4][0] && s[1] == s[..4][1] && s[2] == s[..4][2] && s[3] == s[..4][3];
    assert r / 0x1000 % 0x40 == r / 0x1000 - (r / 0x40000) * 0x40;
  }

  /** Decoding undoes encoding, whatever follows. */
  lemma DecodeUndoesEncode(r: int, rest: Bytes)
    requires Scalar(r)
    ensures Decode(Encode(r) + rest) == Decoded(r, |Encode(r)|)
  {
    var e := Encode(r);
    var s := e + rest;
    assert s[..|e|] == e;
    if r >= 0x800 {
      hide Decode;
      if r < 0x10000 { Undo3(r, s); } else { Undo4(r, s); }
    } else {
      assert s[0] == e[0];
      if r >= 0x80 { assert s[1] == e[1]; }
    }
  }

  /** The decoder rejects a byte exactly when no scalar value's encoding starts there. */
  lemma InvalidExactly(s: Bytes)
    requires s != []
    ensures Decode(s) == INVALID <==> forall r :: Scalar(r) ==> !(Encode(r) <= s)
  {
    if Decode(s) != INVALID {
      DecodeIsEncoding(s);
      assert Encode(Decode(s).rune) <= s;
    }
    if r :| Scalar(r) && Encode(r) <= s {
      var rest := s[|Encode(r)|..];
      assert s == Encode(r) + rest;
      DecodeUndoesEncode(r, rest);
      EncodedError(r);
    }
  }

  /** A genuine U+FFFD takes three bytes, so it is never taken for an error. */
  lemma EncodedError(r: int)
    requires Scalar(r)
    ensures Decoded(r, |Encode(r)|) != INVALID
  {
  }

  /** The examples of section 7 of RFC 3629. */
  lemma RfcExamples()
    ensures Encode(0x41) == [0x41] && Encode(0x2E) == [0x2E] && Encode(0x0391) == [0xCE, 0x91]
    ensures Encode(0x2262) == [0xE2, 0x89, 0xA2] && Encode(0xFEFF) == [0xEF, 0xBB, 0xBF]
    ensures Encode(0xD55C) == [0xED, 0x95, 0x9C] && Encode(0xAD6D) == [0xEA, 0xB5, 0xAD]
    ensures Encode(0xC5B4) == [0xEC, 0x96, 0xB4] && Encode(0x65E5) == [0xE6, 0x97, 0xA5]
    ensures Encode(0x672C) == [0xE6, 0x9C, 0xAC] && Encode(0x8A9E) == [0xE8, 0xAA, 0x9E]
    ensures Encode(0x233B4) == [0xF0, 0xA3, 0x8E, 0xB4]
  {
  }
}
