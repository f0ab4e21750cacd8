/** Rendering text from outside so that it can be shown: every control, invisible or
    invalid byte becomes visible ASCII. */
module Escaping {
  import opened Utf8

  // ----- what has to be escaped -----

  predicate IsControl(r: int) {
    r < 0x20 || 0x7F <= r <= 0x9F
  }

  predicate IsInvisible(r: int) {
    || r == 0x061C || r == 0xFEFF
    || 0x200B <= r <= 0x200F
    || 0x202A <= r <= 0x202E
    || 0x2060 <= r <= 0x2064
    || 0x2066 <= r <= 0x2069
  }

  predicate NeedsEscape(r: int) {
    IsControl(r) || IsInvisible(r) || r == RUNE_ERROR
  }

  /** A character that may be shown as it is. */
  predicate Displayable(r: int) {
    Scalar(r) && !IsControl(r) && !IsInvisible(r)
  }

  ghost predicate AllDisplayable(runes: seq<int>) {
    forall i :: 0 <= i < |runes| ==> Displayable(runes[i])
  }

  /** Valid UTF-8 without a control, bidirectional or invisible character. */
  ghost predicate SafeText(s: Bytes) {
    exists runes :: AllDisplayable(runes) && AllScalar(runes) && s == EncodeAll(runes)
  }

  // ----- the escape sequences -----

  const BACKSLASH: byte := 0x5C
  const LOWER_X: byte := 0x78
  const LOWER_U: byte := 0x75
  const OPEN_BRACE: byte := 0x7B
  const CLOSE_BRACE: byte := 0x7D
  const APOSTROPHE: byte := 0x27

  const ESCAPE_PREFIX: Bytes := [BACKSLASH, LOWER_X]
  const RUNE_ESCAPE_PREFIX: Bytes := [BACKSLASH, LOWER_U, OPEN_BRACE]
  const RUNE_ESCAPE_DIGITS: nat := 4

  function HexDigit(n: nat): byte
    requires n < 16
  {
    if n < 10 then 0x30 + n else 0x61 + (n - 10)
  }

  function HexValueOf(d: byte): int {
    if 0x30 <= d <= 0x39 then d - 0x30 else d - 0x61 + 10
  }

  function EscapedByte(b: byte): Bytes {
    ESCAPE_PREFIX + [HexDigit(b / 16), HexDigit(b % 16)]
  }

  /** The hex digits of v, at least width of them. */
  function HexDigits(v: nat, width: nat): Bytes
    decreases v, width
  {
    if v == 0 && width == 0 then []
    else HexDigits(v / 16, if width > 0 then width - 1 else 0) + [HexDigit(v % 16)]
  }

  function HexValue(s: Bytes): int {
    if s == [] then 0 else HexValue(s[..|s| - 1]) * 16 + HexValueOf(s[|s| - 1])
  }

  /** The digits name the code point, none of it cut off. */
  lemma {:induction false} HexRoundTrip(v: nat, width: nat)
    ensures HexValue(HexDigits(v, width)) == v && |HexDigits(v, width)| >= width
    decreases v, width
  {
    if v > 0 || width > 0 {
      var less := if width > 0 then width - 1 else 0;
      HexRoundTrip(v / 16, less);
      var s := HexDigits(v, width);
      assert s[..|s| - 1] == HexDigits(v / 16, less);
    }
  }

  function EscapedRune(r: nat): Bytes {
    RUNE_ESCAPE_PREFIX + HexDigits(r, RUNE_ESCAPE_DIGITS) + [CLOSE_BRACE]
  }

  // ----- Escape -----

  /** What Escape writes for the character a text starts with. */
  function Piece(s: Bytes): Bytes
    requires s != []
  {
    var d := Decode(s);
    if d == INVALID then EscapedByte(s[0])
    else if IsControl(d.rune) then ControlEscape(s)
    else if IsInvisible(d.rune) then EscapedRune(d.rune)
    else s[..d.size]
  }

  function ControlEscape(s: Bytes): Bytes
    requires s != [] && Decode(s) != INVALID && IsControl(Decode(s).rune)
  {
    DecodeIsEncoding(s);
    EscapedByte(Decode(s).rune)
  }

  function Escaped(s: Bytes): Bytes {
    if s == [] then [] else Piece(s) + Escaped(s[Decode(s).size..])
  }

  /** Some character of the text needs escaping. */
  predicate Unsafe(s: Bytes) {
    s != [] && (NeedsEscape(Decode(s).rune) || Unsafe(s[Decode(s).size..]))
  }

  lemma {:induction false} SafeIsUnchanged(s: Bytes)
    requires !Unsafe(s)
    ensures Escaped(s) == s
  {
    if s != [] {
      hide Decode, EscapedByte, EscapedRune, ControlEscape;
      SafeIsUnchanged(s[Decode(s).size..]);
      assert s == s[..Decode(s).size] + s[Decode(s).size..];
    }
  }

  method FindUnsafe(value: Bytes) returns (found: bool)
    ensures found == Unsafe(value)
  {
    var index := 0;
    while index < |value|
      invariant index <= |value| && Unsafe(value) == Unsafe(value[index..])
    {
      var d := Decode(value[index..]);
      if NeedsEscape(d.rune) { return true; }
      assert value[index..][d.size..] == value[index + d.size..];
      index := index + d.size;
    }
    found := false;
  }

  /** What is left to write once the digits behind it stand. */
  ghost predicate Filling(value: nat, remaining: nat, width: nat, digits: Bytes) {
    HexDigits(value, RUNE_ESCAPE_DIGITS) == HexDigits(remaining, width) + digits
  }

  function Width(written: nat): nat {
    if written < RUNE_ESCAPE_DIGITS then RUNE_ESCAPE_DIGITS - written else 0
  }

  lemma FillOne(value: nat, remaining: nat, written: nat, digits: Bytes)
    requires Filling(value, remaining, Width(written), digits) && (remaining > 0 || written < RUNE_ESCAPE_DIGITS)
    ensures Filling(value, remaining / 16, Width(written + 1), [HexDigit(remaining % 16)] + digits)
  {
    var less := HexDigits(remaining / 16, Width(written + 1));
    assert less + [HexDigit(remaining % 16)] + digits == less + ([HexDigit(remaining % 16)] + digits);
  }

  /** writeRuneEscaped: the digits are filled in from the last place backwards. */
  method WriteRuneEscaped(builder: Bytes, value: nat) returns (escaped: Bytes)
    requires value < 0x110000
    ensures escaped == builder + EscapedRune(value)
  {
    hide HexDigits, HexDigit;
    var digits := new byte[8](i => 0x30);
    var position: nat := 8;
    var remaining: nat := value;
    StartsEmpty(value);
    assert digits[8..] == [];
    while remaining > 0 || 8 - position < RUNE_ESCAPE_DIGITS
      invariant 0 <= position <= 8 && remaining < Power16(position)
      invariant Filling(value, remaining, Width(8 - position), digits[position..])
      decreases position
    {
      DigitsLeft(remaining, position);
      FillOne(value, remaining, 8 - position, digits[position..]);
      ghost var was := digits[position..];
      position := position - 1;
      digits[position] := HexDigit(remaining % 16);
      assert digits[position..] == [HexDigit(remaining % 16)] + was;
      remaining := remaining / 16;
    }
    NothingLeft();
    escaped := builder + RUNE_ESCAPE_PREFIX + digits[position..] + [CLOSE_BRACE];
  }

  lemma StartsEmpty(value: nat)
    requires value < 0x110000
    ensures value < Power16(8) && Filling(value, value, Width(0), [])
  {
    assert Power16(6) == 0x1000000 && Power16(8) == 256 * Power16(6);
  }

  lemma NothingLeft()
    ensures HexDigits(0, 0) == []
  {
  }

  function Power16(n: nat): nat {
    if n == 0 then 1 else 16 * Power16(n - 1)
  }

  lemma DigitsLeft(remaining: nat, position: nat)
    requires position <= 8 && remaining < Power16(position) && (remaining > 0 || 8 - position < RUNE_ESCAPE_DIGITS)
    ensures position > 0 && remaining / 16 < Power16(position - 1)
  {
  }

  /** One turn of Escape's loop. */
  method WritePiece(builder: Bytes, rest: Bytes) returns (escaped: Bytes)
    requires rest != []
    ensures escaped == builder + Piece(rest)
  {
    hide Decode, EscapedByte, EscapedRune;
    var d := Decode(rest);
    if d == INVALID {
      escaped := builder + EscapedByte(rest[0]);
      return;
    }
    DecodeIsEncoding(rest);
    if IsControl(d.rune) {
      escaped := builder + EscapedByte(d.rune);
    } else if IsInvisible(d.rune) {
      escaped := WriteRuneEscaped(builder, d.rune);
    } else {
      escaped := builder + rest[..d.size];
    }
  }

  method Escape(value: Bytes) returns (escaped: Bytes)
    ensures escaped == Escaped(value)
  {
    hide Decode, Piece, Unsafe;
    var unsafe := FindUnsafe(value);
    if !unsafe {
      SafeIsUnchanged(value);
      return value;
    }
    escaped := [];
    var index := 0;
    while index < |value|
      invariant index <= |value| && escaped + Escaped(value[index..]) == Escaped(value)
    {
      ghost var before := escaped;
      var d := Decode(value[index..]);
      escaped := WritePiece(escaped, value[index..]);
      OnePiece(value, index, before);
      index := index + d.size;
    }
  }

  lemma OnePiece(value: Bytes, index: nat, before: Bytes)
    requires index < |value| && before + Escaped(value[index..]) == Escaped(value)
    ensures var rest := value[index..];
            var next := index + Decode(rest).size;
            next <= |value| && before + Piece(rest) + Escaped(value[next..]) == Escaped(value)
  {
    hide *;
    var rest := value[index..];
    var size := Decode(rest).size;
    EscapedStep(rest);
    assert rest[size..] == value[index + size..];
    Associate(before, Piece(rest), Escaped(rest[size..]));
  }

  lemma EscapedStep(s: Bytes)
    requires s != []
    ensures Escaped(s) == Piece(s) + Escaped(s[Decode(s).size..])
  {
  }

  lemma Associate(a: Bytes, b: Bytes, c: Bytes)
    ensures a + b + c == a + (b + c)
  {
  }

  // ----- what Escape promises -----

  /** Visible ASCII, as characters. */
  ghost predicate Visible(s: Bytes) {
    forall i :: 0 <= i < |s| ==> 0x20 <= s[i] < 0x7F
  }

  lemma {:induction false} VisibleIsText(s: Bytes)
    requires Visible(s)
    ensures AllDisplayable(s) && AllScalar(s) && EncodeAll(s) == s
  {
    if s != [] {
      VisibleIsText(s[1..]);
      assert s == [s[0]] + s[1..];
    }
  }

  lemma {:induction false} HexIsVisible(v: nat, width: nat)
    ensures Visible(HexDigits(v, width))
    decreases v, width
  {
    if v > 0 || width > 0 { HexIsVisible(v / 16, if width > 0 then width - 1 else 0); }
  }

  /** Every piece is the encoding of characters that may be shown. */
  lemma PieceIsText(s: Bytes) returns (runes: seq<int>)
    requires s != []
    ensures AllDisplayable(runes) && AllScalar(runes) && Piece(s) == EncodeAll(runes)
  {
    hide Encode, Decode;
    var d := Decode(s);
    if d != INVALID { DecodeIsEncoding(s); }
    if d != INVALID && !IsControl(d.rune) && !IsInvisible(d.rune) {
      runes := [d.rune];
      assert runes[1..] == [];
      assert EncodeAll(runes) == Encode(d.rune) + EncodeAll([]);
    } else {
      runes := Piece(s);
      if d != INVALID && !IsControl(d.rune) { HexIsVisible(d.rune, RUNE_ESCAPE_DIGITS); }
      VisibleIsText(Piece(s));
    }
  }

  /** For every byte string, the result is valid UTF-8 with no control, bidirectional
      or invisible character. */
  lemma {:induction false} EscapedIsSafe(s: Bytes)
    ensures SafeText(Escaped(s))
  {
    if s == [] {
      assert AllDisplayable([]) && AllScalar([]) && EncodeAll([]) == [];
    } else {
      hide Piece, Decode;
      var rest := s[Decode(s).size..];
      EscapedIsSafe(rest);
      var head := PieceIsText(s);
      var tail :| AllDisplayable(tail) && AllScalar(tail) && Escaped(rest) == EncodeAll(tail);
      EncodeJoined(head, tail);
      assert AllDisplayable(head + tail) && AllScalar(head + tail);
    }
  }

  lemma {:induction false} TextIsUnchanged(runes: seq<int>)
    requires AllDisplayable(runes) && AllScalar(runes)
    ensures Escaped(EncodeAll(runes)) == EncodeAll(runes)
  {
    if runes != [] {
      hide Encode, Decode;
      var rest := EncodeAll(runes[1..]);
      var s := Encode(runes[0]) + rest;
      TextIsUnchanged(runes[1..]);
      DecodeUndoesEncode(runes[0], rest);
      EncodedError(runes[0]);
      assert s[|Encode(runes[0])|..] == rest && s[..|Encode(runes[0])|] == Encode(runes[0]);
    }
  }

  /** Escape changes nothing exactly when the text is already safe. */
  lemma UnchangedExactlyWhenSafe(s: Bytes)
    ensures Escaped(s) == s <==> SafeText(s)
  {
    EscapedIsSafe(s);
    if SafeText(s) {
      var runes :| AllDisplayable(runes) && AllScalar(runes) && s == EncodeAll(runes);
      TextIsUnchanged(runes);
    }
  }

  lemma EscapeIsIdempotent(s: Bytes)
    ensures Escaped(Escaped(s)) == Escaped(s)
  {
    EscapedIsSafe(s);
    UnchangedExactlyWhenSafe(Escaped(s));
  }

  /** Nothing is removed: the text never gets shorter. */
  lemma {:induction false} EscapeNeverShortens(s: Bytes)
    ensures |Escaped(s)| >= |s|
  {
    if s != [] {
      EscapeNeverShortens(s[Decode(s).size..]);
      PieceIsLonger(s);
    }
  }

  lemma PieceIsLonger(s: Bytes)
    requires s != []
    ensures |Piece(s)| >= Decode(s).size
  {
    hide Decode;
    if Decode(s) != INVALID && IsControl(Decode(s).rune) { DecodeIsEncoding(s); }
    if Decode(s) != INVALID && IsInvisible(Decode(s).rune) { HexRoundTrip(Decode(s).rune, RUNE_ESCAPE_DIGITS); }
  }

  // ----- character by character -----

  /** The Unicode Bidi_Control characters: the Arabic letter mark, the left-to-right and
      right-to-left marks, the embeddings and overrides, and the isolates. */
  const BIDI_CONTROLS := {0x061C, 0x200E, 0x200F, 0x202A, 0x202B, 0x202C, 0x202D, 0x202E, 0x2066, 0x2067, 0x2068,
                          0x2069}

  /** What draws nothing: zero-width space and joiners, the word joiner, the invisible
      operators, and the byte order mark. */
  const UNSEEN := {0x200B, 0x200C, 0x200D, 0x2060, 0x2061, 0x2062, 0x2063, 0x2064, 0xFEFF}

  const C0_CONTROLS := {0, 1, 2, 3, 4, 5, 6, 7, 8, 9, 10, 11, 12, 13, 14, 15,
                        16, 17, 18, 19, 20, 21, 22, 23, 24, 25, 26, 27, 28, 29, 30, 31}

  /** A C0 control, DEL, or one of the 32 C1 controls that follow it. */
  predicate ControlCharacter(r: int) {
    r in C0_CONTROLS || r == 127 || r - 128 in C0_CONTROLS
  }

  lemma ListsAreComplete(r: int)
    ensures IsInvisible(r) <==> r in BIDI_CONTROLS || r in UNSEEN
    ensures r >= 0 ==> (IsControl(r) <==> ControlCharacter(r))
  {
  }

  /** The result of Escape holds none of the characters listed. */
  lemma EscapedHoldsNone(s: Bytes) returns (runes: seq<int>)
    ensures AllScalar(runes) && Escaped(s) == EncodeAll(runes)
    ensures forall i :: 0 <= i < |runes| ==>
              runes[i] !in BIDI_CONTROLS && runes[i] !in UNSEEN && !ControlCharacter(runes[i])
  {
    hide IsInvisible, IsControl, ControlCharacter;
    EscapedIsSafe(s);
    runes :| AllDisplayable(runes) && AllScalar(runes) && Escaped(s) == EncodeAll(runes);
    forall i | 0 <= i < |runes|
      ensures runes[i] !in BIDI_CONTROLS && runes[i] !in UNSEEN && !ControlCharacter(runes[i])
    {
      ListsAreComplete(runes[i]);
    }
  }

  /** The sixteen digits, as bytes. */
  const DIGITS: Bytes := [0x30, 0x31, 0x32, 0x33, 0x34, 0x35, 0x36, 0x37, 0x38, 0x39, 0x61, 0x62, 0x63, 0x64, 0x65,
                          0x66]

  /** What is shown for one character: a control as a backslash, an x and two digits, an
      invisible one as a backslash and u{ } around four digits, any other as it is. */
  function Shown(r: int): Bytes
    requires Scalar(r)
  {
    ListsAreSmall(r);
    if ControlCharacter(r) then [0x5C, 0x78, DIGITS[r / 16], DIGITS[r % 16]]
    else if r in BIDI_CONTROLS || r in UNSEEN then
      [0x5C, 0x75, 0x7B, DIGITS[r / 0x1000 % 16], DIGITS[r / 0x100 % 16], DIGITS[r / 16 % 16], DIGITS[r % 16], 0x7D]
    else Encode(r)
  }

  /** Escape goes character by character; a byte that starts no character is shown as
      a control is, and the text goes on after it. */
  lemma EscapeByCharacter(r: int, rest: Bytes)
    requires Scalar(r)
    ensures Escaped(Encode(r) + rest) == Shown(r) + Escaped(rest)
  {
    hide Encode, Decode, Piece, Shown;
    var s := Encode(r) + rest;
    DecodeUndoesEncode(r, rest);
    EncodedError(r);
    assert s[|Encode(r)|..] == rest && s[..|Encode(r)|] == Encode(r);
    PieceIsShown(s, r);
  }

  lemma PieceIsShown(s: Bytes, r: int)
    requires Scalar(r) && s != [] && Decode(s) == Decoded(r, |Encode(r)|) != INVALID
    requires |s| >= |Encode(r)| && s[..|Encode(r)|] == Encode(r)
    ensures Piece(s) == Shown(r)
  {
    hide Encode, Decode, IsInvisible, IsControl, ControlCharacter, HexDigits, EscapedByte, EscapedRune;
    ListsAreComplete(r);
    ListsAreSmall(r);
    if IsControl(r) {
      ByteShown(r);
    } else if IsInvisible(r) {
      RuneShown(r);
    }
  }

  lemma ByteShown(b: byte)
    ensures EscapedByte(b) == [0x5C, 0x78, DIGITS[b / 16], DIGITS[b % 16]]
  {
    DigitsAre(b / 16);
    DigitsAre(b % 16);
  }

  lemma RuneShown(r: nat)
    requires r < 0x10000
    ensures EscapedRune(r) ==
            [0x5C, 0x75, 0x7B, DIGITS[r / 0x1000 % 16], DIGITS[r / 0x100 % 16], DIGITS[r / 16 % 16], DIGITS[r % 16],
             0x7D]
  {
    hide HexDigits;
    FourDigits(r);
  }

  lemma ListsAreSmall(r: int)
    requires Scalar(r)
    ensures ControlCharacter(r) ==> r < 160
    ensures r in BIDI_CONTROLS || r in UNSEEN ==> r < 0x10000
  {
  }

  lemma EscapeByByte(s: Bytes)
    requires s != [] && Decode(s) == INVALID
    ensures Escaped(s) == [0x5C, 0x78, DIGITS[s[0] / 16], DIGITS[s[0] % 16]] + Escaped(s[1..])
  {
    hide Decode, EscapedByte;
    ByteShown(s[0]);
  }

  lemma DigitsAre(n: nat)
    requires n < 16
    ensures HexDigit(n) == DIGITS[n]
  {
  }

  lemma FourDigits(r: nat)
    requires r < 0x10000
    ensures HexDigits(r, 4) ==
            [DIGITS[r / 0x1000 % 16], DIGITS[r / 0x100 % 16], DIGITS[r / 16 % 16], DIGITS[r % 16]]
  {
    Quotients(r);
    hide HexDigit;
    LastDigit(r, 4);
    LastDigit(r / 16, 3);
    LastDigit(r / 0x100, 2);
    LastDigit(r / 0x1000, 1);
  }

  lemma Quotients(r: nat)
    requires r < 0x10000
    ensures r / 16 / 16 == r / 0x100 && r / 0x100 / 16 == r / 0x1000 && r / 0x1000 / 16 == 0
  {
  }

  lemma LastDigit(v: nat, width: nat)
    requires width > 0
    ensures HexDigits(v, width) == HexDigits(v / 16, width - 1) + [DIGITS[v % 16]]
    ensures HexDigits(0, 0) == []
  {
    DigitsAre(v % 16);
  }

  // ----- CSV cells -----

  predicate HasEscapePrefix(s: Bytes) {
    ESCAPE_PREFIX <= s || RUNE_ESCAPE_PREFIX <= s
  }

  /** The characters a spreadsheet may take for the start of a formula: = + - @ */
  predicate StartsFormula(s: Bytes) {
    s != [] && (s[0] == 0x3D || s[0] == 0x2B || s[0] == 0x2D || s[0] == 0x40)
  }

  function CsvCell(value: Bytes): Bytes {
    var s := Escaped(value);
    if s == [] then s
    else if HasEscapePrefix(s) then [APOSTROPHE] + s
    else if StartsFormula(s) then [APOSTROPHE] + s
    else s
  }

  lemma QuotedIsSafe(s: Bytes)
    requires SafeText(s)
    ensures SafeText([APOSTROPHE] + s)
  {
    var runes :| AllDisplayable(runes) && AllScalar(runes) && s == EncodeAll(runes);
    var quoted := [0x27] + runes;
    assert quoted[1..] == runes && quoted[0] == 0x27;
    assert EncodeAll(quoted) == Encode(0x27) + EncodeAll(runes);
    assert AllDisplayable(quoted) && AllScalar(quoted);
  }

  /** A cell is safe text that starts neither a formula nor an escape sequence. */
  lemma CsvCellIsGuarded(v: Bytes)
    ensures SafeText(CsvCell(v)) && !StartsFormula(CsvCell(v)) && !HasEscapePrefix(CsvCell(v))
  {
    EscapedIsSafe(v);
    var s := Escaped(v);
    QuotedIsSafe(s);
    assert ([APOSTROPHE] + s)[0] == APOSTROPHE;
    assert ESCAPE_PREFIX[0] == BACKSLASH && RUNE_ESCAPE_PREFIX[0] == BACKSLASH;
  }

  /** A cell is the escaped value, behind an apostrophe exactly when that starts with one
      of = + - @ or with a backslash and the x or u{ of an escape sequence. */
  lemma CsvCellSpelledOut(v: Bytes)
    ensures var s := Escaped(v);
            CsvCell(v) == if StartsBadly(s) then [0x27] + s else s
  {
    hide Escaped;
    PrefixesSpelledOut(Escaped(v));
  }

  predicate StartsBadly(s: Bytes) {
    s != [] &&
    (s[0] in [0x3D, 0x2B, 0x2D, 0x40] ||
     (s[0] == 0x5C && |s| > 1 && (s[1] == 0x78 || (|s| > 2 && s[1] == 0x75 && s[2] == 0x7B))))
  }

  lemma PrefixesSpelledOut(s: Bytes)
    ensures StartsFormula(s) <==> s != [] && s[0] in [0x3D, 0x2B, 0x2D, 0x40]
    ensures HasEscapePrefix(s) <==>
              |s| > 1 && s[0] == 0x5C && (s[1] == 0x78 || (|s| > 2 && s[1] == 0x75 && s[2] == 0x7B))
  {
    if |s| > 2 { assert s[..3] == [s[0], s[1], s[2]]; }
    if |s| > 1 { assert s[..2] == [s[0], s[1]]; }
  }

  /** Building a cell from a cell changes nothing. */
  lemma CsvCellIsIdempotent(v: Bytes)
    ensures CsvCell(CsvCell(v)) == CsvCell(v)
  {
    hide CsvCell;
    CsvCellIsGuarded(v);
    UnchangedExactlyWhenSafe(CsvCell(v));
    CsvCellOfSafe(CsvCell(v));
  }

  lemma CsvCellOfSafe(s: Bytes)
    requires Escaped(s) == s && !StartsFormula(s) && !HasEscapePrefix(s)
    ensures CsvCell(s) == s
  {
  }

  /** A value that was escaped upstream gives the same cell. */
  lemma CsvCellOfEscaped(v: Bytes)
    ensures CsvCell(Escaped(v)) == CsvCell(v)
  {
    EscapeIsIdempotent(v);
  }
}
