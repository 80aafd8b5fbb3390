/**
 * encodeURIComponent and decodeURIComponent on UTF-16 text: section 19.2.6 of ECMA-262 over
 * the UTF-8 of section 3 of RFC 3629 and the escapes of section 2.1 of RFC 3986.
 */
module PercentCoding {
  import opened Wrappers

  /** A UTF-16 code unit, and JavaScript text. */
  type Unit = n: int | 0 <= n < 0x1_0000
  type Text = seq<Unit>

  type Byte = n: int | 0 <= n < 0x100

  const PERCENT: Unit := 0x25

  /** ASCII literals as text. */
  function Ascii(s: string): (t: Text)
    ensures |t| == |s|
    ensures forall i | 0 <= i < |s| && s[i] < '\U{0080}' :: t[i] == s[i] as int
  {
    seq(|s|, i requires 0 <= i < |s| => if s[i] < '\U{0080}' then s[i] as int else 0xFFFD)
  }

  predicate IsHigh(u: Unit) { 0xD800 <= u < 0xDC00 }

  predicate IsLow(u: Unit) { 0xDC00 <= u < 0xE000 }

  /** A surrogate at `i` has its other half. */
  predicate Paired(t: Text, i: nat)
    requires i < |t|
  {
    && (IsHigh(t[i]) ==> i + 1 < |t| && IsLow(t[i + 1]))
    && (IsLow(t[i]) ==> 0 < i && IsHigh(t[i - 1]))
  }

  /** Every surrogate is half of a pair. */
  ghost predicate WellFormed(t: Text) {
    forall i: nat | i < |t| :: Paired(t, i)
  }

  predicate IsDigitUnit(u: Unit) { 0x30 <= u <= 0x39 }

  /** The units encodeURIComponent leaves alone: letters, digits and - _ . ! ~ * ' ( ) */
  predicate Unreserved(u: Unit) {
    IsDigitUnit(u) || 0x41 <= u <= 0x5A || 0x61 <= u <= 0x7A
    || u == 0x2D || u == 0x5F || u == 0x2E || u == 0x21 || u == 0x7E || u == 0x2A || u == 0x27 || u == 0x28 || u == 0x29
  }

  // ---------------------------------------------------------------- code points

  /** A Unicode scalar value. */
  type Scalar = n: int | 0 <= n < 0xD800 || 0xE000 <= n < 0x11_0000

  function Utf16(c: Scalar): Text {
    if c < 0x1_0000 then [c] else [0xD800 + (c - 0x1_0000) / 0x400, 0xDC00 + (c - 0x1_0000) % 0x400]
  }

  function Pair(high: Unit, low: Unit): Scalar
    requires IsHigh(high) && IsLow(low)
  {
    0x1_0000 + (high - 0xD800) * 0x400 + (low - 0xDC00)
  }

  function Utf8(c: Scalar): (bytes: seq<Byte>)
    ensures 1 <= |bytes| <= 4
  {
    if c < 0x80 then [c]
    else if c < 0x800 then [0xC0 + c / 0x40, 0x80 + c % 0x40]
    else if c < 0x1_0000 then [0xE0 + c / 0x1000, 0x80 + c / 0x40 % 0x40, 0x80 + c % 0x40]
    else [0xF0 + c / 0x4_0000, 0x80 + c / 0x1000 % 0x40, 0x80 + c / 0x40 % 0x40, 0x80 + c % 0x40]
  }

  // ---------------------------------------------------------------- escapes

  function HexDigit(n: int): Unit
    requires 0 <= n < 16
  {
    if n < 10 then 0x30 + n else 0x41 + n - 10
  }

  /** Either case of hex digit; None for anything else. */
  function HexValue(u: Unit): (n: Option<int>)
    ensures n.Some? ==> 0 <= n.value < 16
  {
    if IsDigitUnit(u) then Some(u - 0x30)
    else if 0x41 <= u <= 0x46 then Some(u - 0x41 + 10)
    else if 0x61 <= u <= 0x66 then Some(u - 0x61 + 10)
    else None
  }

  function Escape(b: Byte): Text { [PERCENT, HexDigit(b / 16), HexDigit(b % 16)] }

  function EscapeAll(bytes: seq<Byte>): (t: Text)
    ensures |t| == 3 * |bytes|
  {
    if bytes == [] then [] else Escape(bytes[0]) + EscapeAll(bytes[1..])
  }

  /** The byte of the escape at the front of `t`. */
  function Unescape(t: Text): Option<Byte> {
    if |t| < 3 || t[0] != PERCENT || HexValue(t[1]).None? || HexValue(t[2]).None? then None
    else Some(HexValue(t[1]).value * 16 + HexValue(t[2]).value)
  }

  // ---------------------------------------------------------------- encode

  /** The scalar value at the front of the text and the units it takes; None on a lone surrogate. */
  function Front(t: Text): (r: Option<(Scalar, nat)>)
    requires t != []
    ensures r.Some? ==> 1 <= r.value.1 <= |t| && r.value.1 == |Utf16(r.value.0)|
  {
    if IsLow(t[0]) then None
    else if !IsHigh(t[0]) then Some((t[0], 1))
    else if |t| < 2 || !IsLow(t[1]) then None
    else Some((Pair(t[0], t[1]), 2))
  }

  /** encodeURIComponent; None where it throws a URIError. */
  function Encode(t: Text): Option<Text> {
    if t == [] then Some([])
    else if Unreserved(t[0]) then
      var rest := Encode(t[1..]);
      if rest.None? then None else Some([t[0]] + rest.value)
    else
      var front := Front(t);
      if front.None? then None
      else
        var rest := Encode(t[front.value.1..]);
        if rest.None? then None else Some(EscapeAll(Utf8(front.value.0)) + rest.value)
  }

  // ---------------------------------------------------------------- decode

  /** How many bytes a lead byte announces. */
  function LeadLength(b: Byte): Option<nat> {
    if b < 0x80 then Some(1)
    else if 0xC0 <= b < 0xE0 then Some(2)
    else if 0xE0 <= b < 0xF0 then Some(3)
    else if 0xF0 <= b < 0xF8 then Some(4)
    else None
  }

  /** The next `n` escapes, all of them continuation bytes. */
  function Continuation(t: Text, n: nat): (r: Option<seq<Byte>>)
    ensures r.Some? ==> |r.value| == n && 3 * n <= |t| && forall i | 0 <= i < n :: 0x80 <= r.value[i] < 0xC0
  {
    if n == 0 then Some([])
    else
      var b := Unescape(t);
      if b.None? || !(0x80 <= b.value < 0xC0) then None
      else
        var rest := Continuation(t[3..], n - 1);
        if rest.None? then None else Some([b.value] + rest.value)
  }

  /** The payload bits of a sequence put together. */
  function Assemble(b: seq<int>): int
    requires 1 <= |b| <= 4
  {
    if |b| == 1 then b[0]
    else if |b| == 2 then (b[0] - 0xC0) * 0x40 + (b[1] - 0x80)
    else if |b| == 3 then (b[0] - 0xE0) * 0x1000 + (b[1] - 0x80) * 0x40 + (b[2] - 0x80)
    else (b[0] - 0xF0) * 0x4_0000 + (b[1] - 0x80) * 0x1000 + (b[2] - 0x80) * 0x40 + (b[3] - 0x80)
  }

  /** No overlong form, no surrogate, nothing beyond U+10FFFF. */
  predicate ValidSequence(bytes: seq<Byte>)
    requires 1 <= |bytes| <= 4
  {
    var c := Assemble(bytes);
    (0 <= c < 0xD800 || 0xE000 <= c < 0x11_0000)
    && (if |bytes| == 1 then c < 0x80 else if |bytes| == 2 then 0x80 <= c else if |bytes| == 3 then 0x800 <= c else 0x1_0000 <= c)
  }

  /** The bytes of the scalar value escaped at the front of `t`. */
  function FrontBytes(t: Text): (r: Option<seq<Byte>>)
    ensures r.Some? ==> 1 <= |r.value| <= 4 && 3 * |r.value| <= |t|
  {
    var lead := Unescape(t);
    if lead.None? || LeadLength(lead.value).None? then None
    else
      var rest := Continuation(t[3..], LeadLength(lead.value).value - 1);
      if rest.None? then None else Some([lead.value] + rest.value)
  }

  /** decodeURIComponent; None where it throws a URIError. */
  function Decode(t: Text): Option<Text> {
    if t == [] then Some([])
    else if t[0] != PERCENT then
      var rest := Decode(t[1..]);
      if rest.None? then None else Some([t[0]] + rest.value)
    else
      var bytes := FrontBytes(t);
      if bytes.None? || !ValidSequence(bytes.value) then None
      else
        var rest := Decode(t[3 * |bytes.value|..]);
        if rest.None? then None else Some(Utf16(Assemble(bytes.value)) + rest.value)
  }

  // ---------------------------------------------------------------- round trip

  lemma FrontIs(t: Text)
    requires t != [] && Front(t).Some?
    ensures t == Utf16(Front(t).value.0) + t[Front(t).value.1..]
  {
  }

  lemma UnescapeEscape(b: Byte, rest: Text)
    ensures Unescape(Escape(b) + rest) == Some(b) && (Escape(b) + rest)[3..] == rest
  {
    var t := Escape(b) + rest;
    assert t[0] == PERCENT && t[1] == HexDigit(b / 16) && t[2] == HexDigit(b % 16);
    assert HexValue(HexDigit(b / 16)) == Some(b / 16) && HexValue(HexDigit(b % 16)) == Some(b % 16);
  }

  lemma EscapeAllSplit(bytes: seq<Byte>, rest: Text)
    requires bytes != []
    ensures EscapeAll(bytes) + rest == Escape(bytes[0]) + (EscapeAll(bytes[1..]) + rest)
  {
  }

  lemma {:induction false} ContinuationOfEscapes(bytes: seq<Byte>, rest: Text)
    requires forall i | 0 <= i < |bytes| :: 0x80 <= bytes[i] < 0xC0
    ensures Continuation(EscapeAll(bytes) + rest, |bytes|) == Some(bytes)
  {
    if bytes != [] {
      EscapeAllSplit(bytes, rest);
      UnescapeEscape(bytes[0], EscapeAll(bytes[1..]) + rest);
      ContinuationOfEscapes(bytes[1..], rest);
      assert [bytes[0]] + bytes[1..] == bytes;
    }
  }

  /** UTF-8 of a scalar value is one valid sequence of the announced length that reads back. */
  lemma Utf8ReadsBack(c: Scalar)
    ensures var bytes := Utf8(c);
      && LeadLength(bytes[0]) == Some(|bytes|)
      && (forall i | 1 <= i < |bytes| :: 0x80 <= bytes[i] < 0xC0)
      && Assemble(bytes) == c && ValidSequence(bytes)
  {
    assert c == c / 0x40 * 0x40 + c % 0x40;
    assert c / 0x40 == c / 0x1000 * 0x40 + c / 0x40 % 0x40;
    assert c / 0x1000 == c / 0x4_0000 * 0x40 + c / 0x1000 % 0x40;
  }

  lemma FrontBytesOfEscapes(c: Scalar, rest: Text)
    ensures FrontBytes(EscapeAll(Utf8(c)) + rest) == Some(Utf8(c))
    ensures (EscapeAll(Utf8(c)) + rest)[3 * |Utf8(c)|..] == rest
    ensures (EscapeAll(Utf8(c)) + rest)[0] == PERCENT
  {
    var bytes := Utf8(c);
    Utf8ReadsBack(c);
    EscapeAllSplit(bytes, rest);
    UnescapeEscape(bytes[0], EscapeAll(bytes[1..]) + rest);
    ContinuationOfEscapes(bytes[1..], rest);
    assert [bytes[0]] + bytes[1..] == bytes;
  }

  lemma DecodeEscapes(c: Scalar, rest: Text)
    requires Decode(rest).Some?
    ensures Decode(EscapeAll(Utf8(c)) + rest) == Some(Utf16(c) + Decode(rest).value)
  {
    Utf8ReadsBack(c);
    FrontBytesOfEscapes(c, rest);
  }

  /** Whatever encodeURIComponent returns, decodeURIComponent turns back. */
  lemma {:induction false} DecodeEncode(t: Text)
    requires Encode(t).Some?
    ensures Decode(Encode(t).value) == Some(t)
  {
    if t != [] {
      if Unreserved(t[0]) {
        DecodeEncode(t[1..]);
        var e := Encode(t).value;
        assert e[0] == t[0] && e[1..] == Encode(t[1..]).value;
        assert [t[0]] + t[1..] == t;
      } else {
        var (c, n) := Front(t).value;
        DecodeEncode(t[n..]);
        DecodeEscapes(c, Encode(t[n..]).value);
        FrontIs(t);
      }
    }
  }

  lemma PairedInTail(t: Text, n: nat, i: nat)
    requires t != [] && Front(t).Some? && n == Front(t).value.1
    requires n <= i < |t|
    ensures Paired(t, i) <==> Paired(t[n..], i - n)
  {
    var tail := t[n..];
    assert tail[i - n] == t[i];
    assert i > n ==> tail[i - n - 1] == t[i - 1];
    assert i + 1 < |t| ==> tail[i - n + 1] == t[i + 1];
  }

  lemma WellFormedTail(t: Text, n: nat)
    requires t != [] && Front(t).Some? && n == Front(t).value.1
    ensures WellFormed(t) <==> WellFormed(t[n..])
  {
    if WellFormed(t) {
      forall i: nat | i < |t[n..]| ensures Paired(t[n..], i) { PairedInTail(t, n, n + i); }
    }
    if WellFormed(t[n..]) {
      forall i: nat | i < |t| ensures Paired(t, i) { if n <= i { PairedInTail(t, n, i); } }
    }
  }

  lemma LoneFront(t: Text)
    requires t != [] && Front(t).None?
    ensures !Paired(t, 0)
  {
  }

  /** encodeURIComponent throws exactly on a lone surrogate. */
  lemma {:induction false} EncodeIff(t: Text)
    ensures Encode(t).Some? <==> WellFormed(t)
  {
    if t != [] {
      if Front(t).Some? {
        EncodeIff(t[Front(t).value.1..]);
        WellFormedTail(t, Front(t).value.1);
      } else {
        LoneFront(t);
      }
    }
  }

  /** The output alphabet: unreserved units and escapes, so no delimiter of the URI grammar. */
  predicate Plain(u: Unit) { Unreserved(u) || u == PERCENT }

  lemma {:induction false} EscapesArePlain(bytes: seq<Byte>)
    ensures forall u | u in EscapeAll(bytes) :: Plain(u)
  {
    if bytes != [] {
      EscapesArePlain(bytes[1..]);
      assert forall n | 0 <= n < 16 :: Plain(HexDigit(n));
      assert forall u | u in Escape(bytes[0]) :: Plain(u);
    }
  }

  lemma {:induction false} EncodedIsPlain(t: Text)
    requires Encode(t).Some?
    ensures forall u | u in Encode(t).value :: Plain(u)
    ensures t != [] ==> Encode(t).value != []
  {
    if t != [] {
      if Unreserved(t[0]) {
        EncodedIsPlain(t[1..]);
      } else {
        EncodedIsPlain(t[Front(t).value.1..]);
        EscapesArePlain(Utf8(Front(t).value.0));
      }
    }
  }

  /** Text without escapes decodes to itself, lone surrogates and all. */
  lemma {:induction false} DecodeUnescaped(t: Text)
    requires PERCENT !in t
    ensures Decode(t) == Some(t)
  {
    if t != [] {
      DecodeUnescaped(t[1..]);
      assert [t[0]] + t[1..] == t;
    }
  }

  /** Letters, digits and nine marks stay as they are; every other unit is escaped or refused. */
  lemma EncodeLeavesAlone(u: Unit)
    ensures Encode([u]) == Some([u]) <==>
      u < 0x80 && var c := u as char; 'A' <= c <= 'Z' || 'a' <= c <= 'z' || '0' <= c <= '9' || c in "-_.!~*'()"
  {
    assert [u][1..] == [] && [u] + [] == [u];
    if !Unreserved(u) && Encode([u]).Some? {
      assert |Encode([u]).value| >= 3;
    }
    assert forall c :: c in "-_.!~*'()" <==>
      c == '-' || c == '_' || c == '.' || c == '!' || c == '~' || c == '*' || c == '\'' || c == '(' || c == ')';
  }

  lemma {:induction false} EncodeUnreserved(t: Text)
    requires forall u | u in t :: Unreserved(u)
    ensures Encode(t) == Some(t)
  {
    if t != [] {
      EncodeUnreserved(t[1..]);
      assert [t[0]] + t[1..] == t;
    }
  }

  // ---------------------------------------------------------------- what decodeURIComponent accepts

  /** A unit other than `%`, or the escapes of one scalar value's UTF-8, each hex digit in either case. */
  datatype Piece = Raw(unit: Unit) | Escaped(text: Text, scalar: Scalar)

  predicate IsHex(u: Unit, n: int) {
    (0 <= n < 10 && u == 0x30 + n) || (10 <= n < 16 && (u == 0x41 + n - 10 || u == 0x61 + n - 10))
  }

  predicate Escapes(text: Text, bytes: seq<Byte>) {
    if bytes == [] then text == []
    else |text| >= 3 && text[0] == PERCENT && IsHex(text[1], bytes[0] / 16) && IsHex(text[2], bytes[0] % 16)
         && Escapes(text[3..], bytes[1..])
  }

  predicate IsPiece(p: Piece) { if p.Raw? then p.unit != PERCENT else Escapes(p.text, Utf8(p.scalar)) }

  function Source(p: Piece): Text { if p.Raw? then [p.unit] else p.text }

  function Meaning(p: Piece): Text { if p.Raw? then [p.unit] else Utf16(p.scalar) }

  /** The pieces in order make up `t`, and their meanings make up `v`. */
  ghost predicate Cuts(pieces: seq<Piece>, t: Text, v: Text) {
    if pieces == [] then t == [] && v == []
    else
      && IsPiece(pieces[0]) && Source(pieces[0]) <= t && Meaning(pieces[0]) <= v
      && Cuts(pieces[1..], t[|Source(pieces[0])|..], v[|Meaning(pieces[0])|..])
  }

  lemma HexIs(u: Unit, n: int)
    ensures HexValue(u) == Some(n) <==> IsHex(u, n)
  {
  }

  lemma UnescapeIs(t: Text, b: Byte)
    ensures Unescape(t) == Some(b)
      <==> |t| >= 3 && t[0] == PERCENT && IsHex(t[1], b / 16) && IsHex(t[2], b % 16)
  {
    if |t| >= 3 {
      HexIs(t[1], b / 16);
      HexIs(t[2], b % 16);
      if HexValue(t[1]).Some? && HexValue(t[2]).Some? {
        HexIs(t[1], HexValue(t[1]).value);
        HexIs(t[2], HexValue(t[2]).value);
      }
    }
  }

  lemma {:induction false} EscapesLength(text: Text, bytes: seq<Byte>)
    requires Escapes(text, bytes)
    ensures |text| == 3 * |bytes|
  {
    if bytes != [] {
      EscapesLength(text[3..], bytes[1..]);
    }
  }

  lemma {:induction false} EscapesContinue(text: Text, bytes: seq<Byte>, rest: Text)
    requires Escapes(text, bytes) && forall i | 0 <= i < |bytes| :: 0x80 <= bytes[i] < 0xC0
    ensures Continuation(text + rest, |bytes|) == Some(bytes)
  {
    if bytes != [] {
      UnescapeIs(text + rest, bytes[0]);
      assert (text + rest)[3..] == text[3..] + rest;
      EscapesContinue(text[3..], bytes[1..], rest);
      assert [bytes[0]] + bytes[1..] == bytes;
    }
  }

  lemma {:induction false} ContinuesEscapes(t: Text, n: nat)
    requires Continuation(t, n).Some?
    ensures Escapes(t[..3 * n], Continuation(t, n).value)
  {
    if n > 0 {
      var bytes := Continuation(t, n).value;
      UnescapeIs(t, bytes[0]);
      ContinuesEscapes(t[3..], n - 1);
      assert bytes[1..] == Continuation(t[3..], n - 1).value;
      assert t[..3 * n][3..] == t[3..][..3 * (n - 1)];
    }
  }

  predicate OneSequence(bytes: seq<Byte>) {
    && 1 <= |bytes| <= 4 && LeadLength(bytes[0]) == Some(|bytes|)
    && forall i | 1 <= i < |bytes| :: 0x80 <= bytes[i] < 0xC0
  }

  /** The bytes of one escaped sequence are found at the front of the text, in whatever case. */
  lemma FrontBytesOfPiece(text: Text, bytes: seq<Byte>, rest: Text)
    requires OneSequence(bytes) && Escapes(text, bytes)
    ensures FrontBytes(text + rest) == Some(bytes) && (text + rest)[0] == PERCENT
    ensures |text| == 3 * |bytes| && (text + rest)[3 * |bytes|..] == rest
  {
    EscapesLength(text, bytes);
    UnescapeIs(text + rest, bytes[0]);
    assert (text + rest)[3..] == text[3..] + rest;
    EscapesContinue(text[3..], bytes[1..], rest);
    assert [bytes[0]] + bytes[1..] == bytes;
  }

  lemma TwoDigits(c: int, a: int, b: int)
    requires 0 <= b < 0x40 && c == a * 0x40 + b
    ensures c / 0x40 == a && c % 0x40 == b
  {
  }

  /** Overlong forms, surrogates and what is beyond U+10FFFF aside, a sequence is the UTF-8 of its value. */
  lemma ValidIsUtf8(bytes: seq<Byte>)
    requires OneSequence(bytes) && ValidSequence(bytes)
    ensures Utf8(Assemble(bytes)) == bytes
  {
    var c, lead: int := Assemble(bytes), bytes[0];
    if |bytes| == 1 {
      assert bytes == [bytes[0]];
    } else if |bytes| == 2 {
      TwoDigits(c, lead - 0xC0, bytes[1] - 0x80);
      assert bytes == [bytes[0], bytes[1]];
    } else if |bytes| == 3 {
      var high := (lead - 0xE0) * 0x40 + (bytes[1] - 0x80);
      TwoDigits(c, high, bytes[2] - 0x80);
      TwoDigits(high, lead - 0xE0, bytes[1] - 0x80);
      assert c / 0x1000 == c / 0x40 / 0x40;
      assert bytes == [bytes[0], bytes[1], bytes[2]];
    } else {
      FourBytes(bytes);
    }
  }

  lemma FourBytes(bytes: seq<Byte>)
    requires OneSequence(bytes) && |bytes| == 4 && ValidSequence(bytes)
    ensures Utf8(Assemble(bytes)) == bytes
  {
    var c, lead: int := Assemble(bytes), bytes[0];
    var top := (lead - 0xF0) * 0x40 + (bytes[1] - 0x80);
    var high := top * 0x40 + (bytes[2] - 0x80);
    TwoDigits(c, high, bytes[3] - 0x80);
    TwoDigits(high, top, bytes[2] - 0x80);
    TwoDigits(top, lead - 0xF0, bytes[1] - 0x80);
    assert c / 0x1000 == c / 0x40 / 0x40 && c / 0x4_0000 == c / 0x40 / 0x40 / 0x40;
    assert bytes == [bytes[0], bytes[1], bytes[2], bytes[3]];
  }

  lemma FrontBytesAre(t: Text)
    requires FrontBytes(t).Some? && ValidSequence(FrontBytes(t).value)
    ensures var bytes := FrontBytes(t).value;
      IsPiece(Escaped(t[..3 * |bytes|], Assemble(bytes))) && Utf8(Assemble(bytes)) == bytes
  {
    var bytes := FrontBytes(t).value;
    var n := |bytes| - 1;
    UnescapeIs(t, bytes[0]);
    ContinuesEscapes(t[3..], n);
    assert bytes[1..] == Continuation(t[3..], n).value;
    assert t[..3 * |bytes|][3..] == t[3..][..3 * n];
    ValidIsUtf8(bytes);
  }

  lemma EscapedDecodes(text: Text, c: Scalar, rest: Text)
    requires Escapes(text, Utf8(c)) && Decode(rest).Some?
    ensures Decode(text + rest) == Some(Utf16(c) + Decode(rest).value)
  {
    Utf8ReadsBack(c);
    FrontBytesOfPiece(text, Utf8(c), rest);
  }

  lemma PieceDecodes(p: Piece, rest: Text)
    requires IsPiece(p) && Decode(rest).Some?
    ensures Decode(Source(p) + rest) == Some(Meaning(p) + Decode(rest).value)
  {
    if p.Escaped? {
      EscapedDecodes(p.text, p.scalar, rest);
    } else {
      assert ([p.unit] + rest)[1..] == rest;
    }
  }

  lemma {:induction false} CutsDecode(pieces: seq<Piece>, t: Text, v: Text)
    requires Cuts(pieces, t, v)
    ensures Decode(t) == Some(v)
  {
    if pieces != [] {
      var p := pieces[0];
      var rest, left := t[|Source(p)|..], v[|Meaning(p)|..];
      CutsDecode(pieces[1..], rest, left);
      PieceDecodes(p, rest);
      assert t == Source(p) + rest && v == Meaning(p) + left;
    }
  }

  lemma OneMorePiece(p: Piece, pieces: seq<Piece>, t: Text, v: Text)
    requires IsPiece(p) && Cuts(pieces, t, v)
    ensures Cuts([p] + pieces, Source(p) + t, Meaning(p) + v)
  {
    assert ([p] + pieces)[1..] == pieces;
    assert (Source(p) + t)[|Source(p)|..] == t && (Meaning(p) + v)[|Meaning(p)|..] == v;
  }

  lemma {:induction false} DecodeCuts(t: Text) returns (pieces: seq<Piece>)
    requires Decode(t).Some?
    ensures Cuts(pieces, t, Decode(t).value)
  {
    if t == [] {
      pieces := [];
    } else if t[0] != PERCENT {
      var rest := DecodeCuts(t[1..]);
      OneMorePiece(Raw(t[0]), rest, t[1..], Decode(t[1..]).value);
      assert t == [t[0]] + t[1..];
      pieces := [Raw(t[0])] + rest;
    } else {
      var bytes := FrontBytes(t).value;
      var n := 3 * |bytes|;
      var rest := DecodeCuts(t[n..]);
      FrontBytesAre(t);
      var p := Escaped(t[..n], Assemble(bytes));
      OneMorePiece(p, rest, t[n..], Decode(t[n..]).value);
      assert t == t[..n] + t[n..];
      pieces := [p] + rest;
    }
  }

  /** Some way of cutting `t` into pieces means `v`. */
  ghost predicate Means(t: Text, v: Text) { exists pieces :: Cuts(pieces, t, v) }

  /** decodeURIComponent returns exactly on texts of raw units and escaped UTF-8, and gives what they mean. */
  lemma DecodeIff(t: Text, v: Text)
    ensures Decode(t) == Some(v) <==> Means(t, v)
  {
    if Decode(t).Some? {
      var cuts := DecodeCuts(t);
      assert Means(t, Decode(t).value);
    }
    if Means(t, v) {
      var pieces :| Cuts(pieces, t, v);
      CutsDecode(pieces, t, v);
    }
  }
}
