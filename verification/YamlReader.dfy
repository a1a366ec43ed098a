/** Encodings of the input (reader.c; section 3 of RFC 3629 and section 2.2 of RFC 2781). */
module YamlUnicode {
  import opened ByteOrder
  import opened YamlChars

  datatype Encoding = AnyEncoding | Utf8 | Utf16LE | Utf16BE

  /** The first character of some bytes and its width; or more bytes are needed; or no character begins like that. */
  datatype One = Char(value: int, width: nat) | Incomplete | Invalid

  /** What the reader lets through. */
  predicate Allowed(c: int)
  {
    || c == TAB || c == LF || c == CR || 0x20 <= c <= 0x7E || c == NEL
    || 0xA0 <= c <= 0xD7FF || 0xE000 <= c <= 0xFFFD || 0x10000 <= c <= 0x10FFFF
  }

  // UTF-8.

  function Width(octet: byte): nat
  {
    if octet < 0x80 then 1
    else if 0xC0 <= octet < 0xE0 then 2
    else if 0xE0 <= octet < 0xF0 then 3
    else if 0xF0 <= octet < 0xF8 then 4
    else 0
  }

  function Lead(octet: byte): nat
  {
    if octet < 0x80 then octet
    else if 0xC0 <= octet < 0xE0 then octet - 0xC0
    else if 0xE0 <= octet < 0xF0 then octet - 0xE0
    else if 0xF0 <= octet < 0xF8 then octet - 0xF0
    else 0
  }

  /** The value with the trailing octets from `k` on added, or -1. */
  function Trail(b: seq<byte>, k: nat, width: nat, value: nat): int
    requires k <= width <= |b|
    decreases width - k
  {
    if k == width then value
    else if !(0x80 <= b[k] < 0xC0) then -1
    else Trail(b, k + 1, width, value * 64 + (b[k] - 0x80))
  }

  predicate Shortest(width: nat, value: int)
  {
    width == 1 || (width == 2 && value >= 0x80) || (width == 3 && value >= 0x800) || (width == 4 && value >= 0x10000)
  }

  function DecodeUtf8(b: seq<byte>): One
    requires b != []
  {
    var width := Width(b[0]);
    if width == 0 then Invalid
    else if |b| < width then Incomplete
    else
      var value := Trail(b, 1, width, Lead(b[0]));
      if value < 0 || !Shortest(width, value) || !IsScalarValue(value) then Invalid else Char(value, width)
  }

  /** `c >> 6`, counted off in steps of 64. */
  function High(c: nat): (h: nat)
    ensures 64 * h <= c < 64 * h + 64
  {
    if c < 64 then 0 else 1 + High(c - 64)
  }

  /** `c & 0x3F`. */
  function Low(c: nat): (l: nat)
    ensures l < 64 && c == 64 * High(c) + l
  {
    c - 64 * High(c)
  }

  function EncodeUtf8(c: int): (r: seq<byte>)
    requires IsScalarValue(c)
    ensures 1 <= |r| <= 4
  {
    if c <= 0x7F then [c]
    else if c <= 0x7FF then [0xC0 + High(c), 0x80 + Low(c)]
    else if c <= 0xFFFF then [0xE0 + High(High(c)), 0x80 + Low(High(c)), 0x80 + Low(c)]
    else [0xF0 + High(High(High(c))), 0x80 + Low(High(High(c))), 0x80 + Low(High(c)), 0x80 + Low(c)]
  }

  // UTF-16.

  function Unit(b: seq<byte>, at: nat, little: bool): nat
    requires at + 2 <= |b|
  {
    var first: int, second: int := b[at], b[at + 1];
    if little then first + 256 * second else second + 256 * first
  }

  predicate HighSurrogate(u: nat)
  {
    0xD800 <= u <= 0xDBFF
  }

  predicate LowSurrogate(u: nat)
  {
    0xDC00 <= u <= 0xDFFF
  }

  function DecodeUtf16(b: seq<byte>, little: bool): One
  {
    if |b| < 2 then Incomplete
    else
      var u := Unit(b, 0, little);
      if LowSurrogate(u) then Invalid
      else if !HighSurrogate(u) then Char(u, 2)
      else if |b| < 4 then Incomplete
      else
        var v := Unit(b, 2, little);
        if !LowSurrogate(v) then Invalid else Char(0x10000 + (u - 0xD800) * 1024 + (v - 0xDC00), 4)
  }

  function EncodeUnit(u: nat, little: bool): seq<byte>
    requires u < 0x10000
  {
    if little then [u % 256, u / 256] else [u / 256, u % 256]
  }

  function EncodeUtf16(c: int, little: bool): seq<byte>
    requires IsScalarValue(c)
  {
    if c < 0x10000 then EncodeUnit(c, little)
    else EncodeUnit(0xD800 + (c - 0x10000) / 1024, little) + EncodeUnit(0xDC00 + (c - 0x10000) % 1024, little)
  }

  // Any encoding.

  function DecodeOne(e: Encoding, b: seq<byte>): (r: One)
    requires b != []
    ensures r.Char? ==> IsScalarValue(r.value) && 1 <= r.width <= |b| && r.width <= 4
    ensures r.Incomplete? ==> |b| < 4
  {
    if e == Utf16LE || e == Utf16BE then DecodeUtf16(b, e == Utf16LE) else DecodeUtf8(b)
  }

  function Encode(e: Encoding, c: int): seq<byte>
    requires IsScalarValue(c)
  {
    if e == Utf16LE || e == Utf16BE then EncodeUtf16(c, e == Utf16LE) else EncodeUtf8(c)
  }

  lemma {:induction false} TrailExtends(b: seq<byte>, more: seq<byte>, k: nat, width: nat, value: nat)
    requires k <= width <= |b|
    ensures Trail(b + more, k, width, value) == Trail(b, k, width, value)
    decreases width - k
  {
    if k < width && 0x80 <= b[k] < 0xC0 {
      TrailExtends(b, more, k + 1, width, value * 64 + (b[k] - 0x80));
    }
  }

  /** A decision made on some bytes stands when more arrive. */
  lemma DecodeExtends(e: Encoding, b: seq<byte>, more: seq<byte>)
    requires b != [] && !DecodeOne(e, b).Incomplete?
    ensures DecodeOne(e, b + more) == DecodeOne(e, b)
  {
    if e != Utf16LE && e != Utf16BE && 1 <= Width(b[0]) <= |b| {
      TrailExtends(b, more, 1, Width(b[0]), Lead(b[0]));
    }
  }

  lemma TrailValues(b: seq<byte>, width: nat, value: nat)
    requires 1 <= width <= 4 && width <= |b| && forall k :: 1 <= k < width ==> 0x80 <= b[k] < 0xC0
    ensures width == 1 ==> Trail(b, 1, width, value) == value
    ensures width == 2 ==> Trail(b, 1, width, value) == value * 64 + (b[1] - 0x80)
    ensures width == 3 ==> Trail(b, 1, width, value) == (value * 64 + (b[1] - 0x80)) * 64 + (b[2] - 0x80)
    ensures width == 4 ==>
      Trail(b, 1, width, value) == ((value * 64 + (b[1] - 0x80)) * 64 + (b[2] - 0x80)) * 64 + (b[3] - 0x80)
  {
    if width > 1 {
      var v1 := value * 64 + (b[1] - 0x80);
      assert Trail(b, 1, width, value) == Trail(b, 2, width, v1);
      if width > 2 {
        var v2 := v1 * 64 + (b[2] - 0x80);
        assert Trail(b, 2, width, v1) == Trail(b, 3, width, v2);
        if width > 3 {
          assert Trail(b, 3, width, v2) == Trail(b, 4, width, v2 * 64 + (b[3] - 0x80));
        }
      }
    }
  }

  /** Decoding a character written in UTF-8. */
  lemma Utf8RoundTrip(c: int, rest: seq<byte>)
    requires IsScalarValue(c)
    ensures DecodeUtf8(EncodeUtf8(c) + rest) == Char(c, |EncodeUtf8(c)|) && Width(EncodeUtf8(c)[0]) == |EncodeUtf8(c)|
  {
    var code := EncodeUtf8(c);
    var b := code + rest;
    Utf8Lead(c);
    assert forall k :: 0 <= k < |code| ==> b[k] == code[k];
    Utf8Trail(c, b);
  }

  lemma Utf8Trail(c: int, b: seq<byte>)
    requires IsScalarValue(c) && |EncodeUtf8(c)| <= |b| && forall k ::
      0 <= k < |EncodeUtf8(c)| ==> b[k] == EncodeUtf8(c)[k]
    ensures Trail(b, 1, |EncodeUtf8(c)|, Lead(b[0])) == c
  {
    Utf8Lead(c);
    var width := |EncodeUtf8(c)|;
    TrailValues(b, width, Lead(b[0]));
    if width == 2 {
      assert Lead(b[0]) == High(c) && b[1] - 0x80 == Low(c);
    } else if width == 3 {
      assert Lead(b[0]) == High(High(c)) && b[1] - 0x80 == Low(High(c)) && b[2] - 0x80 == Low(c);
    } else if width == 4 {
      assert Lead(b[0]) == High(High(High(c))) && b[1] - 0x80 == Low(High(High(c))) && b[2] - 0x80 == Low(High(c))
        && b[3] - 0x80 == Low(c);
    }
  }

  lemma Utf8Lead(c: int)
    requires IsScalarValue(c)
    ensures var code := EncodeUtf8(c);
      && Width(code[0]) == |code| && (forall k :: 1 <= k < |code| ==> 0x80 <= code[k] < 0xC0)
      && Lead(code[0]) == (if c <= 0x7F then c else if c <= 0x7FF then High(c) else if c <= 0xFFFF then High(High(c))
                           else High(High(High(c))))
  {
  }

  lemma UnitRoundTrip(u: nat, little: bool, before: seq<byte>, rest: seq<byte>)
    requires u < 0x10000
    ensures Unit(before + EncodeUnit(u, little) + rest, |before|, little) == u
  {
    var b := before + EncodeUnit(u, little) + rest;
    assert b[|before|] == EncodeUnit(u, little)[0] && b[|before| + 1] == EncodeUnit(u, little)[1];
  }

  lemma Utf16RoundTrip(c: int, little: bool, rest: seq<byte>)
    requires IsScalarValue(c)
    ensures DecodeUtf16(EncodeUtf16(c, little) + rest, little) == Char(c, |EncodeUtf16(c, little)|)
  {
    var b := EncodeUtf16(c, little) + rest;
    if c < 0x10000 {
      UnitRoundTrip(c, little, [], rest);
      assert b == [] + EncodeUnit(c, little) + rest;
    } else {
      var u, v := 0xD800 + (c - 0x10000) / 1024, 0xDC00 + (c - 0x10000) % 1024;
      UnitRoundTrip(u, little, [], EncodeUnit(v, little) + rest);
      assert b == [] + EncodeUnit(u, little) + (EncodeUnit(v, little) + rest);
      UnitRoundTrip(v, little, EncodeUnit(u, little), rest);
    }
  }

  /** A valid UTF-8 sequence is the encoding of its character. */
  lemma Utf8Bytes(b: seq<byte>)
    requires b != [] && DecodeUtf8(b).Char?
    ensures b[..DecodeUtf8(b).width] == EncodeUtf8(DecodeUtf8(b).value)
  {
    var width := Width(b[0]);
    TrailOctets(b, 1, width, Lead(b[0]));
    TrailValues(b, width, Lead(b[0]));
    if width == 2 {
      TwoBytes(Lead(b[0]), b[1] - 0x80);
    } else if width == 3 {
      ThreeBytes(Lead(b[0]), b[1] - 0x80, b[2] - 0x80);
    } else if width == 4 {
      FourBytes(Lead(b[0]), b[1] - 0x80, b[2] - 0x80, b[3] - 0x80);
    }
  }

  lemma TwoBytes(x: nat, y: nat)
    requires x < 32 && y < 64 && x * 64 + y >= 0x80
    ensures EncodeUtf8(x * 64 + y) == [0xC0 + x, 0x80 + y]
  {
    SplitOff(x, y);
  }

  lemma ThreeBytes(x: nat, y: nat, z: nat)
    requires x < 16 && y < 64 && z < 64
    requires var c := (x * 64 + y) * 64 + z; c >= 0x800 && IsScalarValue(c)
    ensures EncodeUtf8((x * 64 + y) * 64 + z) == [0xE0 + x, 0x80 + y, 0x80 + z]
  {
    SplitOff(x, y);
    SplitOff(x * 64 + y, z);
  }

  lemma FourBytes(x: nat, y: nat, z: nat, w: nat)
    requires x < 8 && y < 64 && z < 64 && w < 64
    requires var c := ((x * 64 + y) * 64 + z) * 64 + w; c >= 0x10000 && IsScalarValue(c)
    ensures EncodeUtf8(((x * 64 + y) * 64 + z) * 64 + w) == [0xF0 + x, 0x80 + y, 0x80 + z, 0x80 + w]
  {
    SplitOff(x, y);
    SplitOff(x * 64 + y, z);
    SplitOff((x * 64 + y) * 64 + z, w);
  }

  lemma SplitOff(a: nat, d: nat)
    requires d < 64
    ensures High(a * 64 + d) == a && Low(a * 64 + d) == d
  {
  }

  lemma {:induction false} TrailOctets(b: seq<byte>, k: nat, width: nat, value: nat)
    requires k <= width <= |b| && Trail(b, k, width, value) >= 0
    ensures forall j :: k <= j < width ==> 0x80 <= b[j] < 0xC0
    decreases width - k
  {
    if k < width {
      TrailOctets(b, k + 1, width, value * 64 + (b[k] - 0x80));
    }
  }

  // Whole inputs.

  datatype Decoded = Chars(cs: seq<int>) | DecodeError

  /** The characters of the bytes, after those already read. */
  function DecodeFrom(e: Encoding, cs: seq<int>, b: seq<byte>): Decoded
    decreases |b|
  {
    if b == [] then Chars(cs)
    else
      var one := DecodeOne(e, b);
      if one.Char? && Allowed(one.value) then DecodeFrom(e, cs + [one.value], b[one.width..]) else DecodeError
  }

  ghost predicate AllScalars(cs: seq<int>)
  {
    forall k :: 0 <= k < |cs| ==> IsScalarValue(cs[k])
  }

  function EncodeAll(e: Encoding, cs: seq<int>): seq<byte>
    requires forall k :: 0 <= k < |cs| ==> IsScalarValue(cs[k])
  {
    if cs == [] then [] else Encode(e, cs[0]) + EncodeAll(e, cs[1..])
  }

  /** Decoding is the inverse of encoding, for every text of characters that are allowed. */
  lemma {:induction false} DecodesEncoded(e: Encoding, before: seq<int>, cs: seq<int>)
    requires forall k :: 0 <= k < |cs| ==> Allowed(cs[k]) && IsScalarValue(cs[k])
    ensures DecodeFrom(e, before, EncodeAll(e, cs)) == Chars(before + cs)
    decreases |cs|
  {
    if cs == [] {
      assert before + cs == before;
    } else {
      var c, more := cs[0], cs[1..];
      EncodeFirst(e, cs);
      DecodesEncoded(e, before + [c], more);
      DecodesFirst(e, before, c, EncodeAll(e, more));
      FirstMoved(before, cs);
    }
  }

  lemma FirstMoved(before: seq<int>, cs: seq<int>)
    requires cs != []
    ensures before + [cs[0]] + cs[1..] == before + cs
  {
  }

  lemma {:induction false} EncodeFirst(e: Encoding, cs: seq<int>)
    requires cs != [] && AllScalars(cs)
    ensures EncodeAll(e, cs) == Encode(e, cs[0]) + EncodeAll(e, cs[1..])
  {
  }

  lemma DecodesFirst(e: Encoding, before: seq<int>, c: int, rest: seq<byte>)
    requires Allowed(c) && IsScalarValue(c)
    ensures DecodeFrom(e, before, Encode(e, c) + rest) == DecodeFrom(e, before + [c], rest)
  {
    EncodeRoundTrip(e, c, rest);
    assert (Encode(e, c) + rest)[|Encode(e, c)|..] == rest;
  }

  lemma EncodeRoundTrip(e: Encoding, c: int, rest: seq<byte>)
    requires IsScalarValue(c)
    ensures Encode(e, c) + rest != [] && DecodeOne(e, Encode(e, c) + rest) == Char(c, |Encode(e, c)|)
  {
    if e == Utf16LE || e == Utf16BE {
      Utf16RoundTrip(c, e == Utf16LE, rest);
    } else {
      Utf8RoundTrip(c, rest);
    }
  }

  lemma {:induction false} EncodeSnoc(e: Encoding, cs: seq<int>, c: int)
    requires AllScalars(cs) && IsScalarValue(c)
    ensures EncodeAll(e, cs + [c]) == EncodeAll(e, cs) + Encode(e, c)
    decreases |cs|
  {
    if cs == [] {
      assert cs + [c] == [c] && [c][1..] == [];
    } else {
      assert (cs + [c])[0] == cs[0] && (cs + [c])[1..] == cs[1..] + [c];
      EncodeSnoc(e, cs[1..], c);
    }
  }

  lemma Utf8Step(cs: seq<int>, b: seq<byte>)
    requires AllScalars(cs) && b != [] && DecodeOne(Utf8, b).Char?
    ensures var one := DecodeOne(Utf8, b);
      AllScalars(cs + [one.value]) && EncodeAll(Utf8, cs + [one.value]) + b[one.width..] == EncodeAll(Utf8, cs) + b
  {
    var one := DecodeOne(Utf8, b);
    Utf8Bytes(b);
    EncodeSnoc(Utf8, cs, one.value);
    Regroup(EncodeAll(Utf8, cs), b, one.width);
  }

  lemma Regroup(a: seq<byte>, b: seq<byte>, k: nat)
    requires k <= |b|
    ensures a + b[..k] + b[k..] == a + b
  {
  }

  /** UTF-8 input passes through unchanged: encoding what was decoded gives the input back. */
  lemma {:induction false} Utf8PassesThrough(cs: seq<int>, b: seq<byte>)
    requires AllScalars(cs) && DecodeFrom(Utf8, cs, b).Chars?
    ensures AllScalars(DecodeFrom(Utf8, cs, b).cs)
      && EncodeAll(Utf8, DecodeFrom(Utf8, cs, b).cs) == EncodeAll(Utf8, cs) + b
    decreases |b|
  {
    if b != [] {
      var one := DecodeOne(Utf8, b);
      Utf8Step(cs, b);
      Utf8PassesThrough(cs + [one.value], b[one.width..]);
    } else {
      assert EncodeAll(Utf8, cs) + b == EncodeAll(Utf8, cs);
    }
  }

  // Byte order marks.

  function EncodingOf(b: seq<byte>): Encoding
  {
    if |b| >= 2 && b[..2] == [0xFF, 0xFE] then Utf16LE
    else if |b| >= 2 && b[..2] == [0xFE, 0xFF] then Utf16BE
    else Utf8
  }

  function BomLength(b: seq<byte>): (n: nat)
    ensures n <= |b|
  {
    if EncodingOf(b) != Utf8 then 2 else if |b| >= 3 && b[..3] == [0xEF, 0xBB, 0xBF] then 3 else 0
  }

  /** Three bytes, or all there are, decide about the byte order mark. */
  lemma BomDecided(b: seq<byte>, more: seq<byte>)
    requires |b| >= 3 || more == []
    ensures EncodingOf(b + more) == EncodingOf(b) && BomLength(b + more) == BomLength(b)
  {
    if more == [] {
      assert b + more == b;
    } else {
      assert (b + more)[..2] == b[..2] && (b + more)[..3] == b[..3];
    }
  }

  /** The characters of an input. */
  function DecodeInput(b: seq<byte>): Decoded
  {
    DecodeFrom(EncodingOf(b), [], b[BomLength(b)..])
  }
}

/** The reader: a raw buffer and a working buffer of fixed sizes (reader.c). */
module YamlReader {
  import opened ByteOrder
  import opened YamlChars
  import opened YamlUnicode

  const RAW_SIZE := 16384
  const BUFFER_SIZE := 3 * RAW_SIZE
  const MAX_FILE_SIZE := 0x7FFF_FFFF_FFFF_FFFF

  /** The bytes of a character fit in half as much again as what it was read from. */
  lemma Expansion(e: Encoding, b: seq<byte>)
    requires b != [] && DecodeOne(e, b).Char?
    ensures 2 * |EncodeUtf8(DecodeOne(e, b).value)| <= 3 * DecodeOne(e, b).width
  {
    if e != Utf16LE && e != Utf16BE {
      Utf8Bytes(b);
    }
  }

  lemma {:induction false} EncodedSize(cs: seq<int>)
    requires AllScalars(cs)
    ensures |cs| <= |EncodeAll(Utf8, cs)| <= 4 * |cs|
    decreases |cs|
  {
    if cs != [] {
      EncodedSize(cs[1..]);
    }
  }

  ghost predicate NoNul(cs: seq<int>)
  {
    forall k :: 0 <= k < |cs| ==> cs[k] != 0
  }

  class Reader {
    ghost const input: seq<byte>
    ghost const expected: Encoding  // the encoding of the input
    ghost const whole: Decoded      // its characters
    var source: seq<byte>    // what the read handler still has
    var chunks: seq<nat>     // how much it is willing to give at each call
    var eof: bool
    var error: bool
    var encoding: Encoding
    var raw: seq<byte>       // from the pointer to the end of the raw bytes
    var rawPointer: nat
    var buffer: seq<byte>    // from the pointer to the end of the decoded bytes
    var bufferPointer: nat
    var unread: nat
    var offset: nat
    ghost var chars: seq<int>  // every character put into the buffer

    /** The buffers never exceed their sizes. */
    ghost predicate Sizes()
      reads this
    {
      rawPointer + |raw| <= RAW_SIZE && bufferPointer + |buffer| <= BUFFER_SIZE
    }

    /** The working buffer holds the unread characters in UTF-8. */
    ghost predicate Text()
      reads this
    {
      unread <= |chars| && AllScalars(chars) && buffer == EncodeAll(Utf8, chars[|chars| - unread..])
    }

    /** What was put into the buffer and what is still to be decoded make up the input. */
    ghost predicate Decoding()
      reads this
    {
      && encoding == expected && DecodeFrom(encoding, chars, raw + source) == whole
      && (eof ==> source == []) && offset + |raw| + |source| == |input| && |chars| <= offset && NoNul(chars)
    }

    /** The whole input and one NUL were put into the buffer. */
    ghost predicate Finished()
      reads this
    {
      && encoding == expected && eof && raw == [] && source == [] && chars != []
      && whole == Chars(chars[..|chars| - 1]) && chars[|chars| - 1] == 0
      && |chars| <= |input| + 1 && NoNul(chars[..|chars| - 1])
    }

    ghost predicate NotBegun()
      reads this
    {
      encoding == AnyEncoding && !eof && raw == [] && source == input && chars == [] && offset == 0
    }

    ghost predicate Ready()
      reads this
    {
      Sizes() && Text() && if encoding == AnyEncoding then NotBegun() else if eof then Finished() else Decoding()
    }

    /** The expectations are those of the input; both sides are fixed. */
    ghost predicate Expects()
    {
      forall b {:trigger EncodingOf(b)} :: b == input ==> expected == EncodingOf(b) && whole == DecodeInput(b)
    }

    ghost predicate Valid()
      reads this
    {
      if error then whole == DecodeError || |input| >= MAX_FILE_SIZE else Ready()
    }

    constructor (input: seq<byte>, chunks: seq<nat>)
      ensures Valid() && Expects() && !error && this.input == input && chars == [] && unread == 0
    {
      this.input, source, this.chunks, expected, whole := input, input, chunks, EncodingOf(input), DecodeInput(input);
      eof, error, encoding, raw, rawPointer, buffer, bufferPointer, unread, offset := false, false, AnyEncoding, [], 0,
        [], 0, 0, 0;
      chars := [];
    }

    /** Some of what is left, nothing only at the end. */
    method ReadHandler(capacity: nat) returns (b: seq<byte>)
      requires capacity > 0
      modifies this`source, this`chunks
      ensures b + source == old(source) && |b| <= capacity && (b == [] <==> old(source) == [])
    {
      var size := capacity;
      if chunks != [] {
        size := chunks[0];
        chunks := chunks[1..];
      }
      size := if size == 0 then 1 else if size > capacity then capacity else size;
      size := if size > |source| then |source| else size;
      b := source[..size];
      source := source[size..];
    }

    method UpdateRawBuffer()
      requires rawPointer + |raw| <= RAW_SIZE && (eof ==> source == [])
      modifies this`raw, this`rawPointer, this`source, this`chunks, this`eof
      ensures rawPointer + |raw| <= RAW_SIZE && raw + source == old(raw + source) && (eof ==> source == [])
      ensures |source| <= |old(source)| && (old(eof) ==> eof)
      ensures |old(raw)| < RAW_SIZE ==> eof || |source| < |old(source)|
    {
      if (rawPointer == 0 && |raw| == RAW_SIZE) || eof {
        return;
      }
      rawPointer := 0;
      var b := ReadHandler(RAW_SIZE - |raw|);
      raw := raw + b;
      if b == [] {
        eof := true;
      }
    }

    method DetermineEncoding()
      requires Sizes() && NotBegun() && Expects()
      modifies this`raw, this`rawPointer, this`source, this`chunks, this`eof, this`encoding, this`offset
      ensures Sizes() && Decoding() && encoding != AnyEncoding
    {
      assert expected == EncodingOf(input);
      FillForBom();
      BomDecided(raw, source);
      BomLeaves(raw, source);
      encoding := EncodingOf(raw);
      var n := BomLength(raw);
      raw, rawPointer, offset := raw[n..], rawPointer + n, offset + n;
    }

    /** Reads three bytes, or all there are. */
    method FillForBom()
      requires Sizes() && NotBegun()
      modifies this`raw, this`rawPointer, this`source, this`chunks, this`eof
      ensures Sizes() && raw + source == input && |raw| + |source| == |input| && (|raw| >= 3 || source == [])
        && (eof ==> source == [])
    {
      while !eof && |raw| < 3
        invariant rawPointer + |raw| <= RAW_SIZE && raw + source == input && (eof ==> source == [])
        decreases |source|, !eof
      {
        UpdateRawBuffer();
      }
      assert |raw + source| == |raw| + |source|;
    }

    /** Decodes the character at the raw pointer. */
    method DecodeNext() returns (one: One)
      requires raw != []
      ensures one == DecodeOne(encoding, raw)
    {
      if encoding == Utf16LE || encoding == Utf16BE {
        return DecodeUtf16(raw, encoding == Utf16LE);
      }
      var width := Width(raw[0]);
      if width == 0 {
        return Invalid;
      }
      if width > |raw| {
        return Incomplete;
      }
      var value: nat, k := Lead(raw[0]), 1;
      while k < width
        invariant 1 <= k <= width
        invariant Trail(raw, k, width, value) == Trail(raw, 1, width, Lead(raw[0]))
      {
        if !(0x80 <= raw[k] < 0xC0) {
          return Invalid;
        }
        var low: int := raw[k] - 0x80;
        value := value * 64 + low;
        k := k + 1;
      }
      if !Shortest(width, value) || !IsScalarValue(value) {
        return Invalid;
      }
      one := Char(value, width);
    }

    method Put(c: int)
      requires IsScalarValue(c) && Text()
      modifies this`buffer, this`unread, this`chars
      ensures Text() && chars == old(chars) + [c] && unread == old(unread) + 1
        && |buffer| == |old(buffer)| + |EncodeUtf8(c)|
    {
      ghost var pending := chars[|chars| - unread..];
      EncodeSnoc(Utf8, pending, c);
      buffer, unread, chars := buffer + EncodeUtf8(c), unread + 1, chars + [c];
      assert chars[|chars| - unread..] == pending + [c];
    }

    /** One character goes from the raw buffer to the working buffer. */
    method Take(one: One)
      requires Text() && Decoding() && raw != [] && one == DecodeOne(encoding, raw) && one.Char? && Allowed(one.value)
      modifies this`raw, this`rawPointer, this`offset, this`buffer, this`unread, this`chars
      ensures Text() && Decoding() && rawPointer + |raw| == old(rawPointer + |raw|) && |raw| < |old(raw)|
      ensures 2 * |buffer| + 3 * |raw| <= old(2 * |buffer| + 3 * |raw|)
      ensures chars == old(chars) + [one.value] && unread == old(unread) + 1
    {
      Expansion(encoding, raw);
      Drop(one);
      Put(one.value);
    }

    /** The bytes of a character leave the raw buffer. */
    method Drop(one: One)
      requires Decoding() && raw != [] && one == DecodeOne(encoding, raw) && one.Char? && Allowed(one.value)
      modifies this`raw, this`rawPointer, this`offset
      ensures DecodeFrom(encoding, chars + [one.value], raw + source) == whole && one.width > 0
      ensures |raw| == |old(raw)| - one.width && rawPointer == old(rawPointer) + one.width
        && offset == old(offset) + one.width
    {
      TakeOne(encoding, chars, raw, source);
      raw, rawPointer, offset := raw[one.width..], rawPointer + one.width, offset + one.width;
    }

    /** Decodes the raw buffer, but for an incomplete character at its end. */
    method DecodeRaw() returns (ok: bool)
      requires Text() && Decoding()
      modifies this`raw, this`rawPointer, this`offset, this`buffer, this`unread, this`chars
      ensures ok ==>
        Text() && Decoding() && rawPointer + |raw| == old(rawPointer + |raw|) && |raw| < 4 && (eof ==> raw == [])
      ensures ok ==>
        2 * |buffer| <= 2 * |old(buffer)| + 3 * |old(raw)| && old(chars) <= chars
        && |chars| - unread == old(|chars| - unread)
      ensures !ok ==> whole == DecodeError
    {
      while raw != []
        invariant Text() && Decoding() && rawPointer + |raw| == old(rawPointer + |raw|)
        invariant 2 * |buffer| + 3 * |raw| <= old(2 * |buffer| + 3 * |raw|) && old(chars) <= chars
          && |chars| - unread == old(|chars| - unread)
        decreases |raw|
      {
        var one := DecodeNext();
        TakeFails(encoding, chars, raw, source);
        if one.Incomplete? {
          return !eof;
        }
        if one.Invalid? || !Allowed(one.value) {
          return false;
        }
        Take(one);
      }
      ok := true;
    }

    /** What is left over of the buffer when fewer than `length` characters are unread. */
    ghost predicate Short(length: nat)
      reads this
    {
      |buffer| <= 4 * (length - 1)
    }

    lemma FewAreShort(length: nat)
      requires Text() && unread < length
      ensures Short(length)
    {
      EncodedSize(chars[|chars| - unread..]);
    }

    /** One turn of the loop: fills the raw buffer if asked to, and decodes it. */
    method FillOnce(length: nat, first: bool) returns (ok: bool)
      requires Sizes() && Text() && Decoding() && bufferPointer == 0 && unread < length <= 6144
      requires |raw| < 4 || first
      modifies this`raw, this`rawPointer, this`source, this`chunks, this`eof, this`offset, this`buffer, this`unread,
        this`chars
      ensures ok ==>
        Text() && Decoding() && rawPointer + |raw| <= RAW_SIZE && |buffer| < BUFFER_SIZE && |raw| < 4
        && (eof ==> raw == [])
      ensures ok ==>
        old(chars) <= chars && |chars| - unread == old(|chars| - unread) && |source| <= |old(source)|
        && (old(eof) ==> eof)
      ensures ok && (!first || old(raw) == []) ==> eof || |source| < |old(source)|
      ensures !ok ==> whole == DecodeError
    {
      FewAreShort(length);
      if !first || raw == [] {
        UpdateRawBuffer();
      }
      ok := DecodeRaw();
    }

    /** On EOF one NUL is put into the buffer. */
    method PutNul()
      requires Text() && Decoding() && eof && raw == [] && rawPointer <= RAW_SIZE && bufferPointer == 0
        && |buffer| < BUFFER_SIZE
      requires encoding != AnyEncoding
      modifies this`buffer, this`unread, this`chars
      ensures Ready() && Finished() && unread == old(unread) + 1 && chars == old(chars) + [0]
    {
      assert raw + source == [];
      Put(0);
      assert chars[..|chars| - 1] == old(chars);
    }

    /** Decodes until there are enough characters; at the end of the input all of them and a NUL. */
    method Fill(length: nat) returns (ok: bool)
      requires Sizes() && Text() && Decoding() && bufferPointer == 0 && encoding != AnyEncoding
        && unread < length <= 6144
      modifies this`raw, this`rawPointer, this`source, this`chunks, this`eof, this`offset, this`buffer, this`unread,
        this`chars
      ensures ok ==>
        Ready() && old(chars) <= chars && |chars| - unread == old(|chars| - unread) && (unread >= length || Finished())
      ensures !ok ==> whole == DecodeError
    {
      var first := true;
      while unread < length
        invariant Sizes() && Text() && Decoding() && bufferPointer == 0 && encoding != AnyEncoding
        invariant old(chars) <= chars && |chars| - unread == old(|chars| - unread) && (first || (|raw| < 4 && !eof))
          && (unread >= length ==> !eof)
        decreases |source|, first, |raw|
      {
        ok := FillOnce(length, first);
        if !ok {
          return;
        }
        if eof {
          PutNul();
          return;
        }
        first := false;
      }
      ok := true;
    }

    /** Makes sure that `length` characters can be read, or everything to the NUL at the end. Requests must be much
        smaller than the buffer: up to this bound what is left over and one raw buffer decoded always fit. */
    method UpdateBuffer(length: nat)
      requires Valid() && Expects() && !error && 0 < length <= 6144
      modifies this
      ensures Valid() && (error || (old(chars) <= chars && old(|chars| - unread) == |chars| - unread))
      ensures !error ==> unread >= length || Finished()
    {
      if (eof && raw == []) || unread >= length {
        return;
      }
      Refill(length);
    }

    method Refill(length: nat)
      requires Valid() && Expects() && !error && unread < length <= 6144 && !(eof && raw == [])
      modifies this
      ensures Valid() && (error || (old(chars) <= chars && old(|chars| - unread) == |chars| - unread))
      ensures !error ==> unread >= length || Finished()
    {
      Begin();
      FillUp(length);
    }

    /** The encoding is known from here on. */
    method Begin()
      requires Sizes() && Expects() && if encoding == AnyEncoding then NotBegun() else Decoding()
      modifies this`raw, this`rawPointer, this`source, this`chunks, this`eof, this`encoding, this`offset, this`bufferPointer
      ensures Sizes() && Decoding() && encoding != AnyEncoding && bufferPointer == 0
    {
      if encoding == AnyEncoding {
        DetermineEncoding();
      }
      bufferPointer := 0;
    }

    method FillUp(length: nat)
      requires Sizes() && Text() && Decoding() && bufferPointer == 0 && encoding != AnyEncoding && !error
      requires unread < length <= 6144
      modifies this
      ensures Valid() && (error || (old(chars) <= chars && old(|chars| - unread) == |chars| - unread))
      ensures !error ==> unread >= length || Finished()
    {
      var ok := Fill(length);
      if !ok || (!eof && offset >= MAX_FILE_SIZE) {
        OffsetInside(ok);
        error := true;
      }
    }

    lemma OffsetInside(ok: bool)
      requires if ok then Ready() && !eof && offset >= MAX_FILE_SIZE && encoding != AnyEncoding
        else whole == DecodeError
      ensures whole == DecodeError || |input| >= MAX_FILE_SIZE
    {
    }

    /** The next character, which the scanner reads. */
    ghost function Front(): int
      requires 0 < unread <= |chars|
      reads this
    {
      chars[|chars| - unread]
    }

    /** Steps over one character of the working buffer. */
    method Skip()
      requires Valid() && !error && unread > 0
      modifies this`buffer, this`bufferPointer, this`unread
      ensures Valid() && unread == old(unread) - 1
    {
      FrontBytes();
      var width := Width(buffer[0]);
      buffer, bufferPointer, unread := buffer[width..], bufferPointer + width, unread - 1;
    }

    /** What the scanner has read. */
    ghost function Taken(): seq<int>
      requires unread <= |chars|
      reads this
    {
      chars[..|chars| - unread]
    }

    /** Reads one character; NUL is not stepped over, and means that the whole input has been read. */
    method TakeChar() returns (c: int)
      requires Valid() && Expects() && !error && unread <= |chars| && NoNul(Taken())
      modifies this
      ensures Valid()
      ensures !error && c == 0 ==> whole == Chars(old(Taken()))
      ensures !error && c != 0 ==> unread <= |chars| && Taken() == old(Taken()) + [c] && |Taken()| <= |input|
    {
      ghost var before := Taken();
      c := 0;
      UpdateBuffer(1);
      if !error {
        assert Taken() == before;
        c := TakeFront(before);
      }
    }

    /** The first unread character. */
    method TakeFront(ghost before: seq<int>) returns (c: int)
      requires Ready() && !error && encoding != AnyEncoding && (unread > 0 || Finished())
      requires before == Taken() && NoNul(before)
      modifies this`buffer, this`bufferPointer, this`unread
      ensures Valid()
      ensures c == 0 ==> whole == Chars(before)
      ensures c != 0 ==> unread <= |chars| && Taken() == before + [c] && |Taken()| <= |input|
    {
      SomethingUnread();
      c := Peek();
      if c == 0 {
        NulIsLast();
      } else {
        Skip();
        TakenMore(before, c);
      }
    }

    method Peek() returns (c: int)
      requires Text() && unread > 0
      ensures c == Front()
    {
      FrontDecodes();
      c := DecodeUtf8(buffer).value;
    }

    lemma TakenMore(before: seq<int>, c: int)
      requires unread < |chars| && before == chars[..|chars| - unread - 1] && c == chars[|chars| - unread - 1]
      requires Ready() && encoding != AnyEncoding && c != 0
      ensures Taken() == before + [c] && |Taken()| <= |input|
    {
    }

    lemma SomethingUnread()
      requires unread <= |chars| && NoNul(Taken()) && (unread > 0 || Finished())
      ensures unread > 0
    {
      assert forall k :: 0 <= k < |Taken()| ==> Taken()[k] == chars[k];
    }

    lemma FrontDecodes()
      requires Text() && unread > 0
      ensures buffer != [] && DecodeUtf8(buffer) == Char(Front(), |EncodeUtf8(Front())|)
    {
      FrontBytes();
      var code := EncodeUtf8(Front());
      Utf8RoundTrip(Front(), buffer[|code|..]);
      assert code + buffer[|code|..] == buffer;
    }

    /** A NUL is the end of the input. */
    lemma NulIsLast()
      requires Ready() && encoding != AnyEncoding && unread > 0 && Front() == 0
      ensures Finished() && unread == 1
    {
      assert eof;
      assert Finished();
      var body := chars[..|chars| - 1];
      forall k | 0 <= k < |chars| - 1 ensures chars[k] != 0 {
        assert body[k] == chars[k];
      }
    }

    /** The working buffer begins with the bytes of the next character. */
    lemma FrontBytes()
      requires Text() && unread > 0
      ensures EncodeUtf8(Front()) <= buffer && Width(buffer[0]) == |EncodeUtf8(Front())|
      ensures buffer[|EncodeUtf8(Front())|..] == EncodeAll(Utf8, chars[|chars| - unread + 1..])
    {
      var pending := chars[|chars| - unread..];
      assert pending[0] == Front() && pending[1..] == chars[|chars| - unread + 1..];
      Utf8RoundTrip(Front(), []);
    }
  }

  /** Reads a whole input, however it is split: the characters are those of the input, the first NUL is the end, and an
      error is reported exactly when the input cannot be decoded. */
  method ReadAll(input: seq<byte>, chunks: seq<nat>) returns (ok: bool, cs: seq<int>)
    requires |input| < MAX_FILE_SIZE
    ensures if ok then DecodeInput(input) == Chars(cs) else DecodeInput(input) == DecodeError
  {
    var reader := new Reader(input, chunks);
    cs := [];
    var c := 0;
    while true
      invariant reader.Valid() && !reader.error && fresh(reader) && reader.input == input
        && reader.unread <= |reader.chars|
      invariant cs == reader.Taken() && NoNul(cs) && |cs| <= |input|
      decreases |input| - |cs|
    {
      c := reader.TakeChar();
      if reader.error {
        return false, cs;
      }
      if c == 0 {
        return true, cs;
      }
      cs := cs + [c];
    }
  }

  lemma TakeOne(e: Encoding, cs: seq<int>, raw: seq<byte>, source: seq<byte>)
    requires raw != [] && DecodeOne(e, raw).Char? && Allowed(DecodeOne(e, raw).value)
    ensures var one := DecodeOne(e, raw);
      DecodeFrom(e, cs, raw + source) == DecodeFrom(e, cs + [one.value], raw[one.width..] + source)
  {
    var one := DecodeOne(e, raw);
    DecodeExtends(e, raw, source);
    assert (raw + source)[one.width..] == raw[one.width..] + source;
  }

  lemma TakeFails(e: Encoding, cs: seq<int>, raw: seq<byte>, source: seq<byte>)
    requires raw != []
    ensures var one := DecodeOne(e, raw);
      one.Invalid? || (one.Char? && !Allowed(one.value)) || (one.Incomplete? && source == []) ==>
        DecodeFrom(e, cs, raw + source) == DecodeError
  {
    if !DecodeOne(e, raw).Incomplete? {
      DecodeExtends(e, raw, source);
    } else if source == [] {
      assert raw + source == raw;
    }
  }

  lemma BomLeaves(raw: seq<byte>, source: seq<byte>)
    requires BomLength(raw + source) == BomLength(raw)
    ensures (raw + source)[BomLength(raw)..] == raw[BomLength(raw)..] + source
  {
  }
}
