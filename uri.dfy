/**
 * `encodeURIComponent` (section 19.2.6.5 of ECMA-262) over Unicode scalar
 * values: a character outside the unescaped set is written as the
 * percent-escaped bytes of its UTF-8 encoding, with upper-case hex digits.
 * The decoder (`decodeURIComponent`, section 19.2.6.3) is its partner: it
 * undoes the escapes and then the UTF-8 encoding, and fails on malformed input.
 */
module UriComponent {
  import opened Common

  type Byte = b: int | 0 <= b < 256

  /** The characters `encodeURIComponent` leaves as they are: ASCII letters, digits and `-_.!~*'()`. */
  predicate IsUnescaped(c: char)
  {
    || 'A' <= c <= 'Z' || 'a' <= c <= 'z' || '0' <= c <= '9'
    || c == '-' || c == '_' || c == '.' || c == '!' || c == '~'
    || c == '*' || c == '\'' || c == '(' || c == ')'
  }

  /** The UTF-8 encoding of one character (section 3.9 of the Unicode Standard). */
  function Utf8Char(c: char): (bs: seq<Byte>)
    ensures 1 <= |bs| <= 4
    ensures (c as int) < 0x80 <==> bs == [c as int]
  {
    var v := c as int;
    if v < 0x80 then [v]
    else if v < 0x800 then [0xC0 + v / 64, 0x80 + v % 64]
    else if v < 0x10000 then [0xE0 + v / 4096, 0x80 + (v / 64) % 64, 0x80 + v % 64]
    else [0xF0 + v / 262144, 0x80 + (v / 4096) % 64, 0x80 + (v / 64) % 64, 0x80 + v % 64]
  }

  function Utf8(s: string): seq<Byte>
  {
    if s == [] then [] else Utf8Char(s[0]) + Utf8(s[1..])
  }

  /** The number of bytes a sequence starting with `lead` occupies; 0 when `lead` cannot start one. */
  function SequenceLength(lead: Byte): nat
  {
    if lead < 0x80 then 1
    else if 0xC0 <= lead < 0xE0 then 2
    else if 0xE0 <= lead < 0xF0 then 3
    else if 0xF0 <= lead < 0xF8 then 4
    else 0
  }

  predicate IsContinuation(b: Byte)
  {
    0x80 <= b < 0xC0
  }

  /** The value carried by a lead byte and its continuation bytes. */
  function CodePoint(bs: seq<Byte>): int
    requires 1 <= |bs| <= 4
  {
    var b: seq<int> := bs;
    if |b| == 1 then b[0]
    else if |b| == 2 then (b[0] - 0xC0) * 64 + (b[1] - 0x80)
    else if |b| == 3 then (b[0] - 0xE0) * 4096 + (b[1] - 0x80) * 64 + (b[2] - 0x80)
    else (b[0] - 0xF0) * 262144 + (b[1] - 0x80) * 4096 + (b[2] - 0x80) * 64 + (b[3] - 0x80)
  }

  /** The smallest value an `n`-byte sequence may carry (shorter forms are overlong). */
  function MinCodePoint(n: nat): int
    requires 1 <= n <= 4
  {
    if n == 1 then 0 else if n == 2 then 0x80 else if n == 3 then 0x800 else 0x10000
  }

  predicate IsScalarValue(v: int)
  {
    0 <= v < 0xD800 || 0xE000 <= v < 0x110000
  }

  /** Strict UTF-8 decoding: `None` on a bad lead byte, a truncated or overlong sequence, or a surrogate. */
  function Utf8Decode(bs: seq<Byte>): Option<string>
    decreases |bs|
  {
    if bs == [] then Some([])
    else
      var n := SequenceLength(bs[0]);
      if n == 0 || |bs| < n then None
      else if exists k :: 1 <= k < n && !IsContinuation(bs[k]) then None
      else
        var v := CodePoint(bs[..n]);
        if v < MinCodePoint(n) || !IsScalarValue(v) then None
        else
          match Utf8Decode(bs[n..])
          case None => None
          case Some(rest) => Some([v as char] + rest)
  }

  lemma Div64Twice(v: int)
    requires 0 <= v
    ensures (v / 64) / 64 == v / 4096
    ensures ((v / 64) / 64) / 64 == v / 262144
  {
    var q := v / 64;
    var q2 := q / 64;
    assert v == 4096 * q2 + 64 * (q % 64) + v % 64;
    assert v / 4096 == q2;
    var q3 := q2 / 64;
    assert v == 262144 * q3 + 4096 * (q2 % 64) + 64 * (q % 64) + v % 64;
  }

  /** Decoding the bytes of one character gives back that character, whatever follows. */
  lemma Utf8CharDecodes(c: char, rest: seq<Byte>)
    ensures Utf8Decode(Utf8Char(c) + rest) ==
      match Utf8Decode(rest)
      case None => None
      case Some(r) => Some([c] + r)
  {
    var v := c as int;
    var e := Utf8Char(c);
    var bs := e + rest;
    Div64Twice(v);
    assert SequenceLength(bs[0]) == |e|;
    assert bs[..|e|] == e && bs[|e|..] == rest;
    assert CodePoint(e) == v;
    assert forall k :: 1 <= k < |e| ==> IsContinuation(bs[k]);
  }

  lemma {:induction false} Utf8RoundTrip(s: string)
    ensures Utf8Decode(Utf8(s)) == Some(s)
  {
    if s != [] {
      Utf8RoundTrip(s[1..]);
      Utf8CharDecodes(s[0], Utf8(s[1..]));
      assert [s[0]] + s[1..] == s;
    }
  }

  function HexDigit(d: nat): (c: char)
    requires d < 16
    ensures IsUnescaped(c)
  {
    "0123456789ABCDEF"[d]
  }

  /** The value of a hex digit of either case. */
  function HexValue(c: char): Option<nat>
  {
    if '0' <= c <= '9' then Some((c as int) - ('0' as int))
    else if 'A' <= c <= 'F' then Some((c as int) - ('A' as int) + 10)
    else if 'a' <= c <= 'f' then Some((c as int) - ('a' as int) + 10)
    else None
  }

  lemma HexValueOfDigit(d: nat)
    requires d < 16
    ensures HexValue(HexDigit(d)) == Some(d)
  {
  }

  /** The `%XX` triplets of a byte sequence. */
  function Escape(bs: seq<Byte>): (r: string)
    ensures |r| == 3 * |bs|
    ensures forall i :: 0 <= i < |r| ==> IsUnescaped(r[i]) || r[i] == '%'
  {
    if bs == [] then [] else ['%', HexDigit(bs[0] / 16), HexDigit(bs[0] % 16)] + Escape(bs[1..])
  }

  function EncodeChar(c: char): (r: string)
    ensures forall i :: 0 <= i < |r| ==> IsUnescaped(r[i]) || r[i] == '%'
  {
    if IsUnescaped(c) then [c] else Escape(Utf8Char(c))
  }

  /** `encodeURIComponent(s)`. */
  function EncodeURIComponent(s: string): (r: string)
    ensures forall i :: 0 <= i < |r| ==> IsUnescaped(r[i]) || r[i] == '%'
    ensures |s| <= |r|
  {
    if s == [] then [] else EncodeChar(s[0]) + EncodeURIComponent(s[1..])
  }

  /**
   * Undo the `%XX` escapes, giving the UTF-8 bytes of the text; a character
   * that is not part of an escape stands for its own UTF-8 bytes.
   */
  function PercentDecode(s: string): Option<seq<Byte>>
  {
    if s == [] then Some([])
    else if s[0] == '%' then
      if |s| < 3 then None
      else
        match (HexValue(s[1]), HexValue(s[2]), PercentDecode(s[3..]))
        case (Some(hi), Some(lo), Some(rest)) => if hi < 16 && lo < 16 then Some([hi * 16 + lo] + rest) else None
        case _ => None
    else
      match PercentDecode(s[1..])
      case None => None
      case Some(rest) => Some(Utf8Char(s[0]) + rest)
  }

  /** `decodeURIComponent(s)`, with `None` for the `URIError` it throws. */
  function DecodeURIComponent(s: string): Option<string>
  {
    match PercentDecode(s)
    case None => None
    case Some(bs) => Utf8Decode(bs)
  }

  lemma PercentDecodeTriplet(b: Byte, rest: string)
    requires PercentDecode(rest).Some?
    ensures PercentDecode(['%', HexDigit(b / 16), HexDigit(b % 16)] + rest) == Some([b] + PercentDecode(rest).value)
  {
    var s := ['%', HexDigit(b / 16), HexDigit(b % 16)] + rest;
    HexValueOfDigit(b / 16);
    HexValueOfDigit(b % 16);
    assert s[1] == HexDigit(b / 16) && s[2] == HexDigit(b % 16) && s[3..] == rest;
  }

  lemma ConsAppend(bs: seq<Byte>, d: seq<Byte>)
    requires bs != []
    ensures [bs[0]] + (bs[1..] + d) == bs + d
  {
    assert [bs[0]] + bs[1..] == bs;
  }

  lemma {:induction false} PercentDecodeEscape(bs: seq<Byte>, rest: string, d: seq<Byte>)
    requires PercentDecode(rest) == Some(d)
    ensures PercentDecode(Escape(bs) + rest) == Some(bs + d)
  {
    if bs == [] {
      assert Escape(bs) + rest == rest;
      assert bs + d == d;
    } else {
      var b := bs[0];
      var tail := Escape(bs[1..]) + rest;
      PercentDecodeEscape(bs[1..], rest, d);
      var triplet := ['%', HexDigit(b / 16), HexDigit(b % 16)];
      assert Escape(bs) + rest == triplet + tail;
      PercentDecodeTriplet(b, tail);
      ConsAppend(bs, d);
    }
  }

  lemma {:induction false} PercentDecodeEncode(s: string)
    ensures PercentDecode(EncodeURIComponent(s)) == Some(Utf8(s))
  {
    if s != [] {
      var c, tail := s[0], EncodeURIComponent(s[1..]);
      PercentDecodeEncode(s[1..]);
      if IsUnescaped(c) {
        assert ([c] + tail)[1..] == tail;
      } else {
        PercentDecodeEscape(Utf8Char(c), tail, Utf8(s[1..]));
      }
    }
  }

  /** Decoding an encoded component gives back the original text. */
  lemma EncodeRoundTrip(s: string)
    ensures DecodeURIComponent(EncodeURIComponent(s)) == Some(s)
  {
    PercentDecodeEncode(s);
    Utf8RoundTrip(s);
  }

  /** The encoding of a non-empty text is non-empty, so the parameter is never dropped. */
  lemma EncodeEmptyIff(s: string)
    ensures EncodeURIComponent(s) == "" <==> s == ""
  {
  }
}
