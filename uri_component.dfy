/** `encodeURIComponent` (ECMA-262, section 19.2.6.5, with percent-encoding as in
    section 2.1 of RFC 3986), and `decodeURIComponent` as its inverse. The
    components encode two query values with it: the `redirect_uri` of the
    GitHub authorize URL and the site of the screenshot-service URLs. */
module UriComponent {
  import opened Wrappers
  import opened Text

  /** The characters `encodeURIComponent` leaves as they are. */
  predicate IsUnreserved(c: char) {
    IsAsciiAlphanumeric(c) || c == '-' || c == '_' || c == '.' || c == '!'
    || c == '~' || c == '*' || c == '\'' || c == '(' || c == ')'
  }

  /** The hexadecimal digits an escape is written with (upper case). */
  predicate IsUpperHex(c: char) { IsAsciiDigit(c) || 'A' <= c <= 'F' }

  /** The hexadecimal digits an escape may be read with (either case). */
  predicate IsHex(c: char) { IsUpperHex(c) || 'a' <= c <= 'f' }

  function HexDigit(d: int): (c: char)
    requires 0 <= d < 16
    ensures IsUpperHex(c)
  {
    "0123456789ABCDEF"[d]
  }

  function HexValue(c: char): (d: int)
    requires IsHex(c)
    ensures 0 <= d < 16
  {
    if IsAsciiDigit(c) then c as int - '0' as int
    else if 'A' <= c <= 'F' then c as int - 'A' as int + 10
    else c as int - 'a' as int + 10
  }

  /** Reading a written digit back gives the digit. */
  lemma HexRoundTrip(d: int)
    requires 0 <= d < 16
    ensures IsHex(HexDigit(d)) && HexValue(HexDigit(d)) == d
  {
  }

  /** A byte is an integer in 0..255. */
  predicate IsByte(b: int) { 0 <= b < 0x100 }

  /** A Unicode scalar value as a code point. */
  predicate IsScalar(cp: int) { 0 <= cp < 0xD800 || 0xE000 <= cp < 0x11_0000 }

  /** The UTF-8 encoding of a code point. */
  function Utf8(cp: int): (bytes: seq<int>)
    requires IsScalar(cp)
    ensures 1 <= |bytes| <= 4
    ensures forall i :: 0 <= i < |bytes| ==> IsByte(bytes[i])
  {
    if cp < 0x80 then [cp]
    else if cp < 0x800 then [0xC0 + cp / 64, 0x80 + cp % 64]
    else if cp < 0x1_0000 then [0xE0 + cp / 4096, 0x80 + (cp / 64) % 64, 0x80 + cp % 64]
    else [0xF0 + cp / 262144, 0x80 + (cp / 4096) % 64, 0x80 + (cp / 64) % 64, 0x80 + cp % 64]
  }

  /** Each byte written as `%` and two upper-case hexadecimal digits. */
  function PercentEncode(bytes: seq<int>): (s: string)
    requires forall i :: 0 <= i < |bytes| ==> IsByte(bytes[i])
    ensures |s| == 3 * |bytes|
  {
    if bytes == [] then []
    else
      var b := bytes[0];
      assert IsByte(b);
      ['%', HexDigit(b / 16), HexDigit(b % 16)] + PercentEncode(bytes[1..])
  }

  /** The characters `encodeURIComponent` can produce. */
  predicate IsEncodedChar(c: char) { IsUnreserved(c) || c == '%' }

  /** One character: unreserved characters stay, any other becomes the
      escapes of its UTF-8 bytes. */
  function EncodeChar(c: char): (s: string)
    ensures s != []
    ensures forall i :: 0 <= i < |s| ==> IsEncodedChar(s[i])
  {
    if IsUnreserved(c) then [c] else PercentEscapes(Utf8(c as int))
  }

  /** `PercentEncode` with the fact that its output uses only `%` and hex digits. */
  function PercentEscapes(bytes: seq<int>): (s: string)
    requires forall i :: 0 <= i < |bytes| ==> IsByte(bytes[i])
    ensures s == PercentEncode(bytes)
    ensures forall i :: 0 <= i < |s| ==> s[i] == '%' || IsUpperHex(s[i])
  {
    if bytes == [] then []
    else
      var b := bytes[0];
      assert IsByte(b);
      ['%', HexDigit(b / 16), HexDigit(b % 16)] + PercentEscapes(bytes[1..])
  }

  /** `encodeURIComponent(s)`. Its output never holds a character that
      separates the parts of a URL (`&`, `=`, `?`, `#`, `/`, `:`), so it can
      stand as one query value. */
  function Encode(s: string): (r: string)
    ensures |s| <= |r|
    ensures forall i :: 0 <= i < |r| ==> IsEncodedChar(r[i])
  {
    if s == [] then [] else EncodeChar(s[0]) + Encode(s[1..])
  }

  /** Encoding distributes over concatenation. */
  lemma {:induction false} EncodeAppend(a: string, b: string)
    ensures Encode(a + b) == Encode(a) + Encode(b)
    decreases |a|
  {
    if a == [] {
      assert a + b == b;
    } else {
      assert (a + b)[1..] == a[1..] + b;
      EncodeAppend(a[1..], b);
    }
  }

  /** A string of unreserved characters is its own encoding. */
  lemma {:induction false} EncodeUnreserved(s: string)
    requires forall i :: 0 <= i < |s| ==> IsUnreserved(s[i])
    ensures Encode(s) == s
    decreases |s|
  {
    if s != [] { EncodeUnreserved(s[1..]); }
  }

  // ---------------------------------------------------------------------
  // Decoding: first the escapes are read into units, then the units are
  // decoded as UTF-8.

  /** A character read literally, or a byte read from a `%XY` escape. */
  datatype Unit = Literal(c: char) | Octet(b: int)

  function Prepend<T>(p: seq<T>, rest: Option<seq<T>>): (r: Option<seq<T>>)
    ensures r.Some? <==> rest.Some?
    ensures r.Some? ==> r.value == p + rest.value
  {
    match rest
    case None => None
    case Some(v) => Some(p + v)
  }

  /** Reads the escapes; a `%` not followed by two hexadecimal digits is an error. */
  function Unescape(s: string): Option<seq<Unit>>
  {
    if s == [] then Some([])
    else if s[0] == '%' then
      if |s| >= 3 && IsHex(s[1]) && IsHex(s[2])
      then Prepend([Octet(16 * HexValue(s[1]) + HexValue(s[2]))], Unescape(s[3..]))
      else None
    else Prepend([Literal(s[0])], Unescape(s[1..]))
  }

  /** The number of bytes a UTF-8 sequence starting with `b` has, 0 when `b`
      cannot start one. */
  function SequenceLength(b: int): nat
  {
    if 0 <= b < 0x80 then 1
    else if 0xC0 <= b < 0xE0 then 2
    else if 0xE0 <= b < 0xF0 then 3
    else if 0xF0 <= b < 0xF8 then 4
    else 0
  }

  /** The payload bits of a leading byte of an `n`-byte sequence. */
  function LeadPayload(b: int, n: nat): int
  {
    if n == 1 then b else if n == 2 then b - 0xC0 else if n == 3 then b - 0xE0 else b - 0xF0
  }

  predicate IsContinuation(u: Unit) { u.Octet? && 0x80 <= u.b < 0xC0 }

  /** Appends the payload bits of the continuation bytes to `acc`. */
  function Combine(acc: int, us: seq<Unit>): int
    requires forall i :: 0 <= i < |us| ==> IsContinuation(us[i])
    decreases |us|
  {
    if us == [] then acc
    else
      assert IsContinuation(us[0]);
      Combine(acc * 64 + (us[0].b - 0x80), us[1..])
  }

  /** The code points an `n`-byte sequence may encode: shortest form only,
      no surrogates, nothing above U+10FFFF. */
  predicate FitsLength(cp: int, n: nat) {
    if n == 1 then 0 <= cp < 0x80
    else if n == 2 then 0x80 <= cp < 0x800
    else if n == 3 then 0x800 <= cp < 0x1_0000 && !(0xD800 <= cp < 0xE000)
    else 0x1_0000 <= cp < 0x11_0000
  }

  /** Decodes units as UTF-8; a malformed sequence is an error. */
  function DecodeUnits(us: seq<Unit>): Option<string>
  {
    if us == [] then Some([])
    else match us[0]
      case Literal(c) => Prepend([c], DecodeUnits(us[1..]))
      case Octet(b) =>
        var n := SequenceLength(b);
        if n == 0 || |us| < n then None
        else if !(forall i :: 1 <= i < n ==> IsContinuation(us[i])) then None
        else
          var cp := Combine(LeadPayload(b, n), us[1..n]);
          if FitsLength(cp, n) then Prepend([cp as char], DecodeUnits(us[n..])) else None
  }

  /** `decodeURIComponent(s)`; `None` where it throws a `URIError`. */
  function Decode(s: string): Option<string>
  {
    match Unescape(s)
    case None => None
    case Some(us) => DecodeUnits(us)
  }

  // ---------------------------------------------------------------------
  // The round trip.

  function Octets(bytes: seq<int>): (us: seq<Unit>)
    ensures |us| == |bytes|
    ensures forall i :: 0 <= i < |us| ==> us[i] == Octet(bytes[i])
  {
    if bytes == [] then [] else [Octet(bytes[0])] + Octets(bytes[1..])
  }

  /** The units one encoded character reads back as. */
  function CharUnits(c: char): seq<Unit>
  {
    if IsUnreserved(c) then [Literal(c)] else Octets(Utf8(c as int))
  }

  /** The units an encoded string reads back as. */
  function Units(s: string): seq<Unit>
  {
    if s == [] then [] else CharUnits(s[0]) + Units(s[1..])
  }

  /** One escape reads back as its byte. */
  lemma UnescapeOne(b: int, tail: string)
    requires IsByte(b)
    ensures Unescape(['%', HexDigit(b / 16), HexDigit(b % 16)] + tail) == Prepend([Octet(b)], Unescape(tail))
  {
    var s := ['%', HexDigit(b / 16), HexDigit(b % 16)] + tail;
    HexRoundTrip(b / 16);
    HexRoundTrip(b % 16);
    assert s[0] == '%' && s[1] == HexDigit(b / 16) && s[2] == HexDigit(b % 16);
    assert s[3..] == tail;
  }

  lemma PrependAssoc<T>(a: seq<T>, b: seq<T>, x: Option<seq<T>>)
    ensures Prepend(a, Prepend(b, x)) == Prepend(a + b, x)
  {
    if x.Some? {
      assert a + (b + x.value) == (a + b) + x.value;
    }
  }

  /** The escapes of some bytes read back as those bytes. */
  lemma {:induction false} UnescapePercent(bytes: seq<int>, rest: string)
    requires forall i :: 0 <= i < |bytes| ==> IsByte(bytes[i])
    ensures Unescape(PercentEncode(bytes) + rest) == Prepend(Octets(bytes), Unescape(rest))
    decreases |bytes|
  {
    if bytes == [] {
      assert PercentEncode(bytes) + rest == rest;
      PrependAssoc([], [], Unescape(rest));
      assert Prepend([], Unescape(rest)) == Unescape(rest) by {
        if Unescape(rest).Some? { assert [] + Unescape(rest).value == Unescape(rest).value; }
      }
    } else {
      var b := bytes[0];
      var tail := PercentEncode(bytes[1..]) + rest;
      assert IsByte(b);
      assert PercentEncode(bytes) + rest == ['%', HexDigit(b / 16), HexDigit(b % 16)] + tail;
      UnescapeOne(b, tail);
      UnescapePercent(bytes[1..], rest);
      PrependAssoc([Octet(b)], Octets(bytes[1..]), Unescape(rest));
      assert Octets(bytes) == [Octet(b)] + Octets(bytes[1..]);
    }
  }

  /** Reading the escapes of an encoded string gives its units. */
  lemma {:induction false} UnescapeEncode(s: string)
    ensures Unescape(Encode(s)) == Some(Units(s))
    decreases |s|
  {
    if s != [] {
      var c := s[0];
      UnescapeEncode(s[1..]);
      if IsUnreserved(c) {
        assert (EncodeChar(c) + Encode(s[1..]))[1..] == Encode(s[1..]);
      } else {
        UnescapePercent(Utf8(c as int), Encode(s[1..]));
      }
    }
  }

  /** One well-formed sequence at the head of the units decodes to its code point. */
  lemma DecodeHead(us: seq<Unit>, n: nat, cp: int)
    requires 1 <= n <= |us| && us[0].Octet? && SequenceLength(us[0].b) == n
    requires forall i :: 1 <= i < n ==> IsContinuation(us[i])
    requires Combine(LeadPayload(us[0].b, n), us[1..n]) == cp && FitsLength(cp, n)
    ensures IsScalar(cp)
    ensures DecodeUnits(us) == Prepend([cp as char], DecodeUnits(us[n..]))
  {
  }

  /** The UTF-8 bytes of a code point are a well-formed sequence for it. */
  predicate WellFormedFor(bytes: seq<int>, cp: int)
    requires 1 <= |bytes|
  {
    && SequenceLength(bytes[0]) == |bytes|
    && (forall i :: 1 <= i < |bytes| ==> 0x80 <= bytes[i] < 0xC0)
    && FitsLength(cp, |bytes|)
    && Combine(LeadPayload(bytes[0], |bytes|), Octets(bytes[1..])) == cp
  }

  lemma Utf8WellFormed(cp: int)
    requires IsScalar(cp)
    ensures WellFormedFor(Utf8(cp), cp)
  {
    if cp < 0x80 {
    } else if cp < 0x800 {
      Utf8WellFormed2(cp);
    } else if cp < 0x1_0000 {
      Utf8WellFormed3(cp);
    } else {
      Utf8WellFormed4(cp);
    }
  }

  lemma Utf8WellFormed2(cp: int)
    requires 0x80 <= cp < 0x800
    ensures WellFormedFor(Utf8(cp), cp)
  {
    assert Octets(Utf8(cp)[1..]) == [Octet(0x80 + cp % 64)];
  }

  lemma Utf8WellFormed3(cp: int)
    requires 0x800 <= cp < 0x1_0000 && IsScalar(cp)
    ensures WellFormedFor(Utf8(cp), cp)
  {
    var bytes := Utf8(cp);
    Split3(cp);
    var t := Octets(bytes[1..]);
    assert t == [Octet(0x80 + (cp / 64) % 64), Octet(0x80 + cp % 64)];
    assert LeadPayload(bytes[0], 3) == cp / 4096;
    calc {
      Combine(cp / 4096, t);
      Combine((cp / 4096) * 64 + (cp / 64) % 64, t[1..]);
      { assert t[1..][1..] == []; }
      ((cp / 4096) * 64 + (cp / 64) % 64) * 64 + cp % 64;
    }
  }

  lemma Utf8WellFormed4(cp: int)
    requires 0x1_0000 <= cp < 0x11_0000
    ensures WellFormedFor(Utf8(cp), cp)
  {
    var bytes := Utf8(cp);
    Split4(cp);
    var t := Octets(bytes[1..]);
    assert t == [Octet(0x80 + (cp / 4096) % 64), Octet(0x80 + (cp / 64) % 64), Octet(0x80 + cp % 64)];
    assert LeadPayload(bytes[0], 4) == cp / 262144;
    calc {
      Combine(cp / 262144, t);
      Combine((cp / 262144) * 64 + (cp / 4096) % 64, t[1..]);
      { assert t[1..][1..] == [Octet(0x80 + cp % 64)]; }
      Combine(((cp / 262144) * 64 + (cp / 4096) % 64) * 64 + (cp / 64) % 64, t[1..][1..]);
      { assert t[1..][1..][1..] == []; }
      (((cp / 262144) * 64 + (cp / 4096) % 64) * 64 + (cp / 64) % 64) * 64 + cp % 64;
    }
  }

  /** The UTF-8 bytes of a character decode back to it. */
  lemma Utf8Decodes(c: char, rest: seq<Unit>)
    ensures DecodeUnits(Octets(Utf8(c as int)) + rest) == Prepend([c], DecodeUnits(rest))
  {
    var cp := c as int;
    var bytes := Utf8(cp);
    var n := |bytes|;
    var us := Octets(bytes) + rest;
    assert us[n..] == rest;
    assert us[1..n] == Octets(bytes[1..]);
    Utf8WellFormed(cp);
    DecodeHead(us, n, cp);
  }

  lemma Split3(cp: int)
    requires 0 <= cp
    ensures ((cp / 4096) * 64 + (cp / 64) % 64) * 64 + cp % 64 == cp
  {
    var q := cp / 64;
    assert cp / 4096 == q / 64;
    assert (q / 64) * 64 + q % 64 == q;
  }

  lemma Split4(cp: int)
    requires 0 <= cp
    ensures (((cp / 262144) * 64 + (cp / 4096) % 64) * 64 + (cp / 64) % 64) * 64 + cp % 64 == cp
  {
    var q := cp / 64;
    assert cp / 262144 == q / 4096;
    assert cp / 4096 == q / 64;
    Split3(q);
  }

  /** Decoding the units of a string gives the string back. */
  lemma {:induction false} DecodeUnitsOfString(s: string)
    ensures DecodeUnits(Units(s)) == Some(s)
    decreases |s|
  {
    if s != [] {
      var c := s[0];
      DecodeUnitsOfString(s[1..]);
      if IsUnreserved(c) {
        assert Units(s) == [Literal(c)] + Units(s[1..]);
        assert Units(s)[1..] == Units(s[1..]);
        assert [c] + s[1..] == s;
      } else {
        Utf8Decodes(c, Units(s[1..]));
      }
    }
  }

  /** `decodeURIComponent(encodeURIComponent(s)) == s`. */
  lemma DecodeEncode(s: string)
    ensures Decode(Encode(s)) == Some(s)
  {
    UnescapeEncode(s);
    DecodeUnitsOfString(s);
  }

  /** Different strings encode differently, so an encoded value identifies
      the value it came from. */
  lemma EncodeInjective(a: string, b: string)
    requires Encode(a) == Encode(b)
    ensures a == b
  {
    DecodeEncode(a);
    DecodeEncode(b);
  }
}
