/** String operations of the JavaScript runtime that the components rely on,
    over Dafny strings (sequences of Unicode scalar values). */
module Text {

  /** `s.startsWith(p)`. */
  predicate StartsWith(s: string, p: string) {
    |p| <= |s| && s[..|p|] == p
  }

  /** `s.includes(sub)`, searched from the left. */
  predicate Contains(s: string, sub: string)
    decreases |s|
  {
    StartsWith(s, sub) || (s != [] && Contains(s[1..], sub))
  }

  /** `sub` occurs in `s` at position `i`. */
  predicate OccursAt(s: string, sub: string, i: int) {
    0 <= i <= |s| - |sub| && s[i..i + |sub|] == sub
  }

  /** `Contains` holds exactly when `sub` occurs at some position of `s`. */
  lemma {:induction false} ContainsIffOccurs(s: string, sub: string)
    ensures Contains(s, sub) <==> exists i :: OccursAt(s, sub, i)
    decreases |s|
  {
    if StartsWith(s, sub) {
      assert s[0..0 + |sub|] == s[..|sub|];
      assert OccursAt(s, sub, 0);
    } else if s == [] {
    } else {
      ContainsIffOccurs(s[1..], sub);
      forall i | OccursAt(s, sub, i) ensures OccursAt(s[1..], sub, i - 1) {
        assert i != 0 by { assert s[..|sub|] == s[0..0 + |sub|]; }
        assert s[1..][i - 1..i - 1 + |sub|] == s[i..i + |sub|];
      }
      if Contains(s[1..], sub) {
        var i :| OccursAt(s[1..], sub, i);
        assert s[i + 1..i + 1 + |sub|] == s[1..][i..i + |sub|];
        assert OccursAt(s, sub, i + 1);
      }
    }
  }

  /** The ASCII upper-case letters, the character class `[A-Z]`. */
  predicate IsAsciiUpper(c: char) { 'A' <= c <= 'Z' }

  /** The ASCII lower-case letters, the character class `[a-z]`. */
  predicate IsAsciiLower(c: char) { 'a' <= c <= 'z' }

  /** The ASCII digits, the character class `[0-9]`. */
  predicate IsAsciiDigit(c: char) { '0' <= c <= '9' }

  /** The character class `[A-Za-z0-9]`. */
  predicate IsAsciiAlphanumeric(c: char) { IsAsciiUpper(c) || IsAsciiLower(c) || IsAsciiDigit(c) }

  /** Lower-casing of one character, on the ASCII letters. */
  function LowerChar(c: char): (r: char)
    ensures IsAsciiUpper(c) ==> IsAsciiLower(r) && r as int == c as int + 32
    ensures !IsAsciiUpper(c) ==> r == c
  {
    if IsAsciiUpper(c) then (c as int + 32) as char else c
  }

  /** Upper-casing of one character, on the ASCII letters. */
  function UpperChar(c: char): (r: char)
    ensures IsAsciiLower(c) ==> IsAsciiUpper(r) && r as int == c as int - 32
    ensures !IsAsciiLower(c) ==> r == c
  {
    if IsAsciiLower(c) then (c as int - 32) as char else c
  }

  /** `s.toLowerCase()`, character by character. */
  function Lower(s: string): (r: string)
    ensures |r| == |s|
    ensures forall i :: 0 <= i < |s| ==> r[i] == LowerChar(s[i])
    ensures forall i :: 0 <= i < |r| ==> !IsAsciiUpper(r[i])
  {
    if s == [] then [] else [LowerChar(s[0])] + Lower(s[1..])
  }

  /** `s.toUpperCase()`, character by character. */
  function Upper(s: string): (r: string)
    ensures |r| == |s|
    ensures forall i :: 0 <= i < |s| ==> r[i] == UpperChar(s[i])
    ensures forall i :: 0 <= i < |r| ==> !IsAsciiLower(r[i])
  {
    if s == [] then [] else [UpperChar(s[0])] + Upper(s[1..])
  }

  /** Text between a fixed prefix and a fixed suffix can be read back:
      framing is injective. */
  lemma FramedInjective(p: string, a: string, b: string, q: string)
    requires p + a + q == p + b + q
    ensures a == b
  {
    var x := p + a + q;
    assert |a| == |b|;
    assert a == x[|p|..|p| + |a|];
  }

  /** The characters `String.prototype.trim` removes: the ECMAScript
      WhiteSpace and LineTerminator code points (ECMA-262, sections 12.2 and 12.3). */
  predicate IsJsWhitespace(c: char) {
    var n := c as int;
    (0x09 <= n <= 0x0D) || n == 0x20 || n == 0xA0 || n == 0x1680
    || (0x2000 <= n <= 0x200A) || n == 0x2028 || n == 0x2029
    || n == 0x202F || n == 0x205F || n == 0x3000 || n == 0xFEFF
  }

  /** `s.trimStart()`: the suffix left after dropping leading white space. */
  function TrimStart(s: string): (r: string)
    ensures |r| <= |s| && r == s[|s| - |r|..]
    ensures forall k :: 0 <= k < |s| - |r| ==> IsJsWhitespace(s[k])
    ensures r == [] || !IsJsWhitespace(r[0])
  {
    if s != [] && IsJsWhitespace(s[0]) then TrimStart(s[1..]) else s
  }

  /** `s.trimEnd()`: the prefix left after dropping trailing white space. */
  function TrimEnd(s: string): (r: string)
    ensures |r| <= |s| && r == s[..|r|]
    ensures forall k :: |r| <= k < |s| ==> IsJsWhitespace(s[k])
    ensures r == [] || !IsJsWhitespace(r[|r| - 1])
  {
    if s != [] && IsJsWhitespace(s[|s| - 1]) then TrimEnd(s[..|s| - 1]) else s
  }

  /** `s.trim()`: `s` less its leading and trailing white space. */
  function Trim(s: string): (r: string)
    ensures r == [] || (!IsJsWhitespace(r[0]) && !IsJsWhitespace(r[|r| - 1]))
    ensures exists i, j :: 0 <= i <= j <= |s| && r == s[i..j] && AllWhite(s[..i]) && AllWhite(s[j..])
  {
    var t := TrimStart(s);
    var r := TrimEnd(t);
    var i := |s| - |t|;
    TrimStartDropsWhite(s);
    TrimEndDropsWhite(t);
    assert s[i + |r|..] == t[|r|..];
    assert r == s[i..i + |r|];
    r
  }

  /** What `TrimStart` drops is white space. */
  lemma TrimStartDropsWhite(s: string)
    ensures AllWhite(s[..|s| - |TrimStart(s)|])
  {
    var i := |s| - |TrimStart(s)|;
    forall k | 0 <= k < i ensures IsJsWhitespace(s[..i][k]) {
      assert s[..i][k] == s[k];
    }
  }

  /** What `TrimEnd` drops is white space. */
  lemma TrimEndDropsWhite(t: string)
    ensures AllWhite(t[|TrimEnd(t)|..])
  {
    var j := |TrimEnd(t)|;
    forall k | 0 <= k < |t| - j ensures IsJsWhitespace(t[j..][k]) {
      assert t[j..][k] == t[j + k];
    }
  }

  /** All characters of `s` are white space. */
  predicate AllWhite(s: string) {
    forall k :: 0 <= k < |s| ==> IsJsWhitespace(s[k])
  }

  /** Trimming only removes white space: surrounding a string with white space
      does not change what `trim` returns. */
  lemma TrimIgnoresPadding(pre: string, s: string, post: string)
    requires AllWhite(pre) && AllWhite(post)
    ensures Trim(pre + s + post) == Trim(s)
  {
    TrimStartSkipsWhite(pre, s + post);
    assert pre + s + post == pre + (s + post);
    TrimStartKeepsTail(s, post);
    var t := TrimStart(s);
    if t == [] {
      AllWhiteTrimsAway(TrimStart(s + post));
      AllWhiteTrimsAway(t);
    } else {
      TrimEndSkipsWhite(t, post);
    }
  }

  /** Leading white space is skipped by `TrimStart`. */
  lemma {:induction false} TrimStartSkipsWhite(pre: string, s: string)
    requires AllWhite(pre)
    ensures TrimStart(pre + s) == TrimStart(s)
    decreases |pre|
  {
    if pre == [] {
      assert pre + s == s;
    } else {
      assert (pre + s)[1..] == pre[1..] + s;
      TrimStartSkipsWhite(pre[1..], s);
    }
  }

  /** Trailing white space is skipped by `TrimEnd`. */
  lemma {:induction false} TrimEndSkipsWhite(s: string, post: string)
    requires AllWhite(post)
    ensures TrimEnd(s + post) == TrimEnd(s)
    decreases |post|
  {
    if post == [] {
      assert s + post == s;
    } else {
      var p := post[..|post| - 1];
      assert (s + post)[..|s + post| - 1] == s + p;
      TrimEndSkipsWhite(s, p);
    }
  }

  /** What `TrimStart` leaves of `s + tail`: the trimmed `s` followed by `tail`,
      or, when `s` is all white space, a suffix of `tail`. */
  lemma {:induction false} TrimStartKeepsTail(s: string, tail: string)
    ensures TrimStart(s) != [] ==> TrimStart(s + tail) == TrimStart(s) + tail
    ensures TrimStart(s) == [] ==> AllWhite(s) && TrimStart(s + tail) == TrimStart(tail)
    decreases |s|
  {
    if s == [] {
      assert s + tail == tail;
    } else if IsJsWhitespace(s[0]) {
      assert (s + tail)[0] == s[0];
      assert (s + tail)[1..] == s[1..] + tail;
      TrimStartKeepsTail(s[1..], tail);
    } else {
      assert (s + tail)[0] == s[0];
    }
  }

  /** A string made only of white space, or any string `TrimStart` left behind
      from one, trims to nothing at the end. */
  lemma AllWhiteTrimsAway(s: string)
    ensures TrimStart(s) == [] ==> TrimEnd(TrimStart(s)) == []
    ensures AllWhite(s) ==> TrimEnd(s) == [] && TrimStart(s) == []
  {
    if AllWhite(s) {
      TrimStartSkipsWhite(s, []);
      assert s + [] == s;
    }
  }

  /** `s.length` in JavaScript: UTF-16 code units, two for a character
      outside the Basic Multilingual Plane. */
  function JsLength(s: string): (n: nat)
    ensures |s| <= n <= 2 * |s|
    ensures (forall i :: 0 <= i < |s| ==> s[i] as int <= 0xFFFF) ==> n == |s|
  {
    if s == [] then 0 else (if s[0] as int <= 0xFFFF then 1 else 2) + JsLength(s[1..])
  }

  /** One character is one code unit inside the Basic Multilingual Plane and
      a surrogate pair outside it. */
  lemma JsLengthChar(c: char)
    ensures JsLength([c]) == if c as int <= 0xFFFF then 1 else 2
  {
    assert [c][1..] == [];
  }

  /** The UTF-16 length of a concatenation is the sum of the lengths; with
      `JsLengthChar` this pins `JsLength` down on every string. */
  lemma {:induction false} JsLengthAppend(a: string, b: string)
    ensures JsLength(a + b) == JsLength(a) + JsLength(b)
  {
    if a == [] {
      assert a + b == b;
    } else {
      assert (a + b)[0] == a[0];
      assert (a + b)[1..] == a[1..] + b;
      JsLengthAppend(a[1..], b);
    }
  }
}
