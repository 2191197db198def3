/** The query part of a URL as the components write it: `key=value` pairs
    joined with `&`, read back by a plain split on `&` and then on the first
    `=` (no percent or `+` decoding, no dropping of empty segments). */
module QueryString {

  /** The index of the first `c` in `s`. */
  function IndexOf(s: string, c: char): (i: nat)
    requires c in s
    ensures i < |s| && s[i] == c && c !in s[..i]
  {
    if s[0] == c then 0
    else
      assert c in s[1..] by { var k :| 0 <= k < |s| && s[k] == c; assert s[1..][k - 1] == c; }
      var j := IndexOf(s[1..], c);
      assert s[..j + 1] == [s[0]] + s[1..][..j];
      j + 1
  }

  /** `s.split(sep)`. */
  function Split(s: string, sep: char): (parts: seq<string>)
    ensures |parts| >= 1
    decreases |s|
  {
    if sep !in s then [s]
    else var i := IndexOf(s, sep); [s[..i]] + Split(s[i + 1..], sep)
  }

  /** Splitting at a separator that a leading part does not contain. */
  lemma SplitFirst(a: string, sep: char, b: string)
    requires sep !in a
    ensures Split(a + [sep] + b, sep) == [a] + Split(b, sep)
  {
    var s := a + [sep] + b;
    IndexOfFirst(a, sep, b);
    assert s[..|a|] == a;
    assert s[|a| + 1..] == b;
  }

  /** The first `c` of `a + [c] + b` is the one after `a` when `a` has none. */
  lemma {:induction false} IndexOfFirst(a: string, c: char, b: string)
    requires c !in a
    ensures IndexOf(a + [c] + b, c) == |a|
    decreases |a|
  {
    if a != [] {
      assert (a + [c] + b)[1..] == a[1..] + [c] + b;
      IndexOfFirst(a[1..], c, b);
    }
  }

  /** One `key=value` part read at its first `=`; a part without `=` is a key
      with an empty value. */
  function KeyValue(part: string): (kv: (string, string))
  {
    if '=' in part then
      var i := IndexOf(part, '=');
      (part[..i], part[i + 1..])
    else (part, "")
  }

  /** A query string (the text after `?`) as the pairs it holds. */
  function Parse(q: string): seq<(string, string)>
  {
    var parts := Split(q, '&');
    seq(|parts|, i requires 0 <= i < |parts| => KeyValue(parts[i]))
  }

  /** A pair written as `key=value`. */
  function Pair(kv: (string, string)): string { kv.0 + "=" + kv.1 }

  /** Pairs written as a query string. */
  function Build(pairs: seq<(string, string)>): string
    requires |pairs| >= 1
    decreases |pairs|
  {
    if |pairs| == 1 then Pair(pairs[0]) else Pair(pairs[0]) + "&" + Build(pairs[1..])
  }

  /** A query of four pairs, written out. */
  lemma BuildFour(a: (string, string), b: (string, string), c: (string, string), d: (string, string))
    ensures Build([a, b, c, d]) == Pair(a) + "&" + (Pair(b) + "&" + (Pair(c) + "&" + Pair(d)))
  {
    var ps, p1, p2 := [a, b, c, d], [b, c, d], [c, d];
    assert p2[1..] == [d];
    assert Build(p2) == Pair(c) + "&" + Pair(d);
    assert p1[1..] == p2;
    assert Build(p1) == Pair(b) + "&" + Build(p2);
    assert ps[1..] == p1;
  }

  /** A pair that can stand in a query string: neither part holds `&`, and the
      key holds no `=`. */
  predicate Writable(kv: (string, string)) {
    '&' !in kv.0 && '&' !in kv.1 && '=' !in kv.0
  }

  /** Splitting a written query at `&` gives the written pairs. */
  lemma {:induction false} SplitBuild(pairs: seq<(string, string)>)
    requires |pairs| >= 1 && forall i :: 0 <= i < |pairs| ==> Writable(pairs[i])
    ensures var parts := Split(Build(pairs), '&');
      |parts| == |pairs| && forall i :: 0 <= i < |pairs| ==> parts[i] == Pair(pairs[i])
    decreases |pairs|
  {
    var p := Pair(pairs[0]);
    assert Writable(pairs[0]);
    assert '&' !in p by {
      assert p == pairs[0].0 + "=" + pairs[0].1;
      forall k | 0 <= k < |p| ensures p[k] != '&' {
        if k < |pairs[0].0| { assert p[k] == pairs[0].0[k]; }
        else if k > |pairs[0].0| { assert p[k] == pairs[0].1[k - |pairs[0].0| - 1]; }
      }
    }
    if |pairs| == 1 {
    } else {
      SplitBuild(pairs[1..]);
      assert Build(pairs) == p + ['&'] + Build(pairs[1..]);
      SplitFirst(p, '&', Build(pairs[1..]));
    }
  }

  /** A written pair reads back as itself. */
  lemma KeyValuePair(kv: (string, string))
    requires '=' !in kv.0
    ensures KeyValue(Pair(kv)) == kv
  {
    var p := Pair(kv);
    assert p == kv.0 + ['='] + kv.1;
    IndexOfFirst(kv.0, '=', kv.1);
    assert p[..|kv.0|] == kv.0 && p[|kv.0| + 1..] == kv.1;
  }

  /** Reading a written query gives back the pairs it was written from. */
  lemma ParseBuild(pairs: seq<(string, string)>)
    requires |pairs| >= 1 && forall i :: 0 <= i < |pairs| ==> Writable(pairs[i])
    ensures Parse(Build(pairs)) == pairs
  {
    SplitBuild(pairs);
    forall i | 0 <= i < |pairs| ensures KeyValue(Pair(pairs[i])) == pairs[i] {
      assert Writable(pairs[i]);
      KeyValuePair(pairs[i]);
    }
  }
}
