/**
 * JavaScript string facts the server relies on: the whitespace class shared by
 * the regular-expression escape `\s` and `String.prototype.trim`, and `trim`
 * itself. Strings are sequences of Unicode scalar values; the UTF-16 code units
 * of JavaScript strings are not modelled.
 */
module Strings {

  /** WhiteSpace and LineTerminator code points of ECMAScript: the set matched
      by `\s` and removed by `trim()`. */
  predicate IsWs(c: char) {
    || c == '\t' || c == '\n' || c == '\U{000B}' || c == '\U{000C}' || c == '\r'
    || c == ' ' || c == '\U{00A0}' || c == '\U{1680}'
    || ('\U{2000}' <= c <= '\U{200A}')
    || c == '\U{2028}' || c == '\U{2029}' || c == '\U{202F}' || c == '\U{205F}'
    || c == '\U{3000}' || c == '\U{FEFF}'
  }

  ghost predicate AllWs(s: string) {
    forall k :: 0 <= k < |s| ==> IsWs(s[k])
  }

  /** Leading whitespace removed. */
  function TrimStart(s: string): string
  {
    if s != [] && IsWs(s[0]) then TrimStart(s[1..]) else s
  }

  /** `TrimStart` keeps a suffix of `s`, drops an all-whitespace prefix, and leaves
      no whitespace in front. */
  lemma {:induction false} TrimStartSpec(s: string)
    ensures var r := TrimStart(s);
      && |r| <= |s| && r == s[|s| - |r|..]
      && AllWs(s[..|s| - |r|])
      && (r == [] || !IsWs(r[0]))
    decreases |s|
  {
    if s != [] && IsWs(s[0]) {
      var t := s[1..];
      TrimStartSpec(t);
      var r := TrimStart(t);
      assert TrimStart(s) == r;
      assert [s[0]] + t[..|t| - |r|] == s[..|s| - |r|];
      AllWsConcat([s[0]], t[..|t| - |r|]);
      assert r == t[|t| - |r|..] == s[|s| - |r|..];
    }
  }

  /** Trailing whitespace removed. */
  function TrimEnd(s: string): string
  {
    if s != [] && IsWs(s[|s| - 1]) then TrimEnd(s[..|s| - 1]) else s
  }

  /** `TrimEnd` keeps a prefix of `s`, drops an all-whitespace suffix, and leaves
      no whitespace at the back. */
  lemma {:induction false} TrimEndSpec(s: string)
    ensures var r := TrimEnd(s);
      && |r| <= |s| && r == s[..|r|]
      && AllWs(s[|r|..])
      && (r == [] || !IsWs(r[|r| - 1]))
    decreases |s|
  {
    if s != [] && IsWs(s[|s| - 1]) {
      var t := s[..|s| - 1];
      TrimEndSpec(t);
      var r := TrimEnd(t);
      assert TrimEnd(s) == r;
      assert t[|r|..] + [s[|s| - 1]] == s[|r|..];
      AllWsConcat(t[|r|..], [s[|s| - 1]]);
      assert r == t[..|r|] == s[..|r|];
    }
  }

  /** `String.prototype.trim`: both whitespace ends removed. */
  function Trim(s: string): (r: string)
    ensures r == [] <==> AllWs(s)
    ensures r == [] || (!IsWs(r[0]) && !IsWs(r[|r| - 1]))
  {
    TrimStartSpec(s);
    TrimEndSpec(TrimStart(s));
    TrimEnd(TrimStart(s))
  }

  /** `trim` keeps the middle of `s` and drops all-whitespace ends only. */
  lemma TrimSpan(s: string)
    ensures var r := Trim(s);
      exists i :: 0 <= i <= i + |r| <= |s| && r == s[i..i + |r|] && AllWs(s[..i]) && AllWs(s[i + |r|..])
  {
    var t := TrimStart(s);
    var r := TrimEnd(t);
    TrimStartSpec(s);
    TrimEndSpec(t);
    var i := |s| - |t|;
    assert r == s[i..i + |r|];
    assert AllWs(s[i + |r|..]) by {
      assert s[i + |r|..] == t[|r|..];
    }
    assert 0 <= i <= i + |r| <= |s| && r == s[i..i + |r|] && AllWs(s[..i]) && AllWs(s[i + |r|..]);
  }

  /** Trimming a trimmed string changes nothing. */
  lemma TrimIdempotent(s: string)
    ensures Trim(Trim(s)) == Trim(s)
  {
    var r := Trim(s);
    if r != [] {
      TrimStartSpec(r);
      TrimEndSpec(r);
      var t := TrimStart(r);
      assert t == r;
      assert TrimEnd(r) == r;
    }
  }

  lemma AllWsConcat(a: string, b: string)
    ensures AllWs(a + b) <==> AllWs(a) && AllWs(b)
  {
    if AllWs(a) && AllWs(b) {
      forall k | 0 <= k < |a + b| ensures IsWs((a + b)[k]) {
        if k < |a| { assert (a + b)[k] == a[k]; } else { assert (a + b)[k] == b[k - |a|]; }
      }
    }
    if AllWs(a + b) {
      forall k | 0 <= k < |a| ensures IsWs(a[k]) { assert (a + b)[k] == a[k]; }
      forall k | 0 <= k < |b| ensures IsWs(b[k]) { assert (a + b)[|a| + k] == b[k]; }
    }
  }

  /** The non-empty strings of `ts`, in order: what a truthiness test on each lets through. */
  function NonEmpty(ts: seq<string>): (r: seq<string>)
    ensures forall t :: t in r ==> t != []
    ensures |r| <= |ts|
    decreases |ts|
  {
    if ts == [] then []
    else NonEmpty(ts[..|ts| - 1]) + (if ts[|ts| - 1] == [] then [] else [ts[|ts| - 1]])
  }

  function Concat(ts: seq<string>): string
    decreases |ts|
  {
    if ts == [] then [] else Concat(ts[..|ts| - 1]) + ts[|ts| - 1]
  }

  /** Dropping empty strings loses no text. */
  lemma {:induction false} NonEmptyConcat(ts: seq<string>)
    ensures Concat(NonEmpty(ts)) == Concat(ts)
    decreases |ts|
  {
    if ts != [] {
      var init, last := ts[..|ts| - 1], ts[|ts| - 1];
      NonEmptyConcat(init);
      if last == [] {
        assert NonEmpty(ts) == NonEmpty(init);
        assert Concat(ts) == Concat(init) + [];
      } else {
        var ne := NonEmpty(init) + [last];
        assert ne[..|ne| - 1] == NonEmpty(init);
      }
    }
  }


  /** The filter read from the front. */
  lemma {:induction false} NonEmptyCons(x: string, ts: seq<string>)
    ensures NonEmpty([x] + ts) == (if x == [] then [] else [x]) + NonEmpty(ts)
    decreases |ts|
  {
    if ts != [] {
      var init := ts[..|ts| - 1];
      NonEmptyCons(x, init);
      assert ([x] + ts)[..|ts|] == [x] + init;
    }
  }
}
