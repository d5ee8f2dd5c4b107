/**
 * The JavaScript string built-ins the engine relies on: `trim`, `toLowerCase`,
 * `includes`, `replace` with a global pattern, `substring(0, n)` and the ordering
 * the team list is sorted by. Strings are sequences of Unicode scalar values, so
 * lengths and positions agree with the JavaScript ones (UTF-16 code units) only for
 * text inside the Basic Multilingual Plane.
 */
module JsText {

  /** The characters `String.prototype.trim` removes: ECMAScript WhiteSpace and LineTerminator. */
  predicate IsJsWhitespace(c: char) {
    || c == '\t' || c == '\n' || c == '\U{B}' || c == '\U{C}' || c == '\r' || c == ' '
    || c == '\U{A0}' || c == '\U{1680}' || ('\U{2000}' <= c <= '\U{200A}')
    || c == '\U{2028}' || c == '\U{2029}' || c == '\U{202F}' || c == '\U{205F}'
    || c == '\U{3000}' || c == '\U{FEFF}'
  }

  ghost predicate AllWhitespace(s: string) {
    forall i :: 0 <= i < |s| ==> IsJsWhitespace(s[i])
  }

  /** Drops leading whitespace: the result is a suffix of `s` that does not start with whitespace. */
  function TrimStart(s: string): (r: string)
    ensures |r| <= |s| && r == s[|s| - |r|..]
    ensures r == [] || !IsJsWhitespace(r[0])
    ensures forall i :: 0 <= i < |s| - |r| ==> IsJsWhitespace(s[i])
  {
    if s != [] && IsJsWhitespace(s[0]) then TrimStart(s[1..]) else s
  }

  /** Drops trailing whitespace: the result is a prefix of `s` that does not end with whitespace. */
  function TrimEnd(s: string): (r: string)
    ensures |r| <= |s| && r == s[..|r|]
    ensures r == [] || !IsJsWhitespace(r[|r| - 1])
    ensures forall i :: |r| <= i < |s| ==> IsJsWhitespace(s[i])
  {
    if s != [] && IsJsWhitespace(s[|s| - 1]) then TrimEnd(s[..|s| - 1]) else s
  }

  /**
   * `String.prototype.trim`: the result is the slice of `s` left once the whitespace
   * before and after it is removed; it has no whitespace at either end, and it is
   * empty exactly when `s` is all whitespace.
   */
  function Trim(s: string): (r: string)
    ensures r == [] <==> AllWhitespace(s)
    ensures r != [] ==> !IsJsWhitespace(r[0]) && !IsJsWhitespace(r[|r| - 1])
    ensures exists k :: TrimmedAt(s, r, k)
  {
    var t := TrimStart(s);
    var r := TrimEnd(t);
    TrimSlice(s, t, r, |s| - |t|);
    r
  }

  /** `r` occurs in `s` at `k`, and every character of `s` before or after it is whitespace. */
  ghost predicate TrimmedAt(s: string, r: string, k: int) {
    && OccursAt(s, r, k)
    && (forall i :: 0 <= i < k ==> IsJsWhitespace(s[i]))
    && (forall i :: k + |r| <= i < |s| ==> IsJsWhitespace(s[i]))
  }

  /**
   * `Trim` keeps a slice of `s`, with only whitespace before and after it: `t` is a
   * suffix of `s` after `k` whitespace characters, and `r` a prefix of `t` followed
   * only by whitespace, as `TrimStart` and `TrimEnd` promise.
   */
  lemma {:induction false} TrimSlice(s: string, t: string, r: string, k: nat)
    requires k + |t| == |s| && t == s[k..] && (forall i :: 0 <= i < k ==> IsJsWhitespace(s[i]))
    requires |r| <= |t| && r == t[..|r|] && (forall i :: |r| <= i < |t| ==> IsJsWhitespace(t[i]))
    ensures TrimmedAt(s, r, k)
  {
    assert r == s[k..k + |r|];
    forall i | k + |r| <= i < |s| ensures IsJsWhitespace(s[i]) {
      assert s[i] == t[i - k];
    }
  }

  function LowerChar(c: char): char {
    if 'A' <= c <= 'Z' then (c as int + 32) as char else c
  }

  /** `toUpperCase` of one character, on the ASCII letters. */
  function UpperChar(c: char): char {
    if 'a' <= c <= 'z' then (c as int - 32) as char else c
  }

  /** `String.prototype.toLowerCase` on the ASCII letters; every other character is kept. */
  function Lower(s: string): (r: string)
    ensures |r| == |s|
    ensures forall i :: 0 <= i < |r| ==> !('A' <= r[i] <= 'Z')
    ensures forall i :: 0 <= i < |r| && 'A' <= s[i] <= 'Z' ==> r[i] as int == s[i] as int + 32
    ensures forall i :: 0 <= i < |r| && !('A' <= s[i] <= 'Z') ==> r[i] == s[i]
  {
    seq(|s|, i requires 0 <= i < |s| => LowerChar(s[i]))
  }

  ghost predicate OccursAt(s: string, sub: string, i: int) {
    0 <= i && i + |sub| <= |s| && s[i..i + |sub|] == sub
  }

  predicate StartsWith(s: string, prefix: string) {
    |prefix| <= |s| && s[..|prefix|] == prefix
  }

  /**
   * `String.prototype.includes`: a left-to-right search for `sub`. Every string includes
   * the empty string, and none includes a longer one.
   */
  predicate Contains(s: string, sub: string)
    ensures sub == [] ==> Contains(s, sub)
    ensures Contains(s, sub) ==> |sub| <= |s|
    decreases |s|
  {
    StartsWith(s, sub) || (s != [] && Contains(s[1..], sub))
  }

  /** The search finds `sub` exactly when it occurs at some position of `s`. */
  lemma {:induction false} ContainsIffOccurs(s: string, sub: string)
    ensures Contains(s, sub) <==> exists i :: OccursAt(s, sub, i)
    decreases |s|
  {
    if StartsWith(s, sub) {
      assert OccursAt(s, sub, 0);
    } else if s == [] {
      assert forall i :: !OccursAt(s, sub, i);
    } else {
      ContainsIffOccurs(s[1..], sub);
      forall i | 0 < i ensures OccursAt(s, sub, i) <==> OccursAt(s[1..], sub, i - 1) {
        if i + |sub| <= |s| {
          assert s[1..][i - 1..i - 1 + |sub|] == s[i..i + |sub|];
        }
      }
      assert !OccursAt(s, sub, 0);
      if Contains(s[1..], sub) {
        var i :| OccursAt(s[1..], sub, i);
        assert OccursAt(s, sub, i + 1);
      }
    }
  }

  /** A prefix of a text without `sub` is without `sub` too. */
  lemma ContainsPrefix(s: string, n: nat, sub: string)
    requires n <= |s| && Contains(s[..n], sub)
    ensures Contains(s, sub)
  {
    ContainsIffOccurs(s[..n], sub);
    var i :| OccursAt(s[..n], sub, i);
    assert s[..n][i..i + |sub|] == s[i..i + |sub|];
    assert OccursAt(s, sub, i);
    ContainsIffOccurs(s, sub);
  }

  /** An occurrence in `x + v` ends inside `x` when `v` has no character of the pattern. */
  lemma OccursBeforeDisjoint(x: string, v: string, pat: string, i: int)
    requires |pat| > 0 && forall c :: c in v ==> c !in pat
    requires OccursAt(x + v, pat, i)
    ensures OccursAt(x, pat, i)
  {
    var last := i + |pat| - 1;
    assert (x + v)[last] == pat[|pat| - 1] by {
      assert (x + v)[i..i + |pat|][|pat| - 1] == (x + v)[last];
    }
    assert pat[|pat| - 1] in pat;
    assert last < |x|;
    assert (x + v)[i..i + |pat|] == x[i..i + |pat|];
  }

  /** Characters the pattern does not use, appended to a text, create no occurrence of it. */
  lemma ContainsBeforeDisjoint(x: string, v: string, pat: string)
    requires |pat| > 0 && forall c :: c in v ==> c !in pat
    requires Contains(x + v, pat)
    ensures Contains(x, pat)
  {
    ContainsIffOccurs(x + v, pat);
    var i :| OccursAt(x + v, pat, i);
    OccursBeforeDisjoint(x, v, pat, i);
    ContainsIffOccurs(x, pat);
  }

  /**
   * `s.replace(/pat/g, repl)`: every left-to-right, non-overlapping occurrence of `pat`
   * is replaced. A string without the pattern is left as it is; a replacement no longer
   * than the pattern never lengthens the string; and a one-character pattern that the
   * replacement does not contain is gone from the result.
   */
  function ReplaceAll(s: string, pat: string, repl: string): (r: string)
    requires |pat| > 0
    ensures !Contains(s, pat) ==> r == s
    ensures |repl| <= |pat| ==> |r| <= |s|
    ensures |pat| == 1 && pat[0] !in repl ==> pat[0] !in r
    decreases |s|
  {
    if s == [] then []
    else if StartsWith(s, pat) then repl + ReplaceAll(s[|pat|..], pat, repl)
    else
      assert |pat| == 1 ==> s[0] != pat[0] by {
        if |pat| == 1 {
          assert s[..1] == [s[0]];
        }
      }
      [s[0]] + ReplaceAll(s[1..], pat, repl)
  }

  /**
   * The scan reaches the first occurrence of `pat`, the one after a stretch `a` at
   * no position of which an occurrence starts, keeps `a` and puts `repl` in its place.
   */
  lemma {:induction false} ReplaceAllOccurrence(a: string, pat: string, repl: string, b: string)
    requires |pat| > 0
    requires forall k :: 0 <= k < |a| ==> !StartsWith((a + pat + b)[k..], pat)
    ensures ReplaceAll(a + pat + b, pat, repl) == a + repl + ReplaceAll(b, pat, repl)
    decreases |a|
  {
    var s := a + pat + b;
    if a == [] {
      assert s == pat + b && s[..|pat|] == pat && s[|pat|..] == b;
    } else {
      assert s[0] == a[0] && s[1..] == a[1..] + pat + b;
      assert !StartsWith(s[0..], pat) && s[0..] == s;
      forall k | 0 <= k < |a[1..]| ensures !StartsWith((a[1..] + pat + b)[k..], pat) {
        assert (a[1..] + pat + b)[k..] == s[k + 1..];
      }
      ReplaceAllOccurrence(a[1..], pat, repl, b);
      assert [a[0]] + (a[1..] + repl + ReplaceAll(b, pat, repl)) == a + repl + ReplaceAll(b, pat, repl);
    }
  }

  /**
   * When the result starts with a string that has no character of a non-empty
   * replacement, that string was at the start of the input already.
   */
  lemma {:induction false} ReplacedStartsWith(s: string, pat: string, repl: string, w: string)
    requires |pat| > 0 && |repl| > 0 && forall c :: c in w ==> c !in repl
    requires StartsWith(ReplaceAll(s, pat, repl), w)
    ensures StartsWith(s, w)
    decreases |s|
  {
    var r := ReplaceAll(s, pat, repl);
    if w != [] {
      assert r[0] == w[0] && w[0] in w;
      // `s` cannot start with `pat`: then `r` would start with `repl[0]`, which is not in `w`.
      if !StartsWith(s, pat) {
        var rest := ReplaceAll(s[1..], pat, repl);
        assert r == [s[0]] + rest;
        assert StartsWith(rest, w[1..]) by {
          assert rest[..|w| - 1] == r[1..|w|] == w[1..];
        }
        assert forall c :: c in w[1..] ==> c in w;
        ReplacedStartsWith(s[1..], pat, repl, w[1..]);
        assert s[..|w|] == [s[0]] + s[1..][..|w| - 1];
      }
    }
  }

  /** A text that starts with characters the pattern does not use contains the pattern only after them. */
  lemma {:induction false} ContainsAfterDisjoint(u: string, x: string, pat: string)
    requires |pat| > 0 && forall c :: c in u ==> c !in pat
    requires Contains(u + x, pat)
    ensures Contains(x, pat)
    decreases |u|
  {
    if u == [] {
      assert u + x == x;
    } else {
      assert (u + x)[0] == u[0] && u[0] in u;
      assert pat[0] in pat;
      assert !StartsWith(u + x, pat) by {
        assert |pat| <= |u + x| ==> (u + x)[..|pat|][0] == u[0];
      }
      assert (u + x)[1..] == u[1..] + x;
      assert forall c :: c in u[1..] ==> c in u;
      ContainsAfterDisjoint(u[1..], x, pat);
    }
  }

  /**
   * A global replace by a non-empty text that shares no character with the pattern
   * leaves no occurrence of the pattern behind.
   */
  lemma {:induction false} ReplaceAllRemoves(s: string, pat: string, repl: string)
    requires |pat| > 0 && |repl| > 0 && forall c :: c in repl ==> c !in pat
    ensures !Contains(ReplaceAll(s, pat, repl), pat)
    decreases |s|
  {
    var r := ReplaceAll(s, pat, repl);
    if s == [] {
    } else if StartsWith(s, pat) {
      var rest := ReplaceAll(s[|pat|..], pat, repl);
      ReplaceAllRemoves(s[|pat|..], pat, repl);
      if Contains(r, pat) {
        ContainsAfterDisjoint(repl, rest, pat);
      }
    } else {
      var rest := ReplaceAll(s[1..], pat, repl);
      ReplaceAllRemoves(s[1..], pat, repl);
      assert r == [s[0]] + rest && r[1..] == rest;
      if StartsWith(r, pat) {
        ReplacedStartsWith(s, pat, repl, pat);
      }
    }
  }

  /** `s.substring(0, n)`. */
  function Take(s: string, n: nat): (r: string)
    ensures |r| <= n && |r| <= |s| && r == s[..|r|]
    ensures |s| <= n ==> r == s
    ensures n <= |s| ==> |r| == n
  {
    if |s| <= n then s else s[..n]
  }

  /** Lexicographic order on character codes; the model's stand-in for `localeCompare(...) <= 0`. */
  predicate LexLe(a: string, b: string)
    decreases |a|
  {
    a == [] || (b != [] && (a[0] < b[0] || (a[0] == b[0] && LexLe(a[1..], b[1..]))))
  }

  lemma {:induction false} LexLeTotal(a: string, b: string)
    ensures LexLe(a, b) || LexLe(b, a)
    decreases |a|
  {
    if a != [] && b != [] && a[0] == b[0] {
      LexLeTotal(a[1..], b[1..]);
    }
  }

  lemma {:induction false} LexLeTransitive(a: string, b: string, c: string)
    requires LexLe(a, b) && LexLe(b, c)
    ensures LexLe(a, c)
    decreases |a|
  {
    if a != [] && a[0] == b[0] && b[0] == c[0] {
      LexLeTransitive(a[1..], b[1..], c[1..]);
    }
  }
}
