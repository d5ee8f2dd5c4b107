/**
 * `formatMarkdown`: three global regular-expression passes over a message text,
 * `**x**` to `<strong>x</strong>`, then `*x*` to `<em>x</em>`, then each newline to
 * `<br>`. The inner `.*?` is non-greedy and, as `.` does, never crosses a line terminator.
 */
module Markdown {
  import opened Wrappers
  import opened JsText

  /** The characters a regular-expression `.` does not match. */
  predicate IsLineTerminator(c: char) {
    c == '\n' || c == '\r' || c == '\U{2028}' || c == '\U{2029}'
  }

  /**
   * The first position `j >= from` where `delim` occurs such that no line terminator
   * lies between `from` and `j`: where a non-greedy `(.*?)` starting at `from` stops.
   * There is none exactly when every occurrence of `delim` at or after `from` has a
   * line terminator before it.
   */
  function FindCloser(s: string, delim: string, from: nat): (r: Option<nat>)
    requires from <= |s|
    ensures r.Some? ==> from <= r.value <= |s| && StartsWith(s[r.value..], delim)
                        && forall k :: from <= k < r.value ==> !IsLineTerminator(s[k])
    ensures r.Some? ==> forall k :: from <= k < r.value ==> !StartsWith(s[k..], delim)
    ensures r.None? ==> forall k :: from <= k <= |s| && StartsWith(s[k..], delim) ==>
                          exists j :: from <= j < k && IsLineTerminator(s[j])
    decreases |s| - from
  {
    if StartsWith(s[from..], delim) then Some(from)
    else if from < |s| && !IsLineTerminator(s[from]) then FindCloser(s, delim, from + 1)
    else None
  }

  /**
   * `s.replace(/D(.*?)D/g, open + "$1" + close)` for the delimiter `D`: scanning left to
   * right, a delimiter with a closer on the same line wraps the text between them.
   */
  function WrapDelimited(s: string, delim: string, open: string, close: string): string
    requires |delim| > 0
    decreases |s|
  {
    if s == [] then []
    else if StartsWith(s, delim) && FindCloser(s, delim, |delim|).Some? then
      var j := FindCloser(s, delim, |delim|).value;
      open + s[|delim|..j] + close + WrapDelimited(s[j + |delim|..], delim, open, close)
    else [s[0]] + WrapDelimited(s[1..], delim, open, close)
  }

  /**
   * `formatMarkdown`: an empty text gives ""; otherwise bold, then italic, then line
   * breaks. The result is empty exactly when the text is, and it holds no newline.
   */
  function FormatMarkdown(text: string): (r: string)
    ensures r == "" <==> text == ""
    ensures '\n' !in r
  {
    if text == "" then ""
    else
      var bold := WrapDelimited(text, "**", "<strong>", "</strong>");
      var italic := WrapDelimited(bold, "*", "<em>", "</em>");
      assert bold != [] && italic != [];
      ReplaceAll(italic, "\n", "<br>")
  }

  /** A string whose characters never include the first character of `sub` does not contain it. */
  lemma {:induction false} FirstCharAbsent(s: string, sub: string)
    requires |sub| > 0 && sub[0] !in s
    ensures !Contains(s, sub)
    decreases |s|
  {
    if s != [] {
      assert s[0] in s;
      assert !StartsWith(s, sub) by {
        assert |sub| > |s| || s[..|sub|][0] != sub[0];
      }
      FirstCharAbsent(s[1..], sub);
    } else {
      assert !StartsWith(s, sub);
    }
  }

  /** A wrapping pass leaves a text in which its delimiter does not occur unchanged. */
  lemma {:induction false} WrapAbsent(s: string, delim: string, open: string, close: string)
    requires |delim| > 0 && !Contains(s, delim)
    ensures WrapDelimited(s, delim, open, close) == s
    decreases |s|
  {
    if s != [] {
      WrapAbsent(s[1..], delim, open, close);
    }
  }

  /** A text without `*` and without a newline is shown exactly as written. */
  lemma FormatPlain(text: string)
    requires '*' !in text && '\n' !in text
    ensures FormatMarkdown(text) == text
  {
    if text != "" {
      FirstCharAbsent(text, "**");
      FirstCharAbsent(text, "*");
      FirstCharAbsent(text, "\n");
      WrapAbsent(text, "**", "<strong>", "</strong>");
      WrapAbsent(text, "*", "<em>", "</em>");
    }
  }
}
