/** The reply text shown in the chat window: `text.replace(/\n/g, '<br>')`. */
module Markup {

  const LineBreak: string := "<br>"

  /** How many times `c` occurs in `s`. */
  function Occurrences(s: string, c: char): nat
  {
    if s == [] then 0 else (if s[0] == c then 1 else 0) + Occurrences(s[1..], c)
  }

  /** What one character of the reply is displayed as. */
  function Piece(c: char): (r: string)
    ensures '\n' !in r
    ensures |r| == if c == '\n' then 4 else 1
  {
    if c == '\n' then LineBreak else [c]
  }

  /** Every newline of `s` replaced by a `<br>` tag, all other characters kept. */
  function BreakLines(s: string): (r: string)
    ensures '\n' !in r
    ensures |r| == |s| + 3 * Occurrences(s, '\n')
    ensures '\n' !in s ==> r == s
  {
    if s == [] then []
    else Piece(s[0]) + BreakLines(s[1..])
  }

  /** Rewriting a text piece by piece rewrites the whole text. */
  lemma {:induction false} BreakLinesConcat(a: string, b: string)
    ensures BreakLines(a + b) == BreakLines(a) + BreakLines(b)
  {
    if a == [] {
      assert a + b == b;
    } else {
      var ab := a + b;
      assert ab[0] == a[0];
      assert ab[1..] == a[1..] + b;
      assert BreakLines(ab) == Piece(a[0]) + BreakLines(a[1..] + b);
      BreakLinesConcat(a[1..], b);
    }
  }

  /** Every `<br>` tag turned back into a newline. */
  function RestoreLines(t: string): (r: string)
    ensures |r| <= |t|
  {
    if t == [] then []
    else if |t| >= 4 && t[..4] == LineBreak then "\n" + RestoreLines(t[4..])
    else [t[0]] + RestoreLines(t[1..])
  }

  /** On a reply without `<` the rewrite loses nothing: turning the tags back
      into newlines recovers the reply. */
  lemma {:induction false} BreakLinesRoundTrip(s: string)
    requires '<' !in s
    ensures RestoreLines(BreakLines(s)) == s
  {
    if s != [] {
      var rest := BreakLines(s[1..]);
      assert '<' !in s[1..];
      BreakLinesRoundTrip(s[1..]);
      if s[0] == '\n' {
        var t := LineBreak + rest;
        assert t[..4] == LineBreak && t[4..] == rest;
      } else {
        var t := [s[0]] + rest;
        assert t[1..] == rest;
        assert s[0] != '<';
        assert s == [s[0]] + s[1..];
      }
    }
  }
}
