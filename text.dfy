/**
  Text handling the annotation tool relies on: Python's `str.strip()` and the
  way iterating over a text file yields one line at a time (each line keeping
  its terminating newline). Newline translation by the file layer is assumed
  to have happened already, so '\n' is the only line terminator here.
 */
module Text {

  /** Python's `str.isspace()` for a single character. */
  predicate IsSpace(c: char) {
    || c == ' ' || c == '\t' || c == '\n' || c == '\r'
    || c == '\U{000B}' || c == '\U{000C}'
    || ('\U{001C}' <= c <= '\U{001F}')
    || c == '\U{0085}' || c == '\U{00A0}' || c == '\U{1680}'
    || ('\U{2000}' <= c <= '\U{200A}')
    || c == '\U{2028}' || c == '\U{2029}' || c == '\U{202F}'
    || c == '\U{205F}' || c == '\U{3000}'
  }

  predicate AllSpace(s: string) {
    forall k :: 0 <= k < |s| ==> IsSpace(s[k])
  }

  /** Number of whitespace characters at the front of `s`. */
  function LeadingSpace(s: string): (n: nat)
    ensures n <= |s|
    ensures forall k :: 0 <= k < n ==> IsSpace(s[k])
    ensures n < |s| ==> !IsSpace(s[n])
  {
    if s == [] || !IsSpace(s[0]) then 0 else 1 + LeadingSpace(s[1..])
  }

  /** Number of whitespace characters at the back of `s`. */
  function TrailingSpace(s: string): (n: nat)
    ensures n <= |s|
    ensures forall k :: |s| - n <= k < |s| ==> IsSpace(s[k])
    ensures n < |s| ==> !IsSpace(s[|s| - 1 - n])
  {
    if s == [] || !IsSpace(s[|s| - 1]) then 0 else 1 + TrailingSpace(s[..|s| - 1])
  }

  /**
    Python's `s.strip()`: `s` with the whitespace cut off both ends; it is
    empty exactly when `s` is all whitespace, and otherwise starts and ends
    with a non-whitespace character.
   */
  function Strip(s: string): (r: string)
    ensures |r| == 0 <==> AllSpace(s)
    ensures |r| > 0 ==> !IsSpace(r[0]) && !IsSpace(r[|r| - 1])
  {
    var lead := LeadingSpace(s);
    if lead == |s| then ""
    else
      var trail := TrailingSpace(s);
      assert lead < |s| - trail;
      s[lead..|s| - trail]
  }

  /** What `Strip` removes is whitespace, and what it keeps is one contiguous piece of `s`. */
  lemma StripKeepsMiddle(s: string)
    ensures exists i :: 0 <= i <= |s| - |Strip(s)|
                     && Strip(s) == s[i..i + |Strip(s)|]
                     && AllSpace(s[..i]) && AllSpace(s[i + |Strip(s)|..])
  {
    var lead := LeadingSpace(s);
    if lead == |s| {
      assert s[..0] == "" && s[0..] == s;
    } else {
      var trail := TrailingSpace(s);
      assert AllSpace(s[..lead]) && AllSpace(s[|s| - trail..]);
    }
  }

  /** `Strip` applied to each line. */
  function StripEach(lines: seq<string>): (r: seq<string>)
    ensures |r| == |lines|
    ensures forall i :: 0 <= i < |r| ==> r[i] == Strip(lines[i])
  {
    seq(|lines|, i requires 0 <= i < |lines| => Strip(lines[i]))
  }

  /** Concatenation of a sequence of lines, in order. */
  function Join(lines: seq<string>): string {
    if lines == [] then "" else lines[0] + Join(lines[1..])
  }

  lemma {:induction false} JoinAppend(lines: seq<string>, line: string)
    ensures Join(lines + [line]) == Join(lines) + line
  {
    if lines == [] {
      assert lines + [line] == [line];
    } else {
      assert (lines + [line])[1..] == lines[1..] + [line];
      JoinAppend(lines[1..], line);
    }
  }

  /** Length of the first line of `s`, its newline included when it has one. */
  function LineEnd(s: string): (n: nat)
    requires s != ""
    ensures 0 < n <= |s|
    ensures forall k :: 0 <= k < n - 1 ==> s[k] != '\n'
    ensures s[n - 1] == '\n' || n == |s|
  {
    if s[0] == '\n' || |s| == 1 then 1 else 1 + LineEnd(s[1..])
  }

  /** A line as the file iterator yields it: its only newline is at its end, if anywhere. */
  predicate IsLine(line: string) {
    line != "" && forall k :: 0 <= k < |line| - 1 ==> line[k] != '\n'
  }

  /** The lines a Python text file iterator yields for contents `s`. */
  function SplitLines(s: string): (lines: seq<string>)
    decreases |s|
  {
    if |s| == 0 then []
    else
      var n := LineEnd(s);
      [s[..n]] + SplitLines(s[n..])
  }

  /** Joining the pieces `SplitLines` yields gives the text back. */
  lemma {:induction false} SplitLinesJoin(s: string)
    ensures Join(SplitLines(s)) == s
    decreases |s|
  {
    if |s| > 0 {
      var n := LineEnd(s);
      SplitLinesJoin(s[n..]);
      assert ([s[..n]] + SplitLines(s[n..]))[1..] == SplitLines(s[n..]);
      assert s == s[..n] + s[n..];
    }
  }

  /** Every piece but the last ends with '\n', and no piece holds a newline before its end. */
  lemma {:induction false} SplitLinesAreLines(s: string)
    ensures forall i :: 0 <= i < |SplitLines(s)| ==>
              IsLine(SplitLines(s)[i]) && (i < |SplitLines(s)| - 1 ==> SplitLines(s)[i][|SplitLines(s)[i]| - 1] == '\n')
    decreases |s|
  {
    if |s| > 0 {
      var n := LineEnd(s);
      var rest := SplitLines(s[n..]);
      SplitLinesAreLines(s[n..]);
      forall i | 0 < i < |SplitLines(s)| ensures SplitLines(s)[i] == rest[i - 1] { }
    }
  }

  /** The first line of `a + "\n" + t` is `a + "\n"` when `a` has no newline. */
  lemma {:induction false} LineEndOfTerminated(a: string, t: string)
    requires '\n' !in a
    ensures LineEnd(a + "\n" + t) == |a| + 1
  {
    if a != [] {
      assert (a + "\n" + t)[1..] == a[1..] + "\n" + t;
      LineEndOfTerminated(a[1..], t);
    }
  }

  /** Splitting the concatenation of newline-terminated lines gives those lines back. */
  lemma {:induction false} SplitJoin(lines: seq<string>)
    requires forall i :: 0 <= i < |lines| ==>
               |lines[i]| > 0 && lines[i][|lines[i]| - 1] == '\n' && '\n' !in lines[i][..|lines[i]| - 1]
    ensures SplitLines(Join(lines)) == lines
  {
    if lines != [] {
      var l := lines[0];
      var a := l[..|l| - 1];
      assert l == a + "\n";
      var s := Join(lines);
      assert s == a + "\n" + Join(lines[1..]);
      LineEndOfTerminated(a, Join(lines[1..]));
      assert s[..|l|] == l;
      assert s[|l|..] == Join(lines[1..]);
      SplitJoin(lines[1..]);
    }
  }

  /** Stripping a newline-terminated piece without whitespace at its ends yields the piece. */
  lemma StripTerminated(a: string)
    requires a != "" && !IsSpace(a[0]) && !IsSpace(a[|a| - 1])
    ensures Strip(a + "\n") == a
  {
    var s := a + "\n";
    assert LeadingSpace(s) == 0;
    assert TrailingSpace(s[..|s| - 1]) == 0 by { assert s[..|s| - 1] == a; }
    assert TrailingSpace(s) == 1;
    assert s[0..|s| - 1] == a;
  }
}
