/** How a line of configuration text reads, and where a text breaks into lines. */
module ConfigLines {
  import opened Wrappers
  import opened Text
  import opened Lines
  import opened Sections

  // ----- characters ---------------------------------------------------------------

  const SPACES: set<int> := {9, 10, 11, 12, 13, 28, 29, 30, 31, 32, 0x85, 0xa0, 0x1680,
    0x2000, 0x2001, 0x2002, 0x2003, 0x2004, 0x2005, 0x2006, 0x2007, 0x2008, 0x2009, 0x200a,
    0x2028, 0x2029, 0x202f, 0x205f, 0x3000}

  const BREAKS: set<int> := {10, 11, 12, 13, 28, 29, 30, 0x85, 0x2028, 0x2029}

  lemma SpacesAre(c: char)
    ensures IsSpace(c) <==> c as int in SPACES
  {
  }

  lemma BreaksAre(c: char)
    ensures IsBreak(c) <==> c as int in BREAKS
  {
  }

  // ----- lines of a text ----------------------------------------------------------

  /** A line break before `rest`: one breaking character, or a carriage return with its line
      feed, which are never taken apart. */
  predicate IsTerminator(t: string, rest: string) {
    t == "\r\n" || (|t| == 1 && t[0] as int in BREAKS && !(t == "\r" && rest != "" && rest[0] == '\n'))
  }

  lemma {:induction false} SplitsAt(line: string, t: string, rest: string, current: string)
    requires OneLine(line) && IsTerminator(t, rest)
    ensures SplitFrom(line + t + rest, current) == [current + line] + SplitLines(rest)
    decreases |line|
  {
    var s := line + t + rest;
    if line == "" {
      BreaksAre(t[0]);
      assert s == t + rest && s[0] == t[0] && s[|t|..] == rest && current + line == current;
    } else {
      BreaksAre(line[0]);
      assert !IsBreak(line[0]);
      assert s[0] == line[0] && s[1..] == line[1..] + t + rest;
      SplitsAt(line[1..], t, rest, current + [line[0]]);
      assert current + [line[0]] + line[1..] == current + line;
    }
  }

  /** A text is its first line, up to the first break, and the lines after the break... */
  lemma SplitLinesExactly(line: string, t: string, rest: string)
    requires OneLine(line) && IsTerminator(t, rest)
    ensures SplitLines(line + t + rest) == [line] + SplitLines(rest)
  {
    SplitsAt(line, t, rest, "");
    assert "" + line == line;
  }

  lemma {:induction false} Unbroken(line: string, current: string)
    requires OneLine(line)
    ensures SplitFrom(line, current) == if current + line == "" then [] else [current + line]
    decreases |line|
  {
    if line == "" {
      assert current + line == current;
    } else {
      BreaksAre(line[0]);
      assert !IsBreak(line[0]);
      Unbroken(line[1..], current + [line[0]]);
      assert current + [line[0]] + line[1..] == current + line;
    }
  }

  /** ...and without a break it is one line, none when it is empty. */
  lemma LastLine(line: string)
    requires OneLine(line)
    ensures SplitLines(line) == if line == "" then [] else [line]
  {
    Unbroken(line, "");
    assert "" + line == line;
  }

  // ----- one line -----------------------------------------------------------------

  /** `r` without the white space around it. */
  ghost predicate Trims(s: string, r: string) {
    && (r != "" ==> !IsSpace(r[0]) && !IsSpace(r[|r| - 1]))
    && exists a, b :: s == a + r + b && AllSpace(a) && AllSpace(b)
  }

  predicate AllSpace(s: string) {
    forall i :: 0 <= i < |s| ==> IsSpace(s[i])
  }

  lemma {:induction false} RStripCuts(s: string)
    ensures AllSpace(s[|RStrip(s)|..]) && s == RStrip(s) + s[|RStrip(s)|..]
  {
    if s != "" && IsSpace(s[|s| - 1]) {
      RStripCuts(s[..|s| - 1]);
    }
  }

  lemma {:induction false} LStripCuts(s: string)
    ensures |LStrip(s)| <= |s|
    ensures AllSpace(s[..|s| - |LStrip(s)|]) && s == s[..|s| - |LStrip(s)|] + LStrip(s)
    ensures LStrip(s) != "" ==> !IsSpace(LStrip(s)[0])
    ensures LStrip(s) != "" ==> s != "" && LStrip(s)[|LStrip(s)| - 1] == s[|s| - 1]
  {
    if s != "" && IsSpace(s[0]) {
      LStripCuts(s[1..]);
    }
  }

  lemma StripTrims(s: string)
    ensures Trims(s, Strip(s))
  {
    var t := RStrip(s);
    RStripCuts(s);
    LStripCuts(t);
    var a, b := t[..|t| - |Strip(s)|], s[|t|..];
    assert s == a + Strip(s) + b;
  }

  /** A line opens the section whose name stands, between white space, in the brackets it begins
      with. */
  ghost predicate IsHeader(line: string, inner: string) {
    && inner != "" && |line| >= |inner| + 2
    && line[0] == '[' && line[1..|inner| + 1] == inner && line[|inner| + 1] == ']'
    && forall i :: 0 <= i < |inner| ==> inner[i] != ']'
  }

  lemma HeaderExactly(line: string)
    ensures HeaderOf(line).Some? <==> exists inner :: IsHeader(line, inner)
    ensures forall inner :: IsHeader(line, inner) ==> HeaderOf(line) == Some(Strip(inner))
  {
    if line != "" && line[0] == '[' {
      var close := IndexOf(line, ']');
      if close < |line| && close >= 2 {
        assert IsHeader(line, line[1..close]);
      }
      forall inner | IsHeader(line, inner)
        ensures close == |inner| + 1
      {
        assert forall i :: 1 <= i <= |inner| ==> line[i] == inner[i - 1];
      }
    }
  }

  /** A value loses one pair of like quotes around it, single or double. */
  lemma QuotesExactly(value: string, q: char, v: string)
    requires q == '\'' || q == '"'
    ensures Strip(value) == [q] + v + [q] ==> StripQuotes(value) == v
    ensures (forall c, w :: (c == '\'' || c == '"') ==> Strip(value) != [c] + w + [c]) ==> StripQuotes(value) == Strip(value)
  {
    var s := Strip(value);
    if s == [q] + v + [q] {
      assert s[0] == q && s[|s| - 1] == q && s[1..|s| - 1] == v;
    }
    if |s| >= 2 && s[0] == s[|s| - 1] {
      assert s == [s[0]] + s[1..|s| - 1] + [s[0]];
    }
  }

  /** A line assigns what stands right of its first `=` to the key left of it, unless it is a
      comment or a header or there is no key. */
  ghost predicate IsAssignment(line: string, left: string, right: string) {
    && line == left + "=" + right && (forall i :: 0 <= i < |left| ==> left[i] != '=')
    && line[0] != '#' && HeaderOf(line).None? && Strip(left) != ""
  }

  lemma AssignmentExactly(line: string)
    ensures AssignmentOf(line).Some? <==> exists left, right :: IsAssignment(line, left, right)
    ensures forall left, right :: IsAssignment(line, left, right) ==>
              AssignmentOf(line) == Some((Strip(left), StripQuotes(right)))
  {
    var eq := IndexOf(line, '=');
    if eq < |line| {
      assert line == line[..eq] + "=" + line[eq + 1..];
      if AssignmentOf(line).Some? {
        assert IsAssignment(line, line[..eq], line[eq + 1..]);
      }
    }
    forall left, right | IsAssignment(line, left, right)
      ensures eq == |left| < |line| && line[..eq] == left && line[eq + 1..] == right
    {
      assert line[|left|] == '=' && forall i :: 0 <= i < |left| ==> line[i] == left[i];
    }
  }
}
