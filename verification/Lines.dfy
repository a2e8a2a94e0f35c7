/** `str.splitlines`, `str.strip` and `"\n".join` on configuration text. */
module Lines {
  import opened Text

  /** The characters `str.splitlines` breaks a line at. */
  predicate IsBreak(c: char) {
    var n := c as int;
    10 <= n <= 13 || 28 <= n <= 30 || n == 0x85 || n == 0x2028 || n == 0x2029
  }

  predicate OneLine(s: string) {
    forall i :: 0 <= i < |s| ==> !IsBreak(s[i])
  }

  /** A carriage return and the line feed after it are one break. */
  function SplitFrom(s: string, current: string): seq<string>
    decreases |s|
  {
    if s == "" then (if current == "" then [] else [current])
    else if |s| >= 2 && s[0] == '\r' && s[1] == '\n' then [current] + SplitFrom(s[2..], "")
    else if IsBreak(s[0]) then [current] + SplitFrom(s[1..], "")
    else SplitFrom(s[1..], current + [s[0]])
  }

  function SplitLines(s: string): seq<string> {
    SplitFrom(s, "")
  }

  lemma {:induction false} SplitFirstLine(line: string, rest: string, current: string)
    requires OneLine(line)
    ensures SplitFrom(line + "\n" + rest, current) == [current + line] + SplitLines(rest)
    decreases |line|
  {
    var s := line + "\n" + rest;
    if line == "" {
      assert s[0] == '\n' && s[1..] == rest && current + line == current;
    } else {
      assert s[0] == line[0] && s[1..] == line[1..] + "\n" + rest;
      assert !IsBreak(line[0]);
      SplitFirstLine(line[1..], rest, current + [line[0]]);
      assert current + [line[0]] + line[1..] == current + line;
    }
  }

  /** Lines joined with a final newline split back into themselves. */
  lemma {:induction false} SplitJoined(lines: seq<string>)
    requires lines != [] && forall i :: 0 <= i < |lines| ==> OneLine(lines[i])
    ensures SplitLines(Join(lines, "\n") + "\n") == lines
  {
    if |lines| == 1 {
      SplitFirstLine(lines[0], "", "");
      assert lines[0] + "\n" + "" == lines[0] + "\n" && "" + lines[0] == lines[0];
    } else {
      var rest := Join(lines[1..], "\n") + "\n";
      assert Join(lines, "\n") + "\n" == lines[0] + "\n" + rest;
      SplitFirstLine(lines[0], rest, "");
      SplitJoined(lines[1..]);
      assert "" + lines[0] == lines[0];
      hide SplitFrom, Join, OneLine;
      assert [lines[0]] + lines[1..] == lines;
    }
  }

  lemma {:induction false} SplitYieldsLines(s: string, current: string)
    requires OneLine(current)
    ensures forall i :: 0 <= i < |SplitFrom(s, current)| ==> OneLine(SplitFrom(s, current)[i])
    decreases |s|
  {
    if s == "" {
    } else if |s| >= 2 && s[0] == '\r' && s[1] == '\n' {
      SplitYieldsLines(s[2..], "");
    } else if IsBreak(s[0]) {
      SplitYieldsLines(s[1..], "");
    } else {
      SplitYieldsLines(s[1..], current + [s[0]]);
    }
  }

  // ----- strip --------------------------------------------------------------------

  function LStrip(s: string): (r: string)
    ensures r != "" ==> !IsSpace(r[0])
  {
    if s != "" && IsSpace(s[0]) then LStrip(s[1..]) else s
  }

  function RStrip(s: string): (r: string)
    ensures |r| <= |s| && s[..|r|] == r
    ensures r != "" ==> !IsSpace(r[|r| - 1])
  {
    if s != "" && IsSpace(s[|s| - 1]) then RStrip(s[..|s| - 1]) else s
  }

  function Strip(s: string): string {
    LStrip(RStrip(s))
  }

  predicate Trimmed(s: string) {
    s != "" ==> !IsSpace(s[0]) && !IsSpace(s[|s| - 1])
  }

  lemma StripTrimmed(s: string)
    requires Trimmed(s)
    ensures Strip(s) == s
  {
  }

  lemma {:induction false} RStripSpaces(a: string, spaces: string)
    requires forall i :: 0 <= i < |spaces| ==> IsSpace(spaces[i])
    ensures RStrip(a + spaces) == RStrip(a)
    decreases |spaces|
  {
    if spaces == "" {
      assert a + spaces == a;
    } else {
      var n := |spaces| - 1;
      assert (a + spaces)[..|a + spaces| - 1] == a + spaces[..n];
      RStripSpaces(a, spaces[..n]);
    }
  }

  lemma {:induction false} RStripInside(a: string, b: string)
    requires RStrip(b) != ""
    ensures RStrip(a + b) == a + RStrip(b)
    decreases |b|
  {
    var n := |b| - 1;
    if IsSpace(b[n]) {
      assert (a + b)[..|a + b| - 1] == a + b[..n];
      RStripInside(a, b[..n]);
    }
  }

  lemma {:induction false} RStripEmpty(s: string)
    requires RStrip(s) == ""
    ensures forall i :: 0 <= i < |s| ==> IsSpace(s[i])
  {
    if s != "" {
      RStripEmpty(s[..|s| - 1]);
    }
  }

  lemma {:induction false} LStripEmpty(s: string)
    requires LStrip(s) == ""
    ensures forall i :: 0 <= i < |s| ==> IsSpace(s[i])
  {
    if s != "" {
      LStripEmpty(s[1..]);
      assert forall i :: 0 < i < |s| ==> s[i] == s[1..][i - 1];
    }
  }

  predicate Blank(s: string) {
    Strip(s) == ""
  }

  lemma BlankExactly(s: string)
    ensures Blank(s) <==> RStrip(s) == ""
  {
    if Blank(s) {
      LStripEmpty(RStrip(s));
    }
  }

  /** What `rstrip` makes of joined lines: trailing blank lines gone, the last one trimmed. */
  function TrimEnd(lines: seq<string>): (r: seq<string>)
    ensures |r| <= |lines|
    ensures forall i :: 0 <= i < |r| - 1 ==> r[i] == lines[i]
    ensures r != [] ==> r[|r| - 1] == RStrip(lines[|r| - 1])
  {
    if lines == [] then []
    else if Blank(lines[|lines| - 1]) then TrimEnd(lines[..|lines| - 1])
    else lines[..|lines| - 1] + [RStrip(lines[|lines| - 1])]
  }

  lemma BlankLineGone(text: string, last: string)
    requires Blank(last)
    ensures RStrip(text + "\n" + last) == RStrip(text) && RStrip(last) == ""
  {
    BlankExactly(last);
    RStripEmpty(last);
    var tail := "\n" + last;
    assert forall i :: 0 <= i < |tail| ==> IsSpace(tail[i]);
    assert text + "\n" + last == text + tail;
    hide RStrip, Blank, IsSpace;
    RStripSpaces(text, tail);
  }

  lemma {:induction false} RStripOfJoin(lines: seq<string>)
    ensures RStrip(Join(lines, "\n")) == Join(TrimEnd(lines), "\n")
  {
    if lines != [] {
      var init, last := lines[..|lines| - 1], lines[|lines| - 1];
      assert lines == init + [last];
      JoinLength(init, last, "\n");
      JoinLength(init, RStrip(last), "\n");
      if Blank(last) {
        BlankLineGone(Join(init, "\n"), last);
        RStripOfJoin(init);
      } else {
        BlankExactly(last);
        RStripInside(Join(init, "\n") + "\n", last);
      }
    }
  }
}
