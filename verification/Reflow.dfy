/** Rewrapping a description: `wrap_paragraph`, `literal_block` and `overlong_lines` of
    scripts/reflow-descriptions.py. */
module Reflow {
  import opened Text
  import opened Seqs

  const LIMIT := 80
  const KEY := "description"

  // ----- breaking words into lines ------------------------------------------------

  function Flatten(lines: seq<seq<string>>): seq<string> {
    if lines == [] then [] else lines[0] + Flatten(lines[1..])
  }

  function Line(group: seq<string>): string {
    Join(group, " ")
  }

  predicate Fits(group: seq<string>, width: int) {
    |group| == 1 || (|group| > 1 && |Line(group)| <= width)
  }

  /** A way of setting the words: each line fits the width or is a single word. */
  predicate IsBreaking(lines: seq<seq<string>>, words: seq<string>, width: int) {
    Flatten(lines) == words && forall l :: l in lines ==> Fits(l, width)
  }

  /** How many words the greedy first line takes. */
  function FirstLine(words: seq<string>, k: nat, width: int): (r: nat)
    requires 1 <= k <= |words|
    ensures k <= r <= |words|
    decreases |words| - k
  {
    if k == |words| || |Line(words[..k])| + 1 + |words[k]| > width then k else FirstLine(words, k + 1, width)
  }

  function Greedy(words: seq<string>, width: int): seq<seq<string>>
    decreases |words|
  {
    if words == [] then []
    else var k := FirstLine(words, 1, width); [words[..k]] + Greedy(words[k..], width)
  }

  function Lines(groups: seq<seq<string>>): (r: seq<string>)
    ensures |r| == |groups| && forall i :: 0 <= i < |r| ==> r[i] == Line(groups[i])
  {
    seq(|groups|, i requires 0 <= i < |groups| => Line(groups[i]))
  }

  lemma {:induction false} LineGrows(words: seq<string>, i: nat, j: nat)
    requires i <= j <= |words|
    ensures |Line(words[..i])| <= |Line(words[..j])|
    decreases j
  {
    if i < j {
      assert words[..j] == words[..j - 1] + [words[j - 1]];
      JoinLength(words[..j - 1], words[j - 1], " ");
      LineGrows(words, i, j - 1);
    }
  }

  /** The greedy first line is the longest that fits. */
  lemma {:induction false} FirstLineMaximal(words: seq<string>, k: nat, width: int, m: nat)
    requires 1 <= k <= |words| && Fits(words[..k], width)
    ensures Fits(words[..FirstLine(words, k, width)], width)
    ensures FirstLine(words, k, width) < m <= |words| ==> !Fits(words[..m], width)
    decreases |words| - k
  {
    if k < |words| {
      assert words[..k + 1] == words[..k] + [words[k]];
      JoinLength(words[..k], words[k], " ");
      if |Line(words[..k])| + 1 + |words[k]| > width {
        if k < m <= |words| {
          LineGrows(words, k + 1, m);
        }
      } else {
        FirstLineMaximal(words, k + 1, width, m);
      }
    }
  }

  lemma {:induction false} GreedyIsBreaking(words: seq<string>, width: int)
    ensures IsBreaking(Greedy(words, width), words, width)
    decreases |words|
  {
    if words != [] {
      var k := FirstLine(words, 1, width);
      FirstLineMaximal(words, 1, width, 1);
      GreedyIsBreaking(words[k..], width);
      assert words == words[..k] + words[k..];
    }
  }

  lemma {:induction false} SuffixShorter(group: seq<string>, d: nat)
    requires d <= |group|
    ensures |Line(group[d..])| <= |Line(group)|
    decreases d
  {
    if d > 0 {
      SuffixShorter(group[1..], d - 1);
      assert group[1..][d - 1..] == group[d..];
    }
  }

  /** Dropping words from the front of a breaking leaves a breaking with no more lines. */
  lemma {:induction false} DropWords(lines: seq<seq<string>>, words: seq<string>, width: int, d: nat)
    returns (rest: seq<seq<string>>)
    requires IsBreaking(lines, words, width) && d <= |words|
    ensures IsBreaking(rest, words[d..], width) && |rest| <= |lines|
    decreases |lines|
  {
    if lines == [] {
      rest := [];
    } else {
      var group, others := lines[0], lines[1..];
      assert group in lines;
      assert IsBreaking(others, words[|group|..], width);
      if d < |group| {
        SuffixShorter(group, d);
        rest := [group[d..]] + others;
        assert words[d..] == group[d..] + words[|group|..];
      } else {
        rest := DropWords(others, words[|group|..], width, d - |group|);
        assert words[|group|..][d - |group|..] == words[d..];
      }
    }
  }

  /** No way of setting the words uses fewer lines. */
  lemma {:induction false} GreedyIsOptimal(words: seq<string>, width: int, lines: seq<seq<string>>)
    requires IsBreaking(lines, words, width)
    ensures |Greedy(words, width)| <= |lines|
    decreases |words|
  {
    if words != [] {
      var k := FirstLine(words, 1, width);
      var group := lines[0];
      assert group in lines && group == words[..|group|];
      FirstLineMaximal(words, 1, width, |group|);
      var others := lines[1..];
      assert IsBreaking(others, words[|group|..], width);
      var rest := DropWords(others, words[|group|..], width, k - |group|);
      assert words[|group|..][k - |group|..] == words[k..];
      GreedyIsOptimal(words[k..], width, rest);
    }
  }

  // ----- wrap_paragraph -----------------------------------------------------------

  function Unbroken(text: string): (r: string)
    ensures |r| == |text|
  {
    seq(|text|, i requires 0 <= i < |text| => if text[i] == '\n' then ' ' else text[i])
  }

  lemma {:induction false} UnbrokenKeepsWords(text: string, word: string)
    ensures Split(Unbroken(text), word) == Split(text, word)
    decreases |text|
  {
    if text != "" {
      assert Unbroken(text)[1..] == Unbroken(text[1..]);
      UnbrokenKeepsWords(text[1..], if IsSpace(text[0]) then "" else word + [text[0]]);
    }
  }

  function Wrapped(text: string, width: int): seq<string> {
    Lines(Greedy(Words(text), width))
  }

  /** What the pass over the words still appends, from a line begun and the words left. */
  function Fill(line: string, words: seq<string>, width: int): seq<string>
    decreases |words|
  {
    if words == [] then (if line == "" then [] else [line])
    else if line != "" && |line| + 1 + |words[0]| > width then [line] + Fill(words[0], words[1..], width)
    else Fill(if line == "" then words[0] else line + " " + words[0], words[1..], width)
  }

  lemma LineOfOne(words: seq<string>)
    requires words != []
    ensures Line(words[..1]) == words[0] && words[0] in words
  {
  }

  lemma GreedyUnfolds(words: seq<string>, width: int)
    requires words != []
    ensures var n := FirstLine(words, 1, width);
            Lines(Greedy(words, width)) == [Line(words[..n])] + Lines(Greedy(words[n..], width))
  {
  }

  /** Filling on from a line that already holds the first `k` words completes that line
      greedily and then sets the rest. */
  lemma {:induction false} FillIsGreedy(words: seq<string>, k: nat, width: int)
    requires 1 <= k <= |words| && forall w :: w in words ==> IsWord(w)
    ensures var n := FirstLine(words, k, width);
            Fill(Line(words[..k]), words[k..], width) == [Line(words[..n])] + Lines(Greedy(words[n..], width))
    decreases |words|, |words| - k
  {
    LineNonempty(words, k);
    if k < |words| {
      assert words[k..][0] == words[k] && words[k..][1..] == words[k + 1..];
      if |Line(words[..k])| + 1 + |words[k]| > width {
        var rest := words[k..];
        FillIsGreedy(rest, 1, width);
        LineOfOne(rest);
        GreedyUnfolds(rest, width);
      } else {
        assert words[..k + 1] == words[..k] + [words[k]];
        JoinLength(words[..k], words[k], " ");
        FillIsGreedy(words, k + 1, width);
      }
    }
  }

  lemma LineNonempty(words: seq<string>, k: nat)
    requires 1 <= k <= |words| && forall w :: w in words ==> IsWord(w)
    ensures Line(words[..k]) != ""
  {
    LineGrows(words, 1, k);
    assert words[0] in words;
    assert Line(words[..1]) == words[0];
  }

  lemma FillFromEmpty(words: seq<string>, width: int)
    requires forall w :: w in words ==> IsWord(w)
    ensures Fill("", words, width) == Lines(Greedy(words, width))
  {
    if words != [] {
      FillIsGreedy(words, 1, width);
      LineOfOne(words);
      GreedyUnfolds(words, width);
    }
  }

  lemma FillOneWord(line: string, words: seq<string>, i: nat, width: int)
    requires i < |words|
    ensures line != "" && |line| + 1 + |words[i]| > width ==>
              Fill(line, words[i..], width) == [line] + Fill(words[i], words[i + 1..], width)
    ensures line == "" ==> Fill(line, words[i..], width) == Fill(words[i], words[i + 1..], width)
    ensures line != "" && |line| + 1 + |words[i]| <= width ==>
              Fill(line, words[i..], width) == Fill(line + " " + words[i], words[i + 1..], width)
  {
    assert words[i..][0] == words[i] && words[i..][1..] == words[i + 1..];
  }

  /** `wrap_paragraph`: one pass over the words, filling a line until the next word would
      overflow it. */
  method WrapParagraph(text: string, width: int) returns (out: seq<string>)
    ensures out == Wrapped(text, width)
  {
    var words := Words(Unbroken(text));
    UnbrokenKeepsWords(text, "");
    SplitYieldsWords(text, "");
    FillFromEmpty(words, width);
    out := [];
    var line := "";
    for i := 0 to |words|
      invariant out + Fill(line, words[i..], width) == Fill("", words, width)
    {
      var word := words[i];
      FillOneWord(line, words, i, width);
      if line != "" && |line| + 1 + |word| > width {
        Regroup(out, [line], Fill(word, words[i + 1..], width));
        out := out + [line];
        line := word;
      } else {
        line := if line != "" then line + " " + word else word;
      }
    }
    if line != "" {
      out := out + [line];
    }
  }

  lemma {:induction false} LinesHoldWords(groups: seq<seq<string>>)
    requires forall g, w :: g in groups && w in g ==> IsWord(w)
    ensures WordsOf(Lines(groups)) == Flatten(groups)
  {
    if groups != [] {
      assert groups[0] in groups && forall g :: g in groups[1..] ==> g in groups;
      WordsOfJoin(groups[0], ' ');
      LinesHoldWords(groups[1..]);
      assert Lines(groups)[1..] == Lines(groups[1..]);
    }
  }

  lemma {:induction false} FlattenMembers(groups: seq<seq<string>>)
    ensures forall g, w :: g in groups && w in g ==> w in Flatten(groups)
  {
    if groups != [] {
      FlattenMembers(groups[1..]);
      assert forall g :: g in groups ==> g == groups[0] || g in groups[1..];
    }
  }

  /** Wrapping keeps the words in order, and every line fits or is one word. */
  lemma WrapKeepsWords(text: string, width: int)
    ensures WordsOf(Wrapped(text, width)) == Words(text)
    ensures forall l :: l in Wrapped(text, width) ==> |l| <= width || |Words(l)| == 1
  {
    var words := Words(text);
    var groups := Greedy(words, width);
    SplitYieldsWords(text, "");
    GreedyIsBreaking(words, width);
    FlattenMembers(groups);
    assert forall g, w :: g in groups && w in g ==> w in words;
    LinesHoldWords(groups);
    forall l | l in Wrapped(text, width)
      ensures |l| <= width || |Words(l)| == 1
    {
      var i :| 0 <= i < |groups| && Lines(groups)[i] == l;
      assert groups[i] in groups;
      if |groups[i]| == 1 {
        WordsOfJoin(groups[i], ' ');
      }
    }
  }

  /** No text whose words are these, each line fitting or a single word, is shorter. */
  lemma WrapIsOptimal(text: string, width: int, groups: seq<seq<string>>)
    requires IsBreaking(groups, Words(text), width)
    ensures |Wrapped(text, width)| <= |groups|
  {
    GreedyIsOptimal(Words(text), width, groups);
  }

  /** Wrapping what was wrapped changes nothing. */
  lemma WrapIsIdempotent(text: string, width: int)
    ensures Wrapped(Join(Wrapped(text, width), "\n"), width) == Wrapped(text, width)
  {
    WrapKeepsWords(text, width);
    WordsOfJoinedLines(Wrapped(text, width), '\n');
  }

  // ----- literal_block and overlong_lines -----------------------------------------

  function DropNewlines(s: string): (r: string)
    ensures |r| <= |s|
    ensures s != "" && s[0] == '\n' ==> |r| < |s|
  {
    if s != "" && s[0] == '\n' then DropNewlines(s[1..]) else s
  }

  /** `re.split(r"\n{2,}", value)`. */
  function Paragraphs(s: string, current: string): (r: seq<string>)
    ensures r != []
    decreases |s|
  {
    if s == "" then [current]
    else if |s| >= 2 && s[0] == '\n' && s[1] == '\n' then [current] + Paragraphs(DropNewlines(s), "")
    else Paragraphs(s[1..], current + [s[0]])
  }

  function Indented(lines: seq<string>, indent: nat): (r: seq<string>)
    ensures |r| == |lines| && forall i :: 0 <= i < |r| ==> r[i] == Repeat(' ', indent) + lines[i]
  {
    seq(|lines|, i requires 0 <= i < |lines| => Repeat(' ', indent) + lines[i])
  }

  function HeaderLine(keyIndent: nat): string {
    Repeat(' ', keyIndent) + KEY + ": |-"
  }

  function Body(paragraphs: seq<string>, contentIndent: nat): seq<string> {
    if paragraphs == [] then []
    else Indented(Wrapped(paragraphs[0], LIMIT - contentIndent), contentIndent)
         + if |paragraphs| == 1 then [] else [""] + Body(paragraphs[1..], contentIndent)
  }

  function LiteralBlock(value: string, keyIndent: nat): seq<string> {
    [HeaderLine(keyIndent)] + Body(Paragraphs(value, ""), keyIndent + 2)
  }

  /** What is still to be printed before paragraph `p`, its separating blank included. */
  function Rest(paragraphs: seq<string>, p: nat, contentIndent: nat): seq<string>
    requires p <= |paragraphs|
  {
    if p == |paragraphs| then []
    else (if p == 0 then [] else [""]) + Body(paragraphs[p..], contentIndent)
  }

  lemma RestStep(paragraphs: seq<string>, p: nat, contentIndent: nat)
    requires p < |paragraphs|
    ensures Rest(paragraphs, p, contentIndent)
         == (if p == 0 then [] else [""]) + (Indented(Wrapped(paragraphs[p], LIMIT - contentIndent), contentIndent)
                                             + Rest(paragraphs, p + 1, contentIndent))
  {
    assert paragraphs[p..][0] == paragraphs[p] && paragraphs[p..][1..] == paragraphs[p + 1..];
  }

  method BuildLiteralBlock(value: string, keyIndent: nat) returns (out: seq<string>)
    ensures out == LiteralBlock(value, keyIndent)
  {
    var contentIndent := keyIndent + 2;
    out := [HeaderLine(keyIndent)];
    var paragraphs := Paragraphs(value, "");
    assert paragraphs[0..] == paragraphs;
    ghost var whole := LiteralBlock(value, keyIndent);
    for p := 0 to |paragraphs|
      invariant whole == out + Rest(paragraphs, p, contentIndent)
    {
      RestStep(paragraphs, p, contentIndent);
      var wrapped := WrapParagraph(paragraphs[p], LIMIT - contentIndent);
      var indented := IndentLines(wrapped, contentIndent);
      ghost var later := indented + Rest(paragraphs, p + 1, contentIndent);
      if p > 0 {
        Regroup(out, [""], later);
        out := out + [""];
      }
      Regroup(out, indented, Rest(paragraphs, p + 1, contentIndent));
      out := out + indented;
    }
  }

  method IndentLines(lines: seq<string>, indent: nat) returns (out: seq<string>)
    ensures out == Indented(lines, indent)
  {
    out := [];
    for i := 0 to |lines|
      invariant out == Indented(lines, indent)[..i]
    {
      out := out + [Repeat(' ', indent) + lines[i]];
    }
  }

  predicate Overlong(line: string) {
    |line| > LIMIT && |Words(line)| > 1
  }

  /** `overlong_lines`: the numbers (from 1) and lengths of the offending lines. */
  method OverlongLines(lines: seq<string>, start: nat, end: nat) returns (bad: seq<(nat, nat)>)
    requires start <= end <= |lines|
    ensures forall n :: start <= n < end && Overlong(lines[n]) ==> (n + 1, |lines[n]|) in bad
    ensures forall b :: b in bad ==>
              start < b.0 <= end && b.1 == |lines[b.0 - 1]| && Overlong(lines[b.0 - 1])
    ensures bad == [] <==> forall n :: start <= n < end ==> !Overlong(lines[n])
  {
    bad := [];
    for n := start to end
      invariant forall k :: start <= k < n && Overlong(lines[k]) ==> (k + 1, |lines[k]|) in bad
      invariant forall b :: b in bad ==>
                  start < b.0 <= n && b.1 == |lines[b.0 - 1]| && Overlong(lines[b.0 - 1])
      invariant bad != [] ==> bad[0] in bad
    {
      if |lines[n]| > LIMIT && |Words(lines[n])| > 1 {
        bad := bad + [(n + 1, |lines[n]|)];
      }
    }
  }

  lemma {:induction false} BodyNeverOverlong(paragraphs: seq<string>, contentIndent: nat)
    ensures forall l :: l in Body(paragraphs, contentIndent) ==> !Overlong(l)
  {
    if paragraphs != [] {
      var wrapped := Wrapped(paragraphs[0], LIMIT - contentIndent);
      var indented := Indented(wrapped, contentIndent);
      WrapKeepsWords(paragraphs[0], LIMIT - contentIndent);
      forall i | 0 <= i < |indented|
        ensures !Overlong(indented[i])
      {
        assert wrapped[i] in wrapped;
        WordsOfIndented(contentIndent, wrapped[i]);
      }
      BodyNeverOverlong(paragraphs[1..], contentIndent);
    }
  }

  lemma HeaderLength(keyIndent: nat)
    ensures |HeaderLine(keyIndent)| == keyIndent + 15
  {
  }

  lemma TwoWords(a: string, b: string)
    requires IsWord(a) && IsWord(b)
    ensures Words(a + [' '] + b) == [a, b]
  {
    WordsAtSpace(a, ' ', b);
    WordsOfWord(a);
    WordsOfWord(b);
  }

  lemma HeaderWords(keyIndent: nat)
    ensures |Words(HeaderLine(keyIndent))| == 2
  {
    var key, mark := "description:", "|-";
    var text := key + [' '] + mark;
    assert HeaderLine(keyIndent) == Repeat(' ', keyIndent) + text;
    WordsOfIndented(keyIndent, text);
    TwoWords(key, mark);
  }

  /** A rewrapped description never folds, exactly for the key indents whose header line
      itself stays within the limit. */
  lemma LiteralBlockNeverFolds(value: string, keyIndent: nat)
    ensures (forall l :: l in LiteralBlock(value, keyIndent) ==> !Overlong(l)) <==> keyIndent + 15 <= LIMIT
  {
    HeaderLength(keyIndent);
    HeaderWords(keyIndent);
    BodyNeverOverlong(Paragraphs(value, ""), keyIndent + 2);
    assert LiteralBlock(value, keyIndent)[0] == HeaderLine(keyIndent);
    assert HeaderLine(keyIndent) in LiteralBlock(value, keyIndent);
  }

  lemma {:induction false} DropNewlinesKeepsWords(s: string)
    ensures Words(DropNewlines(s)) == Words(s)
  {
    if s != "" && s[0] == '\n' {
      DropNewlinesKeepsWords(s[1..]);
    }
  }

  lemma {:induction false} ParagraphsKeepWords(s: string, current: string)
    ensures WordsOf(Paragraphs(s, current)) == Words(current + s)
    decreases |s|
  {
    if s == "" {
      assert current + s == current;
      assert WordsOf([current]) == Words(current) + WordsOf([]);
    } else if |s| >= 2 && s[0] == '\n' && s[1] == '\n' {
      ParagraphsKeepWords(DropNewlines(s), "");
      assert "" + DropNewlines(s) == DropNewlines(s);
      DropNewlinesKeepsWords(s[1..]);
      assert DropNewlines(s) == DropNewlines(s[1..]);
      WordsAtSpace(current, '\n', s[1..]);
      assert current + s == current + ['\n'] + s[1..];
    } else {
      ParagraphsKeepWords(s[1..], current + [s[0]]);
      assert current + [s[0]] + s[1..] == current + s;
    }
  }

  lemma {:induction false} IndentedKeepsWords(lines: seq<string>, indent: nat)
    ensures WordsOf(Indented(lines, indent)) == WordsOf(lines)
  {
    if lines != [] {
      WordsOfIndented(indent, lines[0]);
      IndentedKeepsWords(lines[1..], indent);
      assert Indented(lines, indent)[1..] == Indented(lines[1..], indent);
    }
  }

  lemma BlankHoldsNoWords(before: seq<string>, rest: seq<string>)
    ensures WordsOf(before + ([""] + rest)) == WordsOf(before) + WordsOf(rest)
  {
    WordsOfConcat(before, [""] + rest);
    assert ([""] + rest)[1..] == rest && Words("") == [];
  }

  lemma {:induction false} BodyKeepsWords(paragraphs: seq<string>, contentIndent: nat)
    ensures WordsOf(Body(paragraphs, contentIndent)) == WordsOf(paragraphs)
  {
    if paragraphs != [] {
      var first := Indented(Wrapped(paragraphs[0], LIMIT - contentIndent), contentIndent);
      WrapKeepsWords(paragraphs[0], LIMIT - contentIndent);
      IndentedKeepsWords(Wrapped(paragraphs[0], LIMIT - contentIndent), contentIndent);
      BodyKeepsWords(paragraphs[1..], contentIndent);
      if |paragraphs| > 1 {
        BlankHoldsNoWords(first, Body(paragraphs[1..], contentIndent));
      } else {
        assert Body(paragraphs, contentIndent) == first && paragraphs[1..] == [];
      }
    }
  }

  /** Every word of the description is in the block, in order. */
  lemma LiteralBlockKeepsWords(value: string, keyIndent: nat)
    ensures WordsOf(LiteralBlock(value, keyIndent)[1..]) == Words(value)
  {
    BodyKeepsWords(Paragraphs(value, ""), keyIndent + 2);
    ParagraphsKeepWords(value, "");
    assert "" + value == value;
    assert LiteralBlock(value, keyIndent)[1..] == Body(Paragraphs(value, ""), keyIndent + 2);
  }
}
