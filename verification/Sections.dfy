/** xfstests configuration text: `parse_sections`, `section_vars` and `section_block` of
    f/fstests/common.py, three independent readers of one format. */
module Sections {
  import opened Wrappers
  import opened Text
  import opened Lines
  import opened Readers

  type Vars = map<string, string>

  /** The position of the first `c`, the length when there is none. */
  function IndexOf(s: string, c: char): (i: nat)
    ensures i <= |s| && (i < |s| ==> s[i] == c)
    ensures forall k :: 0 <= k < i ==> s[k] != c
  {
    if s == "" || s[0] == c then 0 else 1 + IndexOf(s[1..], c)
  }

  /** `^\[([^\]]+)\]` on a stripped line: the section it opens, its name stripped. */
  function HeaderOf(line: string): Option<string> {
    if line == "" || line[0] != '[' then None else
    var close := IndexOf(line, ']');
    if close < |line| && close >= 2 then Some(Strip(line[1..close])) else None
  }

  function StripQuotes(value: string): string {
    var v := Strip(value);
    if |v| >= 2 && v[0] == v[|v| - 1] && (v[0] == '\'' || v[0] == '"') then v[1..|v| - 1] else v
  }

  /** `KEY=value` on a stripped line that is neither blank nor a comment nor a header. */
  function AssignmentOf(line: string): Option<(string, string)> {
    if line == "" || line[0] == '#' || HeaderOf(line).Some? then None else
    var eq := IndexOf(line, '=');
    if eq == |line| || Strip(line[..eq]) == "" then None
    else Some((Strip(line[..eq]), StripQuotes(line[eq + 1..])))
  }

  type LineKind = Kind<string, string>

  function KindOfStripped(line: string): LineKind {
    match HeaderOf(line)
    case Some(name) => Opens(name, name != "")
    case None =>
      match AssignmentOf(line)
      case Some((key, value)) => Assigns(key, value)
      case None => Neither
  }

  function KindOf(raw: string): LineKind {
    KindOfStripped(Strip(raw))
  }

  function Kinds(lines: seq<string>): (r: seq<LineKind>)
    ensures |r| == |lines| && forall i :: 0 <= i < |r| ==> r[i] == KindOf(lines[i])
  {
    KindsBy(KindOf, lines)
  }

  lemma KindsTake(lines: seq<string>, n: nat)
    requires n < |lines|
    ensures Kinds(lines[..n + 1])[..n] == Kinds(lines[..n])
  {
  }

  // ----- parse_sections -----------------------------------------------------------

  function ParseSections(text: string): seq<string> {
    NamesOf(Kinds(SplitLines(text)))
  }

  method CollectSections(text: string) returns (seen: seq<string>)
    ensures seen == ParseSections(text)
  {
    seen := [];
    var lines := SplitLines(text);
    for i := 0 to |lines|
      invariant seen == NamesOf(Kinds(lines[..i]))
    {
      KindsTake(lines, i);
      var name := HeaderOf(Strip(lines[i]));
      if name.Some? && name.value != "" && name.value !in seen {
        seen := seen + [name.value];
      }
    }
    assert lines[..|lines|] == lines;
  }

  // ----- section_vars -------------------------------------------------------------

  function SectionVars(text: string, section: string): Vars {
    VarsOf(Kinds(SplitLines(text)), section)
  }

  lemma ReadOneLine(r: Reading<string, string>, lines: seq<string>, i: nat, section: string, has: bool)
    requires i < |lines|
    ensures ReadAll(r, Kinds(lines)[i..], section, has)
         == ReadAll(ReadOne(r, KindOf(lines[i]), section, has), Kinds(lines)[i + 1..], section, has)
  {
    assert Kinds(lines)[i..][0] == KindOf(lines[i]) && Kinds(lines)[i..][1..] == Kinds(lines)[i + 1..];
  }

  method CollectVars(text: string, section: string) returns (out: Vars)
    ensures out == SectionVars(text, section)
  {
    var names := CollectSections(text);
    var hasSections := names != [];
    out := map[];
    var current: Option<string> := None;
    var lines := SplitLines(text);
    for i := 0 to |lines|
      invariant ReadAll(Reading(current, out), Kinds(lines)[i..], section, hasSections).vars == SectionVars(text, section)
    {
      ReadOneLine(Reading(current, out), lines, i, section, hasSections);
      var line := Strip(lines[i]);
      var header := HeaderOf(line);
      if header.Some? {
        current := header;
      } else {
        var assignment := AssignmentOf(line);
        if assignment.Some? && ((!hasSections && current.None?) || current == Some(section)) {
          out := out[assignment.value.0 := assignment.value.1];
        }
      }
    }
  }

  // ----- section_block ------------------------------------------------------------

  function BlockLines(lines: seq<string>, section: string): seq<string> {
    BlockOf(KindOf, lines, section)
  }

  function SectionBlock(text: string, section: string): string {
    var block := BlockLines(SplitLines(text), section);
    if block == [] then "" else RStrip(Join(block, "\n")) + "\n"
  }

  method CutBlock(text: string, section: string) returns (block: string)
    ensures block == SectionBlock(text, section)
  {
    var out := CutLines(KindOf, SplitLines(text), section);
    block := if out == [] then "" else RStrip(Join(out, "\n")) + "\n";
  }

  // ----- the block refines the file -----------------------------------------------

  lemma BlankIsNeither(line: string)
    requires Blank(line)
    ensures KindOf(line) == Neither
  {
  }

  /** The lines `rstrip` removes or shortens read as they did. */
  lemma {:induction false} TrimmedReads(r: Reading<string, string>, lines: seq<string>, section: string, has: bool)
    ensures ReadAll(r, Kinds(TrimEnd(lines)), section, has) == ReadAll(r, Kinds(lines), section, has)
  {
    if lines != [] {
      var init, last := lines[..|lines| - 1], lines[|lines| - 1];
      assert Kinds(lines) == Kinds(init) + [KindOf(last)];
      if Blank(last) {
        BlankIsNeither(last);
        ReadConcat(r, Kinds(init), [KindOf(last)], section, has);
        ReadSingle(ReadAll(r, Kinds(init), section, has), KindOf(last), section, has);
        TrimmedReads(r, init, section, has);
      } else {
        assert Strip(RStrip(last)) == Strip(last);
        assert Kinds(init + [RStrip(last)]) == Kinds(lines);
      }
    }
  }

  lemma {:induction false} TrimmedStart(lines: seq<string>)
    requires lines != [] && KindOf(lines[0]) != Neither
    ensures TrimEnd(lines) != [] && KindOf(TrimEnd(lines)[0]) == KindOf(lines[0])
  {
    var last := lines[|lines| - 1];
    if Blank(last) {
      BlankIsNeither(last);
      TrimmedStart(lines[..|lines| - 1]);
    } else {
      assert Strip(RStrip(last)) == Strip(last);
    }
  }

  lemma {:induction false} TrimmedOneLine(lines: seq<string>)
    requires forall i :: 0 <= i < |lines| ==> OneLine(lines[i])
    ensures forall i :: 0 <= i < |TrimEnd(lines)| ==> OneLine(TrimEnd(lines)[i])
  {
    if lines != [] {
      TrimmedOneLine(lines[..|lines| - 1]);
      assert OneLine(RStrip(lines[|lines| - 1]));
    }
  }

  lemma BlockTextSplits(block: seq<string>)
    requires block != [] && KindOf(block[0]) != Neither
    requires forall i :: 0 <= i < |block| ==> OneLine(block[i])
    ensures SplitLines(RStrip(Join(block, "\n")) + "\n") == TrimEnd(block)
  {
    RStripOfJoin(block);
    TrimmedOneLine(block);
    TrimmedStart(block);
    SplitJoined(TrimEnd(block));
  }

  /** Trailing white space trimmed or not, a block that starts with its header holds the same
      variables. */
  lemma TrimmedVars(block: seq<string>, section: string)
    requires block != [] && OpensSection(KindOf(block[0]), section) && section != ""
    ensures VarsOf(Kinds(TrimEnd(block)), section) == VarsOf(Kinds(block), section)
  {
    TrimmedStart(block);
    TrimmedReads(Reading(None, map[]), block, section, true);
    NamedStart(block, section);
    NamedStart(TrimEnd(block), section);
  }

  lemma NamedStart(block: seq<string>, section: string)
    requires block != [] && OpensSection(KindOf(block[0]), section) && section != ""
    ensures |NamesOf(Kinds(block))| > 0
  {
    KindNamed(block[0], section);
    NamedOnce(Kinds(block), section, 0);
  }

  lemma KindNamed(line: string, section: string)
    requires OpensSection(KindOf(line), section) && section != ""
    ensures KindOf(line) == Opens(section, true)
  {
  }

  /** What the cut-out piece of an opened section holds. */
  lemma BlockVars(text: string, section: string)
    requires section != "" && Opened(text, section)
    ensures var kinds := Kinds(SplitLines(text));
            && kinds[FirstHeader(kinds, section)].named
            && SectionVars(SectionBlock(text, section), section) == VarsOf(FirstBlock(kinds, section), section)
  {
    var lines := SplitLines(text);
    var block := BlockOfFirst(KindOf, lines, section);
    SplitYieldsLines(text, "");
    BlockTextSplits(block);
    TrimmedVars(block, section);
    KindNamed(lines[FirstHeader(Kinds(lines), section)], section);
  }

  predicate Opened(text: string, section: string) {
    FirstHeader(Kinds(SplitLines(text)), section) < |SplitLines(text)|
  }

  /** What the lines after the section's first block assign to it. */
  function AssignedLater(text: string, section: string): Vars
    requires Opened(text, section)
  {
    LaterVars(Kinds(SplitLines(text)), section)
  }

  /** Cutting out a section, and reading the variables of the piece, gives what reading the
      whole file gives exactly when the piece has all that the file assigns to the section
      later. A section the file never opens has variables only in a file without sections. */
  lemma BlockRefinesExactly(text: string, section: string)
    requires section != ""
    ensures SectionVars(SectionBlock(text, section), section) == SectionVars(text, section) <==>
              if Opened(text, section)
              then Covers(SectionVars(SectionBlock(text, section), section), AssignedLater(text, section))
              else ParseSections(text) != [] || !AssignsFirst(Kinds(SplitLines(text)))
  {
    var kinds := Kinds(SplitLines(text));
    if Opened(text, section) {
      BlockVars(text, section);
      Readers.BlockRefinesExactly(kinds, section);
    } else {
      UnopenedVars(kinds, section);
      assert SplitLines("") == [] && SectionVars("", section) == map[];
    }
  }

  /** So a header that occurs once is enough. */
  lemma BlockRefinesFile(text: string, section: string, at: nat)
    requires section != "" && HeaderOnce(Kinds(SplitLines(text)), section, at)
    ensures SectionVars(SectionBlock(text, section), section) == SectionVars(text, section)
  {
    NothingLater(Kinds(SplitLines(text)), section, at);
    BlockRefinesExactly(text, section);
  }

  /** With the header twice the two readings of a text part: the file's variables come from
      both blocks, the cut-out piece is the first alone. */
  lemma DuplicateHeaderDiffers(name: string, key: string, value: string)
    requires GoodName(name) && GoodKey(key) && GoodValue(value)
    ensures var text := Join(["[" + name + "]", "[" + name + "]", key + "=" + value], "\n") + "\n";
            && SectionVars(text, name) == map[key := StripQuotes(value)]
            && SectionVars(SectionBlock(text, name), name) == map[]
  {
    var head, line := "[" + name + "]", key + "=" + value;
    HeaderReads(name);
    AssignmentReads(key, value);
    TwiceInText(head, line, name, key, StripQuotes(value));
  }

  lemma TwiceInText(head: string, line: string, section: string, key: string, value: string)
    requires section != "" && OneLine(head) && OneLine(line)
    requires KindOf(head) == Opens(section, true) && KindOf(line) == Assigns(key, value)
    ensures var text := Join([head, head, line], "\n") + "\n";
            SectionVars(text, section) == map[key := value] && SectionVars(SectionBlock(text, section), section) == map[]
  {
    var lines := [head, head, line];
    var text := Join(lines, "\n") + "\n";
    SplitJoined(lines);
    assert Kinds(lines) == [KindOf(head), KindOf(head), KindOf(line)];
    TwiceOpened(section, key, value);
    BlockVars(text, section);
    assert FirstBlock(Kinds(lines), section) == [KindOf(head)];
  }

  // ----- lines written in the plain form ------------------------------------------

  /** A name a header can carry. */
  predicate GoodName(name: string) {
    name != "" && Trimmed(name) && OneLine(name) && ']' !in name
  }

  lemma HeaderReads(name: string)
    requires GoodName(name)
    ensures KindOf("[" + name + "]") == Opens(name, true) && OneLine("[" + name + "]")
  {
    var line := "[" + name + "]";
    StripTrimmed(line);
    StripTrimmed(name);
    assert line[|name| + 1] == ']' && forall i :: 1 <= i <= |name| ==> line[i] == name[i - 1];
    assert IndexOf(line, ']') == |name| + 1;
    assert line[1..|name| + 1] == name;
  }

  predicate GoodKey(key: string) {
    key != "" && Trimmed(key) && OneLine(key) && '=' !in key && key[0] != '[' && key[0] != '#'
  }

  predicate GoodValue(value: string) {
    OneLine(value) && (value == "" || !IsSpace(value[|value| - 1]))
  }

  lemma KeySplits(key: string, value: string)
    requires '=' !in key
    ensures var line := key + "=" + value;
            IndexOf(line, '=') == |key| && line[..|key|] == key && line[|key| + 1..] == value
  {
    var line := key + "=" + value;
    assert line[|key|] == '=' && forall i :: 0 <= i < |key| ==> line[i] == key[i];
    assert IndexOf(line, '=') == |key|;
  }

  lemma AssignmentReads(key: string, value: string)
    requires GoodKey(key) && GoodValue(value)
    ensures KindOf(key + "=" + value) == Assigns(key, StripQuotes(value)) && OneLine(key + "=" + value)
  {
    var line := key + "=" + value;
    assert line[0] == key[0];
    StripTrimmed(line);
    StripTrimmed(key);
    KeySplits(key, value);
  }
}
