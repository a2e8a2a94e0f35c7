/** Strings as Python's `str.split`, `str.join` and `str.strip` see them. */
module Text {

  /** The characters `str.isspace` accepts. */
  predicate IsSpace(c: char) {
    var n := c as int;
    9 <= n <= 13 || 28 <= n <= 32 || n == 0x85 || n == 0xa0 || n == 0x1680 || 0x2000 <= n <= 0x200a
    || n == 0x2028 || n == 0x2029 || n == 0x202f || n == 0x205f || n == 0x3000
  }

  predicate IsDigit(c: char) {
    '0' <= c <= '9'
  }

  predicate IsWord(w: string) {
    w != "" && forall i :: 0 <= i < |w| ==> !IsSpace(w[i])
  }

  function Split(s: string, word: string): seq<string>
    decreases |s|
  {
    var done := if word == "" then [] else [word];
    if s == "" then done
    else if IsSpace(s[0]) then done + Split(s[1..], "")
    else Split(s[1..], word + [s[0]])
  }

  /** `s.split()`. */
  function Words(s: string): seq<string> {
    Split(s, "")
  }

  function Join(parts: seq<string>, sep: string): string {
    if parts == [] then "" else if |parts| == 1 then parts[0] else parts[0] + sep + Join(parts[1..], sep)
  }

  lemma {:induction false} SplitYieldsWords(s: string, word: string)
    requires word == "" || IsWord(word)
    ensures forall w :: w in Split(s, word) ==> IsWord(w)
    decreases |s|
  {
    if s != "" {
      if IsSpace(s[0]) {
        SplitYieldsWords(s[1..], "");
      } else {
        SplitYieldsWords(s[1..], word + [s[0]]);
      }
    }
  }

  /** A white-space character separates whatever stands on either side of it. */
  lemma {:induction false} SplitAtSpace(a: string, c: char, b: string, word: string)
    requires IsSpace(c)
    ensures Split(a + [c] + b, word) == Split(a, word) + Words(b)
    decreases |a|
  {
    var s := a + [c] + b;
    if a == "" {
      assert s[0] == c && s[1..] == b;
    } else {
      assert s[0] == a[0] && s[1..] == a[1..] + [c] + b;
      if IsSpace(a[0]) {
        SplitAtSpace(a[1..], c, b, "");
      } else {
        SplitAtSpace(a[1..], c, b, word + [a[0]]);
      }
    }
  }

  lemma WordsAtSpace(a: string, c: char, b: string)
    requires IsSpace(c)
    ensures Words(a + [c] + b) == Words(a) + Words(b)
  {
    SplitAtSpace(a, c, b, "");
  }

  lemma {:induction false} SplitWord(w: string, word: string)
    requires forall i :: 0 <= i < |w| ==> !IsSpace(w[i])
    ensures Split(w, word) == if word + w == "" then [] else [word + w]
    decreases |w|
  {
    if w == "" {
      assert word + w == word;
    } else {
      SplitWord(w[1..], word + [w[0]]);
      assert word + [w[0]] + w[1..] == word + w;
    }
  }

  lemma WordsOfWord(w: string)
    requires IsWord(w)
    ensures Words(w) == [w]
  {
    SplitWord(w, "");
    assert "" + w == w;
  }

  /** Joining words with one white-space character is undone by splitting. */
  lemma {:induction false} WordsOfJoin(words: seq<string>, c: char)
    requires IsSpace(c) && forall w :: w in words ==> IsWord(w)
    ensures Words(Join(words, [c])) == words
  {
    if words != [] {
      WordsOfWord(words[0]);
      if |words| > 1 {
        WordsAtSpace(words[0], c, Join(words[1..], [c]));
        WordsOfJoin(words[1..], c);
      }
    }
  }

  lemma {:induction false} JoinLength(parts: seq<string>, last: string, sep: string)
    ensures Join(parts + [last], sep) == if parts == [] then last else Join(parts, sep) + sep + last
  {
    if |parts| > 1 {
      assert (parts + [last])[1..] == parts[1..] + [last];
      JoinLength(parts[1..], last, sep);
      assert parts[0] + sep + (Join(parts[1..], sep) + sep + last) == parts[0] + sep + Join(parts[1..], sep) + sep + last;
    } else if |parts| == 1 {
      assert (parts + [last])[1..] == [last];
    }
  }

  /** All the words of several lines. */
  function WordsOf(lines: seq<string>): seq<string> {
    if lines == [] then [] else Words(lines[0]) + WordsOf(lines[1..])
  }

  lemma {:induction false} WordsOfConcat(a: seq<string>, b: seq<string>)
    ensures WordsOf(a + b) == WordsOf(a) + WordsOf(b)
  {
    if a == [] {
      assert a + b == b;
    } else {
      assert (a + b)[1..] == a[1..] + b;
      WordsOfConcat(a[1..], b);
    }
  }

  lemma {:induction false} WordsOfJoinedLines(lines: seq<string>, c: char)
    requires IsSpace(c)
    ensures Words(Join(lines, [c])) == WordsOf(lines)
  {
    if |lines| == 1 {
      assert lines[1..] == [];
      assert WordsOf(lines) == Words(lines[0]) + [];
    } else if |lines| > 1 {
      WordsAtSpace(lines[0], c, Join(lines[1..], [c]));
      WordsOfJoinedLines(lines[1..], c);
    }
  }

  function Repeat(c: char, n: nat): (r: string)
    ensures |r| == n && forall i :: 0 <= i < n ==> r[i] == c
  {
    seq(n, _ => c)
  }

  lemma {:induction false} WordsOfIndented(n: nat, line: string)
    ensures Words(Repeat(' ', n) + line) == Words(line)
  {
    var s := Repeat(' ', n) + line;
    if n == 0 {
      assert s == line;
    } else {
      assert s[0] == ' ' && s[1..] == Repeat(' ', n - 1) + line;
      WordsOfIndented(n - 1, line);
    }
  }
}
