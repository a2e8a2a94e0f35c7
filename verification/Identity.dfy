/** Baking a build identity into CONFIG_LOCALVERSION: `_fit_label`, `_fit_head` and the
    rewriting of `bake_identity` in f/kernel/identity.py, with `_split_trailing_version` of
    f/common/worktree.py. The digest itself is an input. */
module Identity {
  import opened Text
  import opened Seqs
  import opened Lines

  /** How many digits the text ends with. */
  function TrailingDigits(s: string): (n: nat)
    ensures n <= |s| && (forall i :: |s| - n <= i < |s| ==> IsDigit(s[i]))
    ensures n < |s| ==> !IsDigit(s[|s| - n - 1])
  {
    if s != "" && IsDigit(s[|s| - 1]) then 1 + TrailingDigits(s[..|s| - 1]) else 0
  }

  /** The length of a trailing `-v<N>`, 0 when there is none. */
  function VersionLength(s: string): (n: nat)
    ensures n <= |s|
  {
    var d := TrailingDigits(s);
    if d > 0 && |s| >= d + 2 && s[|s| - d - 2] == '-' && s[|s| - d - 1] == 'v' then d + 2 else 0
  }

  /** `_split_trailing_version`. */
  function SplitVersion(slug: string): (string, string) {
    (slug[..|slug| - VersionLength(slug)], slug[|slug| - VersionLength(slug)..])
  }

  predicate IsSeparator(c: char) { c == '-' || c == '.' || c == '_' }

  function StripSeparators(s: string): (r: string)
    ensures |r| <= |s| && r == s[..|r|]
    ensures r != "" ==> !IsSeparator(r[|r| - 1])
    ensures forall i :: |r| <= i < |s| ==> IsSeparator(s[i])
  {
    if s != "" && IsSeparator(s[|s| - 1]) then StripSeparators(s[..|s| - 1]) else s
  }

  /** The text before its last dash, the whole text without one. */
  function BeforeLastDash(s: string, whole: string): (r: string)
    ensures |r| <= |s| || r == whole
    ensures r == whole || r == s[..|r|]
  {
    if s == "" then whole
    else if s[|s| - 1] == '-' then s[..|s| - 1]
    else BeforeLastDash(s[..|s| - 1], whole)
  }

  function FitHead(text: string, budget: int): (r: string)
    ensures budget > 0 ==> |r| <= budget
    ensures budget <= 0 ==> r == ""
    ensures |text| <= budget ==> r == text
  {
    if budget <= 0 then ""
    else if |text| <= budget then text
    else var cut := text[..budget]; StripSeparators(BeforeLastDash(cut, cut))
  }

  function FitLabel(tag: string, budget: int): string {
    if budget <= 0 then ""
    else
      var (head, suffix) := SplitVersion(tag);
      if suffix == "" then FitHead(tag, budget)
      else
        var fitted := FitHead(head, budget - |suffix|);
        if fitted != "" then fitted + suffix else suffix[1..]
  }

  predicate NoDash(s: string) {
    forall i :: 0 <= i < |s| ==> s[i] != '-'
  }

  lemma {:induction false} LastDash(s: string, whole: string)
    ensures NoDash(s) ==> BeforeLastDash(s, whole) == whole
    ensures !NoDash(s) ==>
              var r := BeforeLastDash(s, whole);
              |r| < |s| && r == s[..|r|] && s[|r|] == '-' && NoDash(s[|r| + 1..])
  {
    if s != "" && s[|s| - 1] != '-' {
      var n := |s| - 1;
      LastDash(s[..n], whole);
      assert NoDash(s) <==> NoDash(s[..n]) by {
        assert forall i :: 0 <= i < n ==> s[..n][i] == s[i];
      }
    }
  }

  /** `d` is the last dash within the budget, or the budget when there is none. */
  predicate IsCut(text: string, budget: int, d: int)
    requires 0 < budget < |text|
  {
    var cut := text[..budget];
    if NoDash(cut) then d == budget else 0 <= d < budget && text[d] == '-' && NoDash(cut[d + 1..])
  }

  /** A shortened head is the text up to that cut, without the separators that would end it. */
  lemma FitHeadCutsAtDash(text: string, budget: int) returns (d: int)
    requires 0 < budget < |text|
    ensures IsCut(text, budget, d)
    ensures var r := FitHead(text, budget);
            |r| <= d && r == text[..|r|] && forall i :: |r| <= i < d ==> IsSeparator(text[i])
  {
    var cut := text[..budget];
    LastDash(cut, cut);
    var kept := BeforeLastDash(cut, cut);
    d := |kept|;
    assert kept == text[..d];
    assert forall i :: 0 <= i < d ==> kept[i] == text[i];
    assert StripSeparators(kept) == FitHead(text, budget);
  }

  /** A fitted label is its revision behind a prefix of the rest, or the bare revision. */
  lemma FitLabelShape(tag: string, budget: int) returns (n: nat)
    requires budget > 0
    ensures n <= |SplitVersion(tag).0|
    ensures FitLabel(tag, budget) == SplitVersion(tag).0[..n] + SplitVersion(tag).1
         || (SplitVersion(tag).1 != "" && FitLabel(tag, budget) == SplitVersion(tag).1[1..])
  {
    hide FitHead, VersionLength;
    var head, suffix := SplitVersion(tag).0, SplitVersion(tag).1;
    if suffix == "" {
      n := |FitHead(tag, budget)|;
      FitHeadIsPrefix(tag, budget);
      assert head == tag && tag[..n] + "" == tag[..n];
    } else {
      n := |FitHead(head, budget - |suffix|)|;
      FitHeadIsPrefix(head, budget - |suffix|);
    }
  }

  lemma FitHeadIsPrefix(text: string, budget: int)
    ensures |FitHead(text, budget)| <= |text| && FitHead(text, budget) == text[..|FitHead(text, budget)|]
  {
    if 0 < budget < |text| {
      var d := FitHeadCutsAtDash(text, budget);
    }
  }

  /** A label outgrows its budget exactly when its revision alone does, and then it is that
      revision. */
  lemma FitLabelBound(tag: string, budget: int)
    requires budget > 0
    ensures var (head, suffix) := SplitVersion(tag); var r := FitLabel(tag, budget);
            && (|r| <= budget || |r| == |suffix| - 1)
            && (|r| > budget <==> suffix != "" && |suffix| - 1 > budget)
            && (|r| > budget ==> r == suffix[1..])
  {
  }

  /** A revision survives whatever the budget. */
  lemma FitLabelKeepsRevision(tag: string, budget: int)
    requires budget > 0 && SplitVersion(tag).1 != ""
    ensures var revision := SplitVersion(tag).1[1..]; var r := FitLabel(tag, budget);
            |revision| >= 2 && |r| >= |revision| && r[|r| - |revision|..] == revision
  {
    hide FitHead;
    var (head, suffix) := SplitVersion(tag);
    var fitted := FitHead(head, budget - |suffix|);
    if fitted != "" {
      DropFront(fitted, suffix, 1);
      assert |fitted + suffix| - |suffix[1..]| == |fitted| + 1;
    }
  }

  /** Fitting leaves a label alone exactly when it fits and is more than a bare `-vN`, or is
      empty. */
  lemma FitLabelFitting(tag: string, budget: int)
    ensures FitLabel(tag, budget) == tag <==> tag == "" || (|tag| <= budget && VersionLength(tag) < |tag|)
  {
    var head, suffix := SplitVersion(tag).0, SplitVersion(tag).1;
    assert tag == head + suffix;
    if budget > 0 && suffix != "" {
      var fitted := FitHead(head, budget - |suffix|);
      if fitted == "" {
        assert |FitLabel(tag, budget)| < |tag|;
      } else {
        assert |fitted + suffix| == |fitted| + |suffix|;
        FitHeadIsPrefix(head, budget - |suffix|);
      }
    }
  }

  /** Fitting a fitted label again need not leave it alone: a revision that outgrows the
      budget loses its end, and a cut can leave a bare `-vN`, which loses its dash. */
  lemma RefitChanges()
    ensures FitLabel("a-v123", 2) == "v123" && FitLabel("v123", 2) != "v123"
    ensures FitLabel("-v3-xyz", 5) == "-v3" && FitLabel("-v3", 5) != "-v3"
  {
    OutgrownRevision("a-v123");
    assert !IsDigit("v123"[0]) && TrailingDigits("v123") == 3 && VersionLength("v123") == 0;
    FitLabelFitting("v123", 2);
    CutToRevision("-v3-xyz");
    FitLabelFitting("-v3", 5);
  }

  lemma OutgrownRevision(tag: string)
    requires tag == "a-v123"
    ensures FitLabel(tag, 2) == "v123"
  {
    assert TrailingDigits("a-v") == 0 && TrailingDigits("a-v1") == 1 && TrailingDigits("a-v12") == 2;
    assert tag[..5] == "a-v12" && "a-v12"[..4] == "a-v1" && "a-v1"[..3] == "a-v";
    assert VersionLength(tag) == 5 && tag[1..] == "-v123" && "-v123"[1..] == "v123";
  }

  lemma CutToRevision(tag: string)
    requires tag == "-v3-xyz"
    ensures FitLabel(tag, 5) == "-v3" && VersionLength("-v3") == 3
  {
    assert !IsDigit(tag[6]) && VersionLength(tag) == 0;
    assert tag[..7] == tag && tag[7..] == "";
    assert tag[..5] == "-v3-x" && "-v3-x"[..4] == "-v3-" && "-v3-"[..3] == "-v3";
    assert BeforeLastDash("-v3-x", "-v3-x") == BeforeLastDash("-v3-", "-v3-x") == "-v3";
    assert StripSeparators("-v3") == "-v3";
    assert "-v3"[..2] == "-v" && TrailingDigits("-v") == 0 && TrailingDigits("-v3") == 1;
  }

  /** A label never ends on a separator unless it came with one. */
  lemma FitLabelEnd(tag: string, budget: int)
    requires tag != "" ==> !IsSeparator(tag[|tag| - 1])
    ensures var r := FitLabel(tag, budget); r != "" ==> !IsSeparator(r[|r| - 1])
  {
    var (head, suffix) := SplitVersion(tag);
    if suffix != "" {
      assert suffix[|suffix| - 1] == tag[|tag| - 1];
    }
  }

  // ----- the release --------------------------------------------------------------

  predicate IsHex(c: char) { IsDigit(c) || 'a' <= c <= 'f' }

  predicate IsDigest(s: string) {
    |s| == 12 && forall i :: 0 <= i < 12 ==> IsHex(s[i])
  }

  /** `re.sub(r"-[0-9a-f]{12}$", "", s)`. */
  function DropDigest(s: string): string {
    if |s| >= 13 && s[|s| - 13] == '-' && IsDigest(s[|s| - 12..]) then s[..|s| - 13] else s
  }

  predicate EndsWith(s: string, tail: string) {
    |s| >= |tail| && s[|s| - |tail|..] == tail
  }

  /** `prior` without the label it ends with. */
  function StripLabel(prior: string, tag: string): (r: string)
    ensures |r| <= |prior| && r == prior[..|r|]
  {
    if tag != "" && EndsWith(prior, "-" + tag) then prior[..|prior| - |tag| - 1] else prior
  }

  function Prior(existing: string, tag: string): string {
    StripLabel(DropDigest(existing), tag)
  }

  function LocalVersion(existing: string, tag: string, digest: string): string {
    Signed(Prior(existing, tag), tag, digest)
  }

  function Signed(prior: string, tag: string, digest: string): string {
    if tag != "" then prior + "-" + tag + "-" + digest else prior + "-" + digest
  }

  function Budget(version: string): int {
    64 - |version| - 14
  }

  /** With no prior suffix, the release fits the kernel's 64 characters exactly when the
      revision fits the budget, or, with no budget left, the bare digest does. */
  lemma ReleaseFitsExactly(version: string, tag: string, digest: string)
    requires IsDigest(digest)
    ensures var fitted := FitLabel(tag, Budget(version));
            var suffix := SplitVersion(tag).1;
            |version + LocalVersion("", fitted, digest)| <= 64 <==>
              if Budget(version) > 0 then suffix == "" || |suffix| - 1 <= Budget(version) else |version| <= 51
  {
    if Budget(version) > 0 {
      FitLabelBound(tag, Budget(version));
    }
  }

  lemma DigestDrops(body: string, digest: string)
    requires IsDigest(digest)
    ensures DropDigest(body + "-" + digest) == body
  {
    var v := body + "-" + digest;
    assert v[|v| - 12..] == digest && v[|v| - 13] == '-' && v[..|v| - 13] == body;
  }

  /** What a bake leaves before its digest. */
  function Labelled(existing: string, tag: string): string {
    if tag != "" then Prior(existing, tag) + "-" + tag else Prior(existing, tag)
  }

  lemma LabelStrips(prior: string, tag: string)
    requires tag != ""
    ensures EndsWith(prior + "-" + tag, "-" + tag) && StripLabel(prior + "-" + tag, tag) == prior
  {
    var body := prior + "-" + tag;
    assert body == prior + ("-" + tag) && |body| - |"-" + tag| == |prior|;
  }

  /** Baking the same label and digest again strips exactly what the first bake added. */
  lemma PriorOfBaked(existing: string, tag: string, digest: string)
    requires IsDigest(digest)
    ensures Prior(LocalVersion(existing, tag, digest), tag) == Prior(existing, tag)
  {
    DigestDrops(Labelled(existing, tag), digest);
    if tag != "" {
      LabelStrips(Prior(existing, tag), tag);
    }
  }

  lemma LabelBack(prior: string, tag: string)
    requires EndsWith(prior, "-" + tag) && tag != ""
    ensures StripLabel(prior, tag) + "-" + tag == prior
  {
    var n := |prior| - |tag| - 1;
    assert |"-" + tag| == |tag| + 1;
    assert prior == prior[..n] + prior[n..] == prior[..n] + ("-" + tag);
  }

  lemma LastLabel(prior: string, a: string, b: string)
    requires |a| == |b| && b != "" && EndsWith(prior + "-" + a, "-" + b)
    ensures a == b
  {
    var body := prior + "-" + a;
    assert |"-" + b| == |b| + 1 && body[|prior| + 1..] == a;
    assert body[|body| - |b| - 1..] == "-" + b && ("-" + b)[1..] == b;
    assert body[|body| - |b| - 1..][1..] == a;
  }

  /** Stripping label `tag` where `old_` was appended. */
  lemma StripOther(prior: string, old_: string, tag: string)
    requires old_ != "" && old_ != tag && !EndsWith(prior, "-" + old_)
    ensures StripLabel(prior + "-" + old_, tag) != StripLabel(prior, tag)
  {
    var body := prior + "-" + old_;
    assert |body| == |prior| + 1 + |old_|;
    if tag != "" && EndsWith(body, "-" + tag) && |old_| == |tag| {
      LastLabel(prior, old_, tag);
    }
  }

  /** Baking another label replaces the earlier one exactly when there was none, it is the
      same one, or the setting ended with it before the earlier bake: only the label being
      baked is recognised as part of a prior identity. */
  lemma RelabelReplacesExactly(existing: string, old_: string, tag: string, digest: string, digest': string)
    requires IsDigest(digest) && IsDigest(digest')
    ensures LocalVersion(LocalVersion(existing, old_, digest), tag, digest') == LocalVersion(existing, tag, digest')
       <==> old_ == "" || old_ == tag || EndsWith(DropDigest(existing), "-" + old_)
  {
    var before, after := Prior(existing, tag), Prior(LocalVersion(existing, old_, digest), tag);
    DigestDrops(Labelled(existing, old_), digest);
    assert after == StripLabel(Labelled(existing, old_), tag);
    if old_ != "" {
      var prior := DropDigest(existing);
      if EndsWith(prior, "-" + old_) {
        LabelBack(prior, old_);
      } else if old_ == tag {
        LabelStrips(prior, tag);
      } else {
        StripOther(prior, old_, tag);
      }
    }
    SamePrior(before, after, tag, digest');
  }

  /** A bake keeps the setting's text in front of the label and the digest exactly when it ends
      neither in a digest nor in the label. */
  lemma BakeKeepsTextExactly(existing: string, tag: string, digest: string)
    ensures LocalVersion(existing, tag, digest) == existing + (if tag != "" then "-" + tag else "") + "-" + digest <==>
              !HasDigest(existing) && !(tag != "" && EndsWith(existing, "-" + tag))
  {
    var prior := Prior(existing, tag);
    SamePrior(prior, existing, tag, digest);
    if tag != "" {
      assert existing + ("-" + tag) + "-" + digest == existing + "-" + tag + "-" + digest;
    } else {
      assert existing + "" + "-" + digest == existing + "-" + digest;
    }
  }

  /** A dash and twelve lower-case hexadecimal digits at the end. */
  predicate HasDigest(s: string) {
    && |s| >= 13 && s[|s| - 13] == '-'
    && forall i :: |s| - 12 <= i < |s| ==> '0' <= s[i] <= '9' || 'a' <= s[i] <= 'f'
  }

  lemma SamePrior(a: string, b: string, tag: string, digest: string)
    ensures Signed(a, tag, digest) == Signed(b, tag, digest) <==> a == b
  {
    var tail := if tag != "" then "-" + tag + "-" + digest else "-" + digest;
    assert Signed(a, tag, digest) == a + tail && Signed(b, tag, digest) == b + tail;
    if a + tail == b + tail {
      assert |a| == |b| && (a + tail)[..|a|] == a && (b + tail)[..|b|] == b;
    }
  }

  /** Otherwise the earlier label stays in front of the new one, at the latest when nothing
      was set before. */
  lemma RelabelKeepsOldLabel(old_: string, tag: string, digest: string, digest': string)
    requires IsDigest(digest) && IsDigest(digest') && old_ != "" && tag != ""
    requires !EndsWith("-" + old_, "-" + tag)
    ensures LocalVersion(LocalVersion("", old_, digest), tag, digest') == "-" + old_ + "-" + tag + "-" + digest'
  {
    assert DropDigest("") == "" && Labelled("", old_) == "-" + old_;
    DigestDrops(Labelled("", old_), digest);
  }

  // ----- the .config --------------------------------------------------------------

  const PREFIX := "CONFIG_LOCALVERSION="

  function StripQuoteMarks(s: string): (r: string)
    ensures |r| <= |s|
    ensures r != "" ==> r[0] != '"' && r[|r| - 1] != '"'
    decreases |s|
  {
    if s != "" && s[0] == '"' then StripQuoteMarks(s[1..])
    else if s != "" && s[|s| - 1] == '"' then StripQuoteMarks(s[..|s| - 1])
    else s
  }

  /** `_localversion`: the first setting's value, quotes off, else empty. */
  function Existing(lines: seq<string>): (r: string)
    ensures r != "" ==> r[0] != '"'
  {
    if lines == [] then ""
    else if PREFIX <= lines[0] then StripQuoteMarks(Strip(lines[0][|PREFIX|..]))
    else Existing(lines[1..])
  }

  function Setting(value: string): string {
    PREFIX + "\"" + value + "\""
  }

  function Replaced(lines: seq<string>, value: string): (r: seq<string>)
    ensures |r| == |lines|
    ensures forall i :: 0 <= i < |lines| ==> r[i] == if PREFIX <= lines[i] then Setting(value) else lines[i]
  {
    seq(|lines|, i requires 0 <= i < |lines| => if PREFIX <= lines[i] then Setting(value) else lines[i])
  }

  predicate HasSetting(lines: seq<string>) {
    exists i :: 0 <= i < |lines| && PREFIX <= lines[i]
  }

  function Set(lines: seq<string>, value: string): seq<string> {
    Replaced(lines, value) + if HasSetting(lines) then [] else [Setting(value)]
  }

  /** Every setting line is rewritten and every other line stays; one is added at the end
      exactly when there was none. */
  lemma SetsExactly(lines: seq<string>, value: string)
    ensures var r, own := Set(lines, value), "CONFIG_LOCALVERSION=\"" + value + "\"";
            && |r| >= |lines|
            && (forall i :: 0 <= i < |lines| ==> r[i] == if IsSetting(lines[i]) then own else lines[i])
            && r[|lines|..] == if exists i :: 0 <= i < |lines| && IsSetting(lines[i]) then [] else [own]
  {
    assert Setting(value) == "CONFIG_LOCALVERSION=\"" + value + "\"" by {
      assert "CONFIG_LOCALVERSION=" + "\"" == "CONFIG_LOCALVERSION=\"";
    }
    assert forall i :: 0 <= i < |lines| ==> (PREFIX <= lines[i] <==> IsSetting(lines[i]));
  }

  predicate IsSetting(line: string) {
    |line| >= 20 && line[..20] == "CONFIG_LOCALVERSION="
  }

  method SetLocalVersion(config: seq<string>, value: string) returns (lines: seq<string>)
    ensures lines == Set(config, value)
  {
    lines := [];
    var found := false;
    hide Strip, StripQuoteMarks, Setting;
    for i := 0 to |config|
      invariant lines == Replaced(config, value)[..i]
      invariant found <==> exists k :: 0 <= k < i && PREFIX <= config[k]
    {
      if PREFIX <= config[i] {
        lines := lines + [Setting(value)];
        found := true;
      } else {
        lines := lines + [config[i]];
      }
    }
    if !found {
      lines := lines + [Setting(value)];
    }
  }

  function Bake(config: seq<string>, tag: string, digest: string): seq<string> {
    Set(config, LocalVersion(Existing(config), tag, digest))
  }

  lemma {:induction false} ExistingFirst(lines: seq<string>, i: nat)
    requires i < |lines| && PREFIX <= lines[i] && forall k :: 0 <= k < i ==> !(PREFIX <= lines[k])
    ensures Existing(lines) == StripQuoteMarks(Strip(lines[i][|PREFIX|..]))
    decreases i
  {
    if i > 0 {
      assert lines[1..][i - 1] == lines[i] && forall k :: 0 <= k < i - 1 ==> lines[1..][k] == lines[k + 1];
      ExistingFirst(lines[1..], i - 1);
    }
  }

  lemma SettingReads(value: string)
    requires value != "" && value[0] != '"' && value[|value| - 1] != '"'
    ensures StripQuoteMarks(Strip(Setting(value)[|PREFIX|..])) == value
  {
    var quoted := "\"" + value + "\"";
    assert Setting(value) == PREFIX + quoted;
    assert Setting(value)[|PREFIX|..] == quoted;
    StripTrimmed(quoted);
    assert quoted[1..] == value + "\"" && (value + "\"")[0] == value[0];
    assert (value + "\"")[..|value + "\""| - 1] == value;
    assert StripQuoteMarks(quoted) == StripQuoteMarks(value + "\"");
    assert StripQuoteMarks(value + "\"") == StripQuoteMarks(value);
  }

  /** What was set is what is read back. */
  lemma SetThenExisting(lines: seq<string>, value: string)
    requires value != "" && value[0] != '"' && value[|value| - 1] != '"'
    ensures Existing(Set(lines, value)) == value && HasSetting(Set(lines, value))
  {
    var after := Set(lines, value);
    SettingReads(value);
    assert PREFIX <= Setting(value);
    var i := 0;
    while i < |lines| && !(PREFIX <= lines[i])
      invariant 0 <= i <= |lines|
      invariant forall k :: 0 <= k < i ==> !(PREFIX <= lines[k])
    {
      i := i + 1;
    }
    assert after[i] == Setting(value);
    ExistingFirst(after, i);
  }

  lemma SetTwice(lines: seq<string>, value: string)
    ensures Set(Set(lines, value), value) == Set(lines, value)
  {
    var after := Set(lines, value);
    assert PREFIX <= Setting(value);
    if HasSetting(lines) {
      var i :| 0 <= i < |lines| && PREFIX <= lines[i];
      assert after[i] == Setting(value);
    } else {
      assert after[|lines|] == Setting(value);
    }
    assert forall i :: 0 <= i < |after| ==> Replaced(after, value)[i] == after[i];
  }

  lemma LocalVersionShape(existing: string, tag: string, digest: string)
    requires IsDigest(digest) && (existing != "" ==> existing[0] != '"')
    ensures var v := LocalVersion(existing, tag, digest); v != "" && v[0] != '"' && v[|v| - 1] != '"'
  {
    var prior, v := Prior(existing, tag), LocalVersion(existing, tag, digest);
    assert prior == existing[..|prior|];
    assert v[|v| - 1] == digest[11];
    assert v[0] == if prior == "" then '-' else existing[0];
  }

  /** Rewriting the setting twice with one label and digest is rewriting it once. */
  lemma BakeIsIdempotent(config: seq<string>, tag: string, digest: string)
    requires IsDigest(digest)
    ensures Bake(Bake(config, tag, digest), tag, digest) == Bake(config, tag, digest)
  {
    var existing := Existing(config);
    var v := LocalVersion(existing, tag, digest);
    LocalVersionShape(existing, tag, digest);
    SetThenExisting(config, v);
    PriorOfBaked(existing, tag, digest);
    SetTwice(config, v);
  }
}
