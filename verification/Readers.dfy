/** What the configuration readers do once every line is classified: the names a file opens,
    the variables of one section, and the lines of one block. Names, keys and values stay
    abstract here; Sections.dfy says what a line of text is. */
module Readers {
  import opened Seqs
  import opened Wrappers

  /** `named` tells a header with a name from one that strips to nothing. */
  datatype Kind<N, V> = Opens(name: N, named: bool) | Assigns(key: V, value: V) | Neither

  predicate OpensSection<N(==), V>(k: Kind<N, V>, section: N) {
    k.Opens? && k.name == section
  }

  // ----- parse_sections -----------------------------------------------------------

  function AddName<N(==), V>(seen: seq<N>, k: Kind<N, V>): seq<N> {
    if k.Opens? && k.named && k.name !in seen then seen + [k.name] else seen
  }

  function NamesOf<N(==), V>(kinds: seq<Kind<N, V>>): seq<N> {
    if |kinds| == 0 then [] else AddName(NamesOf(kinds[..|kinds| - 1]), kinds[|kinds| - 1])
  }

  ghost predicate NameOpened<N, V>(kinds: seq<Kind<N, V>>, n: N) {
    exists i :: 0 <= i < |kinds| && OpensSection(kinds[i], n) && kinds[i].named
  }

  /** The names read are those of the named headers, each once. */
  lemma {:induction false} NamesAreTheHeaders<N(!new), V>(kinds: seq<Kind<N, V>>)
    ensures forall n :: n in NamesOf(kinds) <==> NameOpened(kinds, n)
    ensures Distinct(NamesOf(kinds))
  {
    if |kinds| > 0 {
      var init, last := kinds[..|kinds| - 1], kinds[|kinds| - 1];
      NamesAreTheHeaders(init);
      forall n: N
        ensures n in NamesOf(kinds) <==> NameOpened(kinds, n)
      {
        if NameOpened(init, n) {
          var i :| 0 <= i < |init| && OpensSection(init[i], n) && init[i].named;
          assert OpensSection(kinds[i], n) && kinds[i].named;
        }
        if OpensSection(last, n) && last.named {
          assert OpensSection(kinds[|kinds| - 1], n);
        }
      }
    }
  }

  // ----- section_vars -------------------------------------------------------------

  datatype Reading<N, !V> = Reading(current: Option<N>, vars: map<V, V>)

  function ReadOne<N(==), V(==)>(r: Reading<N, V>, k: Kind<N, V>, section: N, hasSections: bool): Reading<N, V> {
    match k
    case Opens(name, _) => r.(current := Some(name))
    case Assigns(key, value) =>
      if (!hasSections && r.current.None?) || r.current == Some(section) then r.(vars := r.vars[key := value]) else r
    case Neither => r
  }

  function ReadAll<N(==), V(==)>(r: Reading<N, V>, kinds: seq<Kind<N, V>>, section: N, hasSections: bool): Reading<N, V>
    decreases |kinds|
  {
    if |kinds| == 0 then r else ReadAll(ReadOne(r, kinds[0], section, hasSections), kinds[1..], section, hasSections)
  }

  function VarsOf<N(==), V(==)>(kinds: seq<Kind<N, V>>, section: N): map<V, V> {
    ReadAll(Reading(None, map[]), kinds, section, |NamesOf(kinds)| > 0).vars
  }

  lemma {:induction false} ReadConcat<N, V>(r: Reading<N, V>, a: seq<Kind<N, V>>, b: seq<Kind<N, V>>, section: N, has: bool)
    ensures ReadAll(r, a + b, section, has) == ReadAll(ReadAll(r, a, section, has), b, section, has)
    decreases |a|
  {
    if |a| == 0 {
      assert a + b == b;
    } else {
      assert (a + b)[0] == a[0] && (a + b)[1..] == a[1..] + b;
      ReadConcat(ReadOne(r, a[0], section, has), a[1..], b, section, has);
    }
  }

  lemma ReadSingle<N, V>(r: Reading<N, V>, k: Kind<N, V>, section: N, has: bool)
    ensures ReadAll(r, [k], section, has) == ReadOne(r, k, section, has)
  {
    assert [k][1..] == [];
  }

  ghost predicate NoHeader<N, V>(kinds: seq<Kind<N, V>>, section: N) {
    forall i :: 0 <= i < |kinds| ==> !OpensSection(kinds[i], section)
  }

  /** Away from the section nothing is read into its variables. */
  lemma {:induction false} ReadElsewhere<N, V>(r: Reading<N, V>, kinds: seq<Kind<N, V>>, section: N)
    requires r.current != Some(section) && NoHeader(kinds, section)
    ensures ReadAll(r, kinds, section, true).vars == r.vars
    ensures ReadAll(r, kinds, section, true).current != Some(section)
    decreases |kinds|
  {
    if |kinds| > 0 {
      assert !OpensSection(kinds[0], section);
      ReadElsewhere(ReadOne(r, kinds[0], section, true), kinds[1..], section);
    }
  }

  /** Another header takes over, so nothing more is read. */
  lemma ReadAfterHeader<N, V>(r: Reading<N, V>, kinds: seq<Kind<N, V>>, section: N)
    requires |kinds| > 0 ==> kinds[0].Opens?
    requires NoHeader(kinds, section)
    ensures ReadAll(r, kinds, section, true).vars == r.vars
  {
    if |kinds| > 0 {
      assert !OpensSection(kinds[0], section);
      ReadElsewhere(ReadOne(r, kinds[0], section, true), kinds[1..], section);
    }
  }

  /** A header forgets where the reader was. */
  lemma SameFromHeader<N, V>(a: Reading<N, V>, b: Reading<N, V>, kinds: seq<Kind<N, V>>, section: N)
    requires |kinds| > 0 && kinds[0].Opens? && a.vars == b.vars
    ensures ReadAll(a, kinds, section, true) == ReadAll(b, kinds, section, true)
  {
    assert ReadOne(a, kinds[0], section, true) == ReadOne(b, kinds[0], section, true);
  }

  // ----- section_block ------------------------------------------------------------

  /** The first header of the section, the length when there is none. */
  function FirstHeader<N(==), V>(kinds: seq<Kind<N, V>>, section: N): (i: nat)
    ensures i <= |kinds| && (i < |kinds| ==> OpensSection(kinds[i], section))
    ensures forall k :: 0 <= k < i ==> !OpensSection(kinds[k], section)
  {
    if |kinds| == 0 || OpensSection(kinds[0], section) then 0 else 1 + FirstHeader(kinds[1..], section)
  }

  /** The first header at or after `i`, whatever it opens, the length when there is none. */
  function NextHeader<N, V>(kinds: seq<Kind<N, V>>, i: nat): (j: nat)
    requires i <= |kinds|
    ensures i <= j <= |kinds| && (j < |kinds| ==> kinds[j].Opens?)
    ensures forall k :: i <= k < j ==> !kinds[k].Opens?
    decreases |kinds| - i
  {
    if i == |kinds| || kinds[i].Opens? then i else NextHeader(kinds, i + 1)
  }

  /** A stretch of lines that starts at `from`, as far as `i`. */
  function Cut<T>(lines: seq<T>, from: nat, i: nat): seq<T>
    requires i <= |lines|
  {
    if from < i then lines[from..i] else []
  }

  lemma CutMore<T>(lines: seq<T>, from: nat, i: nat)
    requires i < |lines|
    ensures Cut(lines, from, i + 1) == if from <= i then Cut(lines, from, i) + [lines[i]] else []
  {
  }

  function KindsBy<T, N, V>(kindOf: T -> Kind<N, V>, lines: seq<T>): (r: seq<Kind<N, V>>)
    ensures |r| == |lines| && forall i :: 0 <= i < |r| ==> r[i] == kindOf(lines[i])
  {
    seq(|lines|, i requires 0 <= i < |lines| => kindOf(lines[i]))
  }

  /** The lines from a section's first header up to the next header. */
  function BlockOf<T, N(==), V>(kindOf: T -> Kind<N, V>, lines: seq<T>, section: N): seq<T> {
    var kinds := KindsBy(kindOf, lines);
    var from := FirstHeader(kinds, section);
    if from == |lines| then [] else lines[from..NextHeader(kinds, from + 1)]
  }

  method CutLines<T, N(==), V>(kindOf: T -> Kind<N, V>, lines: seq<T>, section: N) returns (out: seq<T>)
    ensures out == BlockOf(kindOf, lines, section)
  {
    out := [];
    ghost var kinds := KindsBy(kindOf, lines);
    ghost var from := FirstHeader(kinds, section);
    var grabbing := false;
    var i := 0;
    while i < |lines|
      invariant 0 <= i <= |lines|
      invariant grabbing <==> from < i
      invariant out == Cut(lines, from, i)
      invariant grabbing ==> NextHeader(kinds, from + 1) == NextHeader(kinds, i)
    {
      CutMore(lines, from, i);
      var kind := kindOf(lines[i]);
      if i <= from {
        AtFirstHeader(kinds, section, i);
      }
      if kind.Opens? {
        if grabbing {
          return;
        }
        grabbing := kind.name == section;
        if grabbing {
          out := out + [lines[i]];
        }
      } else if grabbing {
        out := out + [lines[i]];
      }
      i := i + 1;
    }
  }

  lemma AtFirstHeader<N, V>(kinds: seq<Kind<N, V>>, section: N, i: nat)
    requires i < |kinds| && i <= FirstHeader(kinds, section)
    ensures FirstHeader(kinds, section) == i <==> OpensSection(kinds[i], section)
  {
  }

  ghost predicate HeaderOnce<N, V>(kinds: seq<Kind<N, V>>, section: N, at: nat) {
    && at < |kinds| && OpensSection(kinds[at], section) && kinds[at].named
    && forall i :: 0 <= i < |kinds| && i != at ==> !OpensSection(kinds[i], section)
  }

  lemma OnceIsFirst<N, V>(kinds: seq<Kind<N, V>>, section: N, at: nat)
    requires HeaderOnce(kinds, section, at)
    ensures FirstHeader(kinds, section) == at
  {
    var i := FirstHeader(kinds, section);
    assert i <= at;
  }

  lemma NamedOnce<N(!new), V>(kinds: seq<Kind<N, V>>, section: N, at: nat)
    requires at < |kinds| && OpensSection(kinds[at], section) && kinds[at].named
    ensures |NamesOf(kinds)| > 0
  {
    NamesAreTheHeaders(kinds);
    assert NameOpened(kinds, section);
    assert section in NamesOf(kinds);
  }

  /** What is read on top of earlier variables is what is read from none, laid over them. */
  lemma {:induction false} ReadLaysOver<N, V>(c: Option<N>, v: map<V, V>, kinds: seq<Kind<N, V>>, section: N, has: bool)
    ensures ReadAll(Reading(c, v), kinds, section, has).vars == v + ReadAll(Reading(c, map[]), kinds, section, has).vars
    decreases |kinds|
  {
    if |kinds| > 0 {
      var next, bare := ReadOne(Reading(c, v), kinds[0], section, has), ReadOne(Reading(c, map[]), kinds[0], section, has);
      assert next.vars == v + bare.vars && next.current == bare.current;
      ReadLaysOver(next.current, next.vars, kinds[1..], section, has);
      ReadLaysOver(next.current, bare.vars, kinds[1..], section, has);
    }
  }

  /** The lines from the header after the section's first block on. */
  function Later<N(==), V>(kinds: seq<Kind<N, V>>, section: N): seq<Kind<N, V>>
    requires FirstHeader(kinds, section) < |kinds|
  {
    kinds[NextHeader(kinds, FirstHeader(kinds, section) + 1)..]
  }

  function FirstBlock<N(==), V>(kinds: seq<Kind<N, V>>, section: N): seq<Kind<N, V>>
    requires FirstHeader(kinds, section) < |kinds|
  {
    var from := FirstHeader(kinds, section);
    kinds[from..NextHeader(kinds, from + 1)]
  }

  /** What those lines assign to the section, each key with the value it has in the end. */
  function LaterVars<N(==), V(==)>(kinds: seq<Kind<N, V>>, section: N): map<V, V>
    requires FirstHeader(kinds, section) < |kinds|
  {
    ReadAll(Reading(None, map[]), Later(kinds, section), section, true).vars
  }

  lemma AroundFirst<N, V>(kinds: seq<Kind<N, V>>, section: N)
    requires FirstHeader(kinds, section) < |kinds|
    ensures kinds == kinds[..FirstHeader(kinds, section)] + (FirstBlock(kinds, section) + Later(kinds, section))
    ensures NoHeader(kinds[..FirstHeader(kinds, section)], section)
    ensures |FirstBlock(kinds, section)| > 0 && FirstBlock(kinds, section)[0] == kinds[FirstHeader(kinds, section)]
    ensures |Later(kinds, section)| > 0 ==> Later(kinds, section)[0].Opens?
  {
    var from := FirstHeader(kinds, section);
    hide FirstHeader, NextHeader;
    InThree(kinds, from, NextHeader(kinds, from + 1));
  }

  lemma LaterFromAnywhere<N, V>(r: Reading<N, V>, rest: seq<Kind<N, V>>, section: N)
    requires |rest| > 0 ==> rest[0].Opens?
    ensures ReadAll(r, rest, section, true).vars == r.vars + ReadAll(Reading(None, map[]), rest, section, true).vars
  {
    ReadLaysOver(r.current, r.vars, rest, section, true);
    if |rest| > 0 {
      SameFromHeader(Reading(r.current, map[]), Reading(None, map[]), rest, section);
    }
  }

  /** The file's variables are those of the first block with the later ones laid over. */
  lemma FileIsBlockAndLater<N(!new), V>(kinds: seq<Kind<N, V>>, section: N)
    requires FirstHeader(kinds, section) < |kinds| && kinds[FirstHeader(kinds, section)].named
    ensures VarsOf(kinds, section) == VarsOf(FirstBlock(kinds, section), section) + LaterVars(kinds, section)
  {
    var from := FirstHeader(kinds, section);
    var pre, block, rest := kinds[..from], FirstBlock(kinds, section), Later(kinds, section);
    var start: Reading<N, V> := Reading(None, map[]);
    AroundFirst(kinds, section);
    NamedOnce(kinds, section, from);
    NamedOnce(block, section, 0);
    ReadElsewhere(start, pre, section);
    ReadConcat(start, pre, block + rest, section, true);
    var before := ReadAll(start, pre, section, true);
    ReadConcat(before, block, rest, section, true);
    SameFromHeader(before, start, block, section);
    LaterFromAnywhere(ReadAll(start, block, section, true), rest, section);
  }

  ghost predicate Covers<V>(block: map<V, V>, later: map<V, V>) {
    forall k :: k in later ==> k in block && block[k] == later[k]
  }

  /** Block and file agree exactly when the block already has what is assigned later. */
  lemma BlockRefinesExactly<N(!new), V>(kinds: seq<Kind<N, V>>, section: N)
    requires FirstHeader(kinds, section) < |kinds| && kinds[FirstHeader(kinds, section)].named
    ensures VarsOf(FirstBlock(kinds, section), section) == VarsOf(kinds, section)
       <==> Covers(VarsOf(FirstBlock(kinds, section), section), LaterVars(kinds, section))
  {
    FileIsBlockAndLater(kinds, section);
    LaidOver(VarsOf(FirstBlock(kinds, section), section), LaterVars(kinds, section));
  }

  lemma LaidOver<V>(block: map<V, V>, later: map<V, V>)
    ensures block == block + later <==> Covers(block, later)
  {
    if Covers(block, later) {
      assert block == block + later;
    } else {
      var k :| k in later && (k !in block || block[k] != later[k]);
      assert (block + later)[k] == later[k];
    }
  }

  /** A header that occurs once leaves nothing to be assigned later. */
  lemma NothingLater<N, V>(kinds: seq<Kind<N, V>>, section: N, at: nat)
    requires HeaderOnce(kinds, section, at)
    ensures FirstHeader(kinds, section) == at && LaterVars(kinds, section) == map[]
  {
    OnceIsFirst(kinds, section, at);
    AroundFirst(kinds, section);
    ReadAfterHeader(Reading(None, map[]), Later(kinds, section), section);
  }

  // ----- a section the file never opens -------------------------------------------

  predicate AssignsFirst<N, V>(kinds: seq<Kind<N, V>>) {
    exists i :: 0 <= i < NextHeader(kinds, 0) && kinds[i].Assigns?
  }

  lemma {:induction false} PlainReads<N, V>(r: Reading<N, V>, plain: seq<Kind<N, V>>, section: N)
    requires r.current.None? && forall i :: 0 <= i < |plain| ==> !plain[i].Opens?
    ensures var after := ReadAll(r, plain, section, false);
            && after.current.None? && r.vars.Keys <= after.vars.Keys
            && ((exists i :: 0 <= i < |plain| && plain[i].Assigns?) ==> |after.vars| > 0)
            && ((forall i :: 0 <= i < |plain| ==> !plain[i].Assigns?) ==> after.vars == r.vars)
    decreases |plain|
  {
    if |plain| > 0 {
      var next := ReadOne(r, plain[0], section, false);
      PlainReads(next, plain[1..], section);
      if plain[0].Assigns? {
        assert plain[0].key in ReadAll(r, plain, section, false).vars;
      } else if i :| 0 <= i < |plain| && plain[i].Assigns? {
        assert plain[1..][i - 1].Assigns?;
      }
    }
  }

  lemma {:induction false} ReadUnopened<N, V>(r: Reading<N, V>, kinds: seq<Kind<N, V>>, section: N, has: bool)
    requires NoHeader(kinds, section) && r.current != Some(section) && (r.current.None? ==> has || (|kinds| > 0 ==> kinds[0].Opens?))
    ensures ReadAll(r, kinds, section, has).vars == r.vars
    decreases |kinds|
  {
    if |kinds| > 0 {
      assert !OpensSection(kinds[0], section);
      ReadUnopened(ReadOne(r, kinds[0], section, has), kinds[1..], section, has);
    }
  }

  /** Such a section has variables exactly when the file opens none at all and starts with an
      assignment. */
  lemma UnopenedVars<N, V>(kinds: seq<Kind<N, V>>, section: N)
    requires NoHeader(kinds, section)
    ensures VarsOf(kinds, section) == map[] <==> |NamesOf(kinds)| > 0 || !AssignsFirst(kinds)
  {
    var start: Reading<N, V> := Reading(None, map[]);
    if |NamesOf(kinds)| > 0 {
      ReadUnopened(start, kinds, section, true);
    } else {
      var n := NextHeader(kinds, 0);
      PlainReads(start, kinds[..n], section);
      assert kinds == kinds[..n] + kinds[n..];
      ReadConcat(start, kinds[..n], kinds[n..], section, false);
      ReadUnopened(ReadAll(start, kinds[..n], section, false), kinds[n..], section, false);
      assert forall i :: 0 <= i < n ==> kinds[..n][i] == kinds[i];
    }
  }

  lemma BlockOfFirst<T, N(!new), V>(kindOf: T -> Kind<N, V>, lines: seq<T>, section: N) returns (block: seq<T>)
    requires FirstHeader(KindsBy(kindOf, lines), section) < |lines|
    ensures block == BlockOf(kindOf, lines, section) && |block| > 0 && OpensSection(kindOf(block[0]), section)
    ensures KindsBy(kindOf, block) == FirstBlock(KindsBy(kindOf, lines), section)
    ensures forall i :: 0 <= i < |block| ==> block[i] in lines
  {
    var kinds := KindsBy(kindOf, lines);
    var from := FirstHeader(kinds, section);
    block := lines[from..NextHeader(kinds, from + 1)];
  }

  /** With the header twice the two readers part: the variables come from both blocks, the
      block of the first is its header alone. */
  lemma TwiceOpened<N(!new), V>(section: N, key: V, value: V)
    ensures var header: Kind<N, V> := Opens(section, true);
            var kinds := [header, header, Assigns(key, value)];
            && VarsOf(kinds, section) == map[key := value] && VarsOf([header], section) == map[]
            && FirstHeader(kinds, section) == 0 && NextHeader(kinds, 1) == 1
  {
    var header: Kind<N, V>, assign: Kind<N, V> := Opens(section, true), Assigns(key, value);
    var kinds := [header, header, assign];
    NamedOnce(kinds, section, 0);
    NamedOnce([header], section, 0);
    assert kinds[1..] == [header, assign] && [header, assign][1..] == [assign];
    var start: Reading<N, V>, inside: Reading<N, V> := Reading(None, map[]), Reading(Some(section), map[]);
    ReadSingle(start, header, section, true);
    ReadSingle(inside, assign, section, true);
    assert ReadAll(start, kinds, section, true) == ReadAll(inside, [header, assign], section, true);
    assert ReadAll(inside, [header, assign], section, true) == ReadAll(inside, [assign], section, true);
  }

  // ----- blocks one after the other -----------------------------------------------

  /** The blocks, with a separator between each two. */
  function Spread<X>(blocks: seq<seq<X>>, sep: X): seq<X> {
    if |blocks| == 0 then []
    else if |blocks| == 1 then blocks[0]
    else Spread(blocks[..|blocks| - 1], sep) + ([sep] + blocks[|blocks| - 1])
  }

  /** The block's first line opens section `name`, and nothing after it opens another. */
  ghost predicate OpensOnly<N, V>(block: seq<Kind<N, V>>, name: N) {
    && |block| > 0 && OpensSection(block[0], name) && block[0].named
    && forall i :: 1 <= i < |block| ==> !block[i].Opens?
  }

  /** Blocks that open the given sections, all distinct. */
  ghost predicate AllOpen<N, V>(blocks: seq<seq<Kind<N, V>>>, names: seq<N>) {
    && |blocks| == |names|
    && (|blocks| > 0 ==>
          var n := |blocks| - 1;
          AllOpen(blocks[..n], names[..n]) && OpensOnly(blocks[n], names[n]) && names[n] !in names[..n])
  }

  lemma NameNotIn<N>(names: seq<N>, n: nat, section: N)
    requires n < |names| && section !in names
    ensures section !in names[..n] && names[n] != section
  {
    assert names[n] in names;
  }

  lemma {:induction false} NamesDiffer<N, V>(blocks: seq<seq<Kind<N, V>>>, names: seq<N>, k: nat)
    requires AllOpen(blocks, names) && k + 1 < |names|
    ensures names[|names| - 1] != names[k]
  {
    var n := |names| - 1;
    assert names[..n][k] == names[k] && names[k] in names[..n];
  }

  lemma {:induction false} NamesPlain<N, V>(kinds: seq<Kind<N, V>>, plain: seq<Kind<N, V>>)
    requires forall i :: 0 <= i < |plain| ==> !plain[i].Opens?
    ensures NamesOf(kinds + plain) == NamesOf(kinds)
    decreases |plain|
  {
    if |plain| == 0 {
      assert kinds + plain == kinds;
    } else {
      var n, all := |plain| - 1, kinds + plain;
      assert all[|all| - 1] == plain[n] && all[..|all| - 1] == kinds + plain[..n];
      NamesPlain(kinds, plain[..n]);
    }
  }

  lemma NamesBlock<N, V>(kinds: seq<Kind<N, V>>, block: seq<Kind<N, V>>, name: N)
    requires OpensOnly(block, name) && name !in NamesOf(kinds)
    ensures NamesOf(kinds + block) == NamesOf(kinds) + [name]
  {
    var begun := kinds + [block[0]];
    assert begun[|begun| - 1] == block[0] && begun[..|begun| - 1] == kinds;
    NamesPlain(begun, block[1..]);
    assert kinds + block == begun + block[1..];
  }

  lemma NamesOneMore<N, V>(kinds: seq<Kind<N, V>>, block: seq<Kind<N, V>>, name: N)
    requires OpensOnly(block, name) && name !in NamesOf(kinds)
    ensures NamesOf(kinds + ([Neither] + block)) == NamesOf(kinds) + [name]
  {
    NamesPlain(kinds, [Neither]);
    NamesBlock(kinds + [Neither], block, name);
    assert kinds + ([Neither] + block) == kinds + [Neither] + block;
  }

  lemma {:induction false} SpreadNames<N, V>(blocks: seq<seq<Kind<N, V>>>, names: seq<N>)
    requires AllOpen(blocks, names)
    ensures NamesOf(Spread(blocks, Neither)) == names
  {
    var n := |blocks| - 1;
    if n == 0 {
      NamesBlock([], blocks[0], names[0]);
      assert [] + blocks[0] == blocks[0] && names == [names[0]];
    } else if n > 0 {
      SpreadNames(blocks[..n], names[..n]);
      NamesOneMore(Spread(blocks[..n], Neither), blocks[n], names[n]);
      assert names == names[..n] + [names[n]];
    }
  }

  lemma ReadOneMore<N, V>(r: Reading<N, V>, kinds: seq<Kind<N, V>>, block: seq<Kind<N, V>>, section: N)
    ensures ReadAll(r, kinds + ([Neither] + block), section, true)
         == ReadAll(ReadAll(r, kinds, section, true), block, section, true)
  {
    ReadConcat(r, kinds, [Neither] + block, section, true);
    assert ([Neither] + block)[0] == Kind<N, V>.Neither && ([Neither] + block)[1..] == block;
  }

  lemma OtherBlock<N, V>(r: Reading<N, V>, block: seq<Kind<N, V>>, name: N, section: N)
    requires OpensOnly(block, name) && name != section
    ensures ReadAll(r, block, section, true).vars == r.vars && NoHeader(block, section)
  {
    ReadAfterHeader(r, block, section);
  }

  lemma {:induction false} SpreadElsewhere<N, V>(r: Reading<N, V>, blocks: seq<seq<Kind<N, V>>>, names: seq<N>, section: N)
    requires AllOpen(blocks, names) && section !in names
    ensures ReadAll(r, Spread(blocks, Neither), section, true).vars == r.vars
    decreases |blocks|
  {
    var n := |blocks| - 1;
    if n >= 0 {
      NameNotIn(names, n, section);
    }
    if n == 0 {
      OtherBlock(r, blocks[0], names[0], section);
    } else if n > 0 {
      var before := Spread(blocks[..n], Neither);
      SpreadElsewhere(r, blocks[..n], names[..n], section);
      ReadOneMore(r, before, blocks[n], section);
      OtherBlock(ReadAll(r, before, section, true), blocks[n], names[n], section);
    }
  }

  /** From all the blocks, a section's variables are those its own block assigns. */
  lemma {:induction false} SpreadVars<N, V>(r: Reading<N, V>, blocks: seq<seq<Kind<N, V>>>, names: seq<N>, k: nat)
    requires AllOpen(blocks, names) && k < |names|
    ensures ReadAll(r, Spread(blocks, Neither), names[k], true).vars == ReadAll(r, blocks[k], names[k], true).vars
    decreases |blocks|
  {
    var n := |blocks| - 1;
    if n > 0 {
      var before := Spread(blocks[..n], Neither);
      var mid := ReadAll(r, before, names[k], true);
      ReadOneMore(r, before, blocks[n], names[k]);
      if k < n {
        SpreadVars(r, blocks[..n], names[..n], k);
        NamesDiffer(blocks, names, k);
        OtherBlock(mid, blocks[n], names[n], names[k]);
      } else {
        SpreadElsewhere(r, blocks[..n], names[..n], names[k]);
        SameFromHeader(mid, r, blocks[n], names[k]);
      }
    }
  }

  // ----- every header of the blocks occurs once -----------------------------------

  lemma OnceWithMore<N, V>(kinds: seq<Kind<N, V>>, more: seq<Kind<N, V>>, section: N, at: nat)
    requires HeaderOnce(kinds, section, at) && NoHeader(more, section)
    ensures HeaderOnce(kinds + more, section, at)
  {
    var all := kinds + more;
    forall i | 0 <= i < |all| && i != at
      ensures !OpensSection(all[i], section)
    {
      assert all[i] == if i < |kinds| then kinds[i] else more[i - |kinds|];
    }
  }

  lemma OnceAfter<N, V>(pre: seq<Kind<N, V>>, block: seq<Kind<N, V>>, section: N)
    requires NoHeader(pre, section) && OpensOnly(block, section)
    ensures HeaderOnce(pre + block, section, |pre|)
  {
    var all := pre + block;
    forall i | 0 <= i < |all| && i != |pre|
      ensures !OpensSection(all[i], section)
    {
      assert all[i] == if i < |pre| then pre[i] else block[i - |pre|];
    }
  }

  lemma {:induction false} SpreadNoHeader<N, V>(blocks: seq<seq<Kind<N, V>>>, names: seq<N>, section: N)
    requires AllOpen(blocks, names) && section !in names
    ensures NoHeader(Spread(blocks, Neither), section)
  {
    var n := |blocks| - 1;
    if n >= 0 {
      NameNotIn(names, n, section);
      OtherBlock(Reading(None, map[]), blocks[n], names[n], section);
    }
    if n > 0 {
      SpreadNoHeader(blocks[..n], names[..n], section);
    }
  }

  lemma {:induction false} SpreadOnce<N, V>(blocks: seq<seq<Kind<N, V>>>, names: seq<N>, k: nat) returns (at: nat)
    requires AllOpen(blocks, names) && k < |names|
    ensures HeaderOnce(Spread(blocks, Neither), names[k], at)
  {
    var n := |blocks| - 1;
    if n == 0 {
      at := 0;
    } else if k < n {
      at := SpreadOnce(blocks[..n], names[..n], k);
      NamesDiffer(blocks, names, k);
      OtherBlock(Reading(None, map[]), blocks[n], names[n], names[k]);
      OnceWithMore(Spread(blocks[..n], Neither), [Neither] + blocks[n], names[k], at);
    } else {
      var before := Spread(blocks[..n], Neither);
      SpreadNoHeader(blocks[..n], names[..n], names[k]);
      OnceAfter(before + [Neither], blocks[n], names[k]);
      assert before + [Neither] + blocks[n] == before + ([Neither] + blocks[n]);
      at := |before| + 1;
    }
  }
}
