/** Naming the guest unit of a run item: `unit_escape` and `item_unit` of
    f/selftests/common.py. The escaping is that of systemd.unit(5), section "String Escaping
    for Inclusion in Unit Names". A name is the sequence of its UTF-8 bytes. */
module UnitEscape {
  import opened Wrappers
  import opened Seqs

  type Byte = b: int | 0 <= b < 256

  type Name = seq<Byte>

  predicate IsAlnum(c: char) {
    '0' <= c <= '9' || 'A' <= c <= 'Z' || 'a' <= c <= 'z'
  }

  /** Letters, digits and `:_.` stay, a leading dot excepted. */
  predicate Stays(b: Byte, first: bool) {
    var c := b as char;
    (IsAlnum(c) || c == ':' || c == '_' || c == '.') && !(c == '.' && first)
  }

  function HexDigit(d: int): (c: char)
    requires 0 <= d < 16
    ensures IsAlnum(c) && FromHex(c) == Some(d)
  {
    if d < 10 then (('0' as int) + d) as char else (('a' as int) + d - 10) as char
  }

  function FromHex(c: char): (d: Option<int>)
    ensures d.Some? ==> 0 <= d.value < 16
  {
    if '0' <= c <= '9' then Some(c as int - '0' as int)
    else if 'a' <= c <= 'f' then Some(c as int - 'a' as int + 10)
    else if 'A' <= c <= 'F' then Some(c as int - 'A' as int + 10)
    else None
  }

  function EscapeByte(b: Byte, first: bool): string {
    if b as char == '/' then "-"
    else if Stays(b, first) then [b as char]
    else ['\\', 'x', HexDigit(b / 16), HexDigit(b % 16)]
  }

  function EscapeFrom(name: Name, first: bool): string {
    if name == [] then "" else EscapeByte(name[0], first) + EscapeFrom(name[1..], false)
  }

  function Escape(name: Name): string {
    EscapeFrom(name, true)
  }

  method UnitEscape(name: Name) returns (out: string)
    ensures out == Escape(name)
  {
    out := "";
    for i := 0 to |name|
      invariant out + EscapeFrom(name[i..], i == 0) == Escape(name)
    {
      var piece := EscapedByte(name[i], i == 0);
      EscapeOneMore(name, i);
      Regroup(out, piece, EscapeFrom(name[i + 1..], false));
      out := out + piece;
    }
  }

  lemma EscapeOneMore(name: Name, i: nat)
    requires i < |name|
    ensures EscapeFrom(name[i..], i == 0) == EscapeByte(name[i], i == 0) + EscapeFrom(name[i + 1..], false)
  {
    assert name[i..][0] == name[i] && name[i..][1..] == name[i + 1..];
  }

  method EscapedByte(b: Byte, first: bool) returns (piece: string)
    ensures piece == EscapeByte(b, first)
  {
    var c := b as char;
    if c == '/' {
      return "-";
    } else if (IsAlnum(c) || c == ':' || c == '_' || c == '.') && !(c == '.' && first) {
      return [c];
    } else {
      return ['\\', 'x', HexDigit(b / 16), HexDigit(b % 16)];
    }
  }

  /** How systemd reads an instance name back: `-` is a slash, `\xNN` is a byte, and any
      other character of the ASCII range is itself. */
  function Unescape(s: string): Option<Name>
    decreases |s|
  {
    if s == "" then Some([])
    else if s[0] == '-' then Prepend('/' as int, Unescape(s[1..]))
    else if s[0] == '\\' then
      if |s| >= 4 && s[1] == 'x' && FromHex(s[2]).Some? && FromHex(s[3]).Some?
      then Prepend(16 * FromHex(s[2]).value + FromHex(s[3]).value, Unescape(s[4..]))
      else None
    else if s[0] as int < 128 then Prepend(s[0] as int, Unescape(s[1..]))
    else None
  }

  function Prepend(b: Byte, rest: Option<Name>): Option<Name> {
    if rest.Some? then Some([b] + rest.value) else None
  }

  lemma UnescapeOne(b: Byte, first: bool, rest: string)
    ensures Unescape(EscapeByte(b, first) + rest) == Prepend(b, Unescape(rest))
  {
    var piece := EscapeByte(b, first);
    var s := piece + rest;
    assert s[|piece|..] == rest;
    assert s[0] == piece[0] && (|piece| == 4 ==> s[1] == piece[1] && s[2] == piece[2] && s[3] == piece[3]);
  }

  lemma {:induction false} UnescapeUndoes(name: Name, first: bool)
    ensures Unescape(EscapeFrom(name, first)) == Some(name)
  {
    if name != [] {
      UnescapeOne(name[0], first, EscapeFrom(name[1..], false));
      UnescapeUndoes(name[1..], false);
      assert name == [name[0]] + name[1..];
    }
  }

  /** Unescaping gives back the bytes of every name. */
  lemma RoundTrip(name: Name)
    ensures Unescape(Escape(name)) == Some(name)
  {
    UnescapeUndoes(name, true);
  }

  lemma EscapeInjective(a: Name, b: Name)
    requires Escape(a) == Escape(b)
    ensures a == b
  {
    RoundTrip(a);
    RoundTrip(b);
  }

  /** The characters systemd admits in a unit instance, `@` apart. */
  predicate ValidInInstance(c: char) {
    IsAlnum(c) || c in ":-_.\\"
  }

  lemma {:induction false} EscapedIsValid(name: Name, first: bool)
    ensures forall i :: 0 <= i < |EscapeFrom(name, first)| ==> ValidInInstance(EscapeFrom(name, first)[i])
    ensures first && name != [] ==> EscapeFrom(name, first)[0] != '.'
  {
    if name != [] {
      EscapedIsValid(name[1..], false);
      var head := EscapeByte(name[0], first);
      assert forall i :: 0 <= i < |head| ==> ValidInInstance(head[i]);
    }
  }

  function AsText(name: Name): (r: string)
    ensures |r| == |name| && forall i :: 0 <= i < |r| ==> r[i] == name[i] as char
  {
    seq(|name|, i requires 0 <= i < |name| => name[i] as char)
  }

  /** A letter, a digit, a colon, an underscore, or a dot that is not the first. */
  predicate Plain(c: char, first: bool) {
    'a' <= c <= 'z' || 'A' <= c <= 'Z' || '0' <= c <= '9' || c == ':' || c == '_' || (c == '.' && !first)
  }

  lemma EscapesOne(b: Byte, first: bool)
    ensures EscapeByte(b, first) == [b as char] <==> Plain(b as char, first)
    ensures |EscapeByte(b, first)| >= 1
  {
  }

  /** An escaped name is the name itself exactly when it has such characters only. */
  lemma {:induction false} StaysExactly(name: Name, first: bool)
    ensures |EscapeFrom(name, first)| >= |name|
    ensures EscapeFrom(name, first) == AsText(name) <==>
              forall i :: 0 <= i < |name| ==> Plain(name[i] as char, first && i == 0)
  {
    if name != [] {
      var head, rest := EscapeByte(name[0], first), EscapeFrom(name[1..], false);
      EscapesOne(name[0], first);
      StaysExactly(name[1..], false);
      assert AsText(name) == [name[0] as char] + AsText(name[1..]);
      HeadAndTail(head, rest, name[0] as char, AsText(name[1..]));
      assert forall i :: 0 < i < |name| ==> name[i] == name[1..][i - 1];
    }
  }

  lemma HeadAndTail(head: string, rest: string, c: char, tail: string)
    requires |head| >= 1 && |rest| >= |tail|
    ensures head + rest == [c] + tail <==> head == [c] && rest == tail
  {
    if head + rest == [c] + tail {
      assert |head| == 1 && (head + rest)[0] == head[0] && (head + rest)[1..] == rest && ([c] + tail)[1..] == tail;
    }
  }

  // ----- item_unit ----------------------------------------------------------------

  function Template(item: Name): string {
    if ':' as int in item then "kselftest-test" else "kselftest"
  }

  function ItemUnit(item: Name): string {
    Template(item) + "@" + Escape(item) + ".service"
  }

  /** An item with a colon is one test of a collection, any other a whole collection; the
      instance reads back as the item. */
  lemma UnitNames(item: Name)
    ensures var u := ItemUnit(item);
            exists instance :: Unescape(instance) == Some(item)
              && u == (if exists i :: 0 <= i < |item| && item[i] as char == ':' then "kselftest-test@" else "kselftest@")
                      + instance + ".service"
  {
    RoundTrip(item);
    assert "kselftest-test" + "@" == "kselftest-test@" && "kselftest" + "@" == "kselftest@";
    assert ':' as int in item <==> exists i :: 0 <= i < |item| && item[i] as char == ':';
  }

  /** The instance and the template can be read off a unit name. */
  lemma UnitParts(item: Name)
    ensures var u, t := ItemUnit(item), Template(item);
            && |u| >= |t| + 9 && u[..|t|] == t && u[|t|] == '@' && u[|t| + 1..|u| - 8] == Escape(item)
            && forall i :: 0 <= i < |t| ==> u[i] != '@'
  {
    var u, t := ItemUnit(item), Template(item);
    assert u == t + ("@" + (Escape(item) + ".service"));
    assert |".service"| == 8;
  }

  /** Distinct run items start distinct units. */
  lemma ItemUnitInjective(a: Name, b: Name)
    requires ItemUnit(a) == ItemUnit(b)
    ensures a == b
  {
    UnitParts(a);
    UnitParts(b);
    var u, s, t := ItemUnit(a), Template(a), Template(b);
    assert u[|s|] == '@' && u[|t|] == '@' && |s| == |t|;
    EscapeInjective(a, b);
  }
}
