/** Losing journal lines: any subsequence of a text is what some mask keeps of it. */
module Loss {
  import opened Seqs
  import opened Wrappers

  /** The lines a mask keeps. */
  function Survivors<T>(lines: seq<T>, kept: seq<bool>): (r: seq<T>)
    requires |kept| == |lines|
    ensures |r| <= |lines|
    ensures forall x :: x in r ==> x in lines
  {
    if lines == [] then []
    else (if kept[0] then [lines[0]] else []) + Survivors(lines[1..], kept[1..])
  }

  ghost predicate Subsequence<T>(part: seq<T>, whole: seq<T>) {
    part == [] || (whole != [] && ((part[0] == whole[0] && Subsequence(part[1..], whole[1..]))
                                   || Subsequence(part, whole[1..])))
  }

  lemma {:induction false} SubsequenceHasMask<T>(part: seq<T>, whole: seq<T>) returns (kept: seq<bool>)
    requires Subsequence(part, whole)
    ensures |kept| == |whole| && Survivors(whole, kept) == part
    decreases |whole|
  {
    if whole == [] {
      kept := [];
    } else if part != [] && part[0] == whole[0] && Subsequence(part[1..], whole[1..]) {
      var rest := SubsequenceHasMask(part[1..], whole[1..]);
      kept := [true] + rest;
      assert kept[1..] == rest;
    } else {
      assert Subsequence(part, whole[1..]);
      var rest := SubsequenceHasMask(part, whole[1..]);
      kept := [false] + rest;
      assert kept[1..] == rest;
    }
  }

  lemma {:induction false} SurvivorsOfParts<T>(a: seq<T>, b: seq<T>, ka: seq<bool>, kb: seq<bool>)
    requires |ka| == |a| && |kb| == |b|
    ensures Survivors(a + b, ka + kb) == Survivors(a, ka) + Survivors(b, kb)
  {
    if a == [] {
      assert a + b == b && ka + kb == kb;
    } else {
      var first := if ka[0] then [a[0]] else [];
      assert Survivors(a + b, ka + kb) == first + Survivors(a[1..] + b, ka[1..] + kb) by {
        assert (a + b)[1..] == a[1..] + b && (ka + kb)[1..] == ka[1..] + kb;
      }
      assert Survivors(a, ka) == first + Survivors(a[1..], ka[1..]);
      hide Survivors;
      SurvivorsOfParts(a[1..], b, ka[1..], kb);
      Regroup(first, Survivors(a[1..], ka[1..]), Survivors(b, kb));
    }
  }

  lemma SurvivorsConcat<T>(a: seq<T>, b: seq<T>, kept: seq<bool>)
    requires |kept| == |a| + |b|
    ensures Survivors(a + b, kept) == Survivors(a, kept[..|a|]) + Survivors(b, kept[|a|..])
  {
    SurvivorsOfParts(a, b, kept[..|a|], kept[|a|..]);
    assert kept == kept[..|a|] + kept[|a|..];
  }

  lemma {:induction false} SurvivorsAreSubsequence<T>(whole: seq<T>, kept: seq<bool>)
    requires |kept| == |whole|
    ensures Subsequence(Survivors(whole, kept), whole)
  {
    if whole != [] {
      SurvivorsAreSubsequence(whole[1..], kept[1..]);
      if kept[0] {
        assert Survivors(whole, kept)[1..] == Survivors(whole[1..], kept[1..]);
      } else {
        assert Survivors(whole, kept) == Survivors(whole[1..], kept[1..]);
      }
    }
  }

  /** Losing lines by position and being a subsequence are the same thing. */
  lemma LossIsSubsequence<T>(part: seq<T>, whole: seq<T>)
    ensures Subsequence(part, whole) <==> exists kept :: |kept| == |whole| && Survivors(whole, kept) == part
  {
    if Subsequence(part, whole) {
      var kept := SubsequenceHasMask(part, whole);
    }
    forall kept | |kept| == |whole| && Survivors(whole, kept) == part
      ensures Subsequence(part, whole)
    {
      SurvivorsAreSubsequence(whole, kept);
    }
  }

  lemma SubsequenceOfParts<T>(x: seq<T>, a: seq<T>, y: seq<T>, b: seq<T>)
    requires Subsequence(x, a) && Subsequence(y, b)
    ensures Subsequence(x + y, a + b)
  {
    var ka := SubsequenceHasMask(x, a);
    var kb := SubsequenceHasMask(y, b);
    SurvivorsOfParts(a, b, ka, kb);
    SurvivorsAreSubsequence(a + b, ka + kb);
  }

  lemma {:induction false} SubsequenceOfItself<T>(lines: seq<T>)
    ensures Subsequence(lines, lines)
  {
    if lines != [] {
      SubsequenceOfItself(lines[1..]);
    }
  }

  // ----- cutting a text off -----------------------------------------------------

  function FirstKept(n: nat, total: nat): (kept: seq<bool>)
    requires n <= total
    ensures |kept| == total && forall i :: 0 <= i < total ==> (kept[i] <==> i < n)
  {
    seq(total, i => i < n)
  }

  lemma {:induction false} CutSurvives<T>(lines: seq<T>, n: nat)
    requires n <= |lines|
    ensures Survivors(lines, FirstKept(n, |lines|)) == lines[..n]
  {
    if lines != [] {
      var m := if n == 0 then 0 else n - 1;
      CutSurvives(lines[1..], m);
      assert FirstKept(n, |lines|)[1..] == FirstKept(m, |lines| - 1);
    }
  }

  lemma CutKeeps(total: nat, p: nat, n: nat)
    requires p <= total && n <= total
    ensures FirstKept(n, total)[p..] == FirstKept(Beyond(p, n), total - p)
  {
  }

  /** How much of what follows the first `p` lines is before a cut at `n`. */
  function Beyond(p: nat, n: nat): nat {
    if n > p then n - p else 0
  }

  // ----- what a reader collects ---------------------------------------------------

  /** What `read` makes of the lines, in order. */
  function Collect<T, U>(lines: seq<T>, read: T -> Option<U>): seq<U> {
    if |lines| == 0 then []
    else (if read(lines[0]).Some? then [read(lines[0]).value] else []) + Collect(lines[1..], read)
  }

  lemma {:induction false} CollectConcat<T, U>(a: seq<T>, b: seq<T>, read: T -> Option<U>)
    ensures Collect(a + b, read) == Collect(a, read) + Collect(b, read)
  {
    if |a| == 0 {
      assert a + b == b;
    } else {
      assert (a + b)[1..] == a[1..] + b;
      CollectConcat(a[1..], b, read);
      Regroup(if read(a[0]).Some? then [read(a[0]).value] else [], Collect(a[1..], read), Collect(b, read));
    }
  }

  lemma {:induction false} CollectNothing<T, U>(lines: seq<T>, read: T -> Option<U>)
    requires forall i :: 0 <= i < |lines| ==> read(lines[i]).None?
    ensures Collect(lines, read) == []
  {
    if |lines| > 0 {
      CollectNothing(lines[1..], read);
    }
  }

  lemma {:induction false} CollectedSurvives<T, U>(lines: seq<T>, kept: seq<bool>, read: T -> Option<U>)
    requires |kept| == |lines|
    ensures forall u :: u in Collect(Survivors(lines, kept), read) ==> u in Collect(lines, read)
  {
    if lines != [] {
      CollectedSurvives(lines[1..], kept[1..], read);
      CollectConcat(if kept[0] then [lines[0]] else [], Survivors(lines[1..], kept[1..]), read);
    }
  }

  /** As many are read from what survives as were there: then all of them are, in order. */
  lemma {:induction false} FullCountIsEverything<T, U>(lines: seq<T>, kept: seq<bool>, read: T -> Option<U>)
    requires |kept| == |lines|
    ensures |Collect(Survivors(lines, kept), read)| <= |Collect(lines, read)|
    ensures |Collect(Survivors(lines, kept), read)| == |Collect(lines, read)| ==>
              Collect(Survivors(lines, kept), read) == Collect(lines, read)
  {
    if lines != [] {
      FullCountIsEverything(lines[1..], kept[1..], read);
      CollectConcat(if kept[0] then [lines[0]] else [], Survivors(lines[1..], kept[1..]), read);
    }
  }
}
