/** What the two KTAP readers share: the tests they report and how they count them. */
module Ktap {

  /** Names and messages are compared and copied, never looked into. */
  datatype Text = Text(chars: string)

  const NO_TEXT := Text("")

  datatype Status = Passed | Failed | Notrun

  datatype Test<N> = Test(name: N, status: Status, message: Text)

  function Count<N>(tests: seq<Test<N>>, status: Status): nat {
    if |tests| == 0 then 0 else (if tests[0].status == status then 1 else 0) + Count(tests[1..], status)
  }

  lemma {:induction false} CountAppend<N>(tests: seq<Test<N>>, t: Test<N>, status: Status)
    ensures Count(tests + [t], status) == Count(tests, status) + if t.status == status then 1 else 0
  {
    if |tests| > 0 {
      assert (tests + [t])[1..] == tests[1..] + [t];
      CountAppend(tests[1..], t, status);
    }
  }

  ghost predicate AllSame<T>(xs: seq<T>) {
    forall i, j :: 0 <= i < |xs| && 0 <= j < |xs| ==> xs[i] == xs[j]
  }

  /** Moving the first element to the end changes a list unless its elements are all the
      same. */
  lemma {:induction false} RotatedDiffers<T>(xs: seq<T>)
    requires |xs| > 0 && xs[1..] + [xs[0]] == xs
    ensures AllSame(xs)
  {
    forall i | 0 <= i < |xs|
      ensures xs[i] == xs[0]
    {
      RotatedAt(xs, i);
    }
  }

  lemma {:induction false} RotatedAt<T>(xs: seq<T>, i: nat)
    requires i < |xs| && xs[1..] + [xs[0]] == xs
    ensures xs[i] == xs[0]
  {
    if i > 0 {
      RotatedAt(xs, i - 1);
      assert (xs[1..] + [xs[0]])[i - 1] == xs[i];
    }
  }

  lemma SameLists<T>(xs: seq<T>, ys: seq<T>)
    requires |xs| == |ys| && AllSame(ys) && forall x :: x in xs ==> x in ys
    ensures xs == ys
  {
    forall i | 0 <= i < |xs|
      ensures xs[i] == ys[i]
    {
      assert xs[i] in ys;
      var j :| 0 <= j < |ys| && ys[j] == xs[i];
    }
  }
}
