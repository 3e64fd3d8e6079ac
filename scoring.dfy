/** Grading and score aggregation shared by the four quiz flows, and the
    in-place shuffle that quiz_v3's `run_quiz` and web_app's `start_quiz`
    apply through `random.shuffle`. */
module Scoring {
  import opened Common
  import opened Text

  /** A question is auto-graded exactly when it has a canonical answer. */
  predicate IsAuto(q: Question)
    ensures IsAuto(q) <==> q.answer != None
  {
    q.answer.Some?
  }

  /** `normalize(user) == normalize(q['answer'])` on an auto-graded question. */
  predicate GradedCorrect(q: Question, user: string)
    ensures GradedCorrect(q, user) ==> IsAuto(q)
  {
    q.answer.Some? && Normalize(user) == Normalize(q.answer.value)
  }

  /** Typing the canonical answer is graded correct exactly for an
      auto-graded question. */
  lemma OwnAnswerCorrect(q: Question)
    ensures IsAuto(q) <==> q.answer.Some? && GradedCorrect(q, q.answer.value)
  {
  }

  /** `sum(q['answer'] is not None for q in qs)`. */
  function CountAuto(qs: seq<Question>): (n: nat)
    ensures n <= |qs|
  {
    if qs == [] then 0
    else CountAuto(qs[..|qs| - 1]) + (if IsAuto(qs[|qs| - 1]) then 1 else 0)
  }

  /** The number of positions `i` whose answer `answers[i]` grades question
      `qs[i]` correct; it never exceeds the number of auto-graded questions. */
  function CountCorrect(qs: seq<Question>, answers: seq<string>): (n: nat)
    requires |answers| == |qs|
    ensures n <= CountAuto(qs)
  {
    if qs == [] then 0
    else
      var k := |qs| - 1;
      CountCorrect(qs[..k], answers[..k]) + (if GradedCorrect(qs[k], answers[k]) then 1 else 0)
  }

  /** One more position of a session adds its own verdict to the count. */
  lemma CountCorrectPrefix(qs: seq<Question>, answers: seq<string>, i: nat)
    requires |answers| == |qs| && i < |qs|
    ensures CountCorrect(qs[..i + 1], answers[..i + 1])
         == CountCorrect(qs[..i], answers[..i]) + (if GradedCorrect(qs[i], answers[i]) then 1 else 0)
  {
    assert qs[..i + 1][..i] == qs[..i] && answers[..i + 1][..i] == answers[..i];
  }

  /** `0 <= correct <= total_auto <= len(qs)` for every session. */
  lemma ScoreBounds(qs: seq<Question>, answers: seq<string>)
    requires |answers| == |qs|
    ensures 0 <= CountCorrect(qs, answers) <= CountAuto(qs) <= |qs|
  {
  }

  /** Counting the positions below `n + 1` that satisfy `p`. */
  lemma CardinalityStep(n: nat, p: nat -> bool)
    ensures |set i: nat | i < n + 1 && p(i)| == |set i: nat | i < n && p(i)| + (if p(n) then 1 else 0)
  {
    var before := set i: nat | i < n && p(i);
    var all := set i: nat | i < n + 1 && p(i);
    if p(n) {
      assert all == before + {n};
    } else {
      assert all == before;
    }
  }

  /** The auto-graded total is the number of positions holding a question
      with a canonical answer. */
  lemma {:induction false} CountAutoIsCardinality(qs: seq<Question>)
    ensures CountAuto(qs) == |set i: nat | i < |qs| && IsAuto(qs[i])|
  {
    if qs != [] {
      var k := |qs| - 1;
      CountAutoIsCardinality(qs[..k]);
      var p := (i: nat) => i < |qs| && IsAuto(qs[i]);
      CardinalityStep(k, p);
      assert (set i: nat | i < k && IsAuto(qs[..k][i])) == set i: nat | i < k && p(i);
      assert (set i: nat | i < |qs| && IsAuto(qs[i])) == set i: nat | i < k + 1 && p(i);
    }
  }

  /** The verdict `ask_one` reaches at each position of a session. */
  function Verdicts(qs: seq<Question>, answers: seq<string>): (v: seq<bool>)
    requires |answers| == |qs|
    ensures |v| == |qs|
  {
    seq(|qs|, i requires 0 <= i < |qs| => GradedCorrect(qs[i], answers[i]))
  }

  function CountTrue(bs: seq<bool>): nat
  {
    if bs == [] then 0 else CountTrue(bs[..|bs| - 1]) + (if bs[|bs| - 1] then 1 else 0)
  }

  lemma {:induction false} CountTrueIsCardinality(bs: seq<bool>)
    ensures CountTrue(bs) == |set i: nat | i < |bs| && bs[i]|
  {
    if bs != [] {
      var k := |bs| - 1;
      CountTrueIsCardinality(bs[..k]);
      var p := (i: nat) => i < |bs| && bs[i];
      CardinalityStep(k, p);
      assert (set i: nat | i < k && bs[..k][i]) == set i: nat | i < k && p(i);
      assert (set i: nat | i < |bs| && bs[i]) == set i: nat | i < k + 1 && p(i);
    }
  }

  lemma {:induction false} CountCorrectIsCountTrue(qs: seq<Question>, answers: seq<string>)
    requires |answers| == |qs|
    ensures CountCorrect(qs, answers) == CountTrue(Verdicts(qs, answers))
  {
    if qs != [] {
      var k := |qs| - 1;
      CountCorrectIsCountTrue(qs[..k], answers[..k]);
      assert Verdicts(qs, answers)[..k] == Verdicts(qs[..k], answers[..k]);
    }
  }

  /** The positions with a true verdict are the positions graded correct. */
  lemma VerdictPositions(qs: seq<Question>, answers: seq<string>)
    requires |answers| == |qs|
    ensures (set i: nat | i < |qs| && Verdicts(qs, answers)[i])
         == set i: nat | i < |qs| && GradedCorrect(qs[i], answers[i])
  {
  }

  /** The correct count is the number of positions whose answer grades its
      question correct. */
  lemma CountCorrectIsCardinality(qs: seq<Question>, answers: seq<string>)
    requires |answers| == |qs|
    ensures CountCorrect(qs, answers) == |set i: nat | i < |qs| && GradedCorrect(qs[i], answers[i])|
  {
    CountCorrectIsCountTrue(qs, answers);
    CountTrueIsCardinality(Verdicts(qs, answers));
    VerdictPositions(qs, answers);
  }

  /** What is typed for an open-ended question never changes the score. */
  lemma {:induction false} OpenEndedNeverScores(qs: seq<Question>, answers: seq<string>, i: nat, text: string)
    requires |answers| == |qs| && i < |qs| && !IsAuto(qs[i])
    ensures CountCorrect(qs, answers[i := text]) == CountCorrect(qs, answers)
  {
    var k := |qs| - 1;
    var changed := answers[i := text];
    if i < k {
      assert changed[..k] == answers[..k][i := text];
      OpenEndedNeverScores(qs[..k], answers[..k], i, text);
    } else {
      assert changed[..k] == answers[..k];
    }
  }

  lemma {:induction false} CountAutoAppend(a: seq<Question>, b: seq<Question>)
    ensures CountAuto(a + b) == CountAuto(a) + CountAuto(b)
  {
    if b == [] {
      assert a + b == a;
    } else {
      var k := |b| - 1;
      assert (a + b)[..|a + b| - 1] == a + b[..k];
      CountAutoAppend(a, b[..k]);
    }
  }

  /** Extending a prefix by one position adds that position's mark. */
  lemma CountAutoSnoc(b: seq<Question>, j: nat)
    requires j < |b|
    ensures CountAuto(b[..j + 1]) == CountAuto(b[..j]) + (if IsAuto(b[j]) then 1 else 0)
  {
    assert b[..j + 1][..j] == b[..j];
  }

  /** Taking out the question at position `j` takes its mark out of the
      auto-graded total. */
  lemma CountAutoRemove(b: seq<Question>, j: nat)
    requires j < |b|
    ensures CountAuto(b) == CountAuto(b[..j] + b[j + 1..]) + (if IsAuto(b[j]) then 1 else 0)
  {
    var left, front, right := b[..j], b[..j + 1], b[j + 1..];
    calc {
      CountAuto(b);
      { assert front + right == b; }
      CountAuto(front + right);
      { CountAutoAppend(front, right); }
      CountAuto(front) + CountAuto(right);
      { CountAutoSnoc(b, j); }
      CountAuto(left) + (if IsAuto(b[j]) then 1 else 0) + CountAuto(right);
      { CountAutoAppend(left, right); }
      CountAuto(left + right) + (if IsAuto(b[j]) then 1 else 0);
    }
  }

  /** Taking out the element at position `j` takes one copy of it out of the
      multiset. */
  lemma MultisetRemove(b: seq<Question>, j: nat)
    requires j < |b|
    ensures multiset(b[..j] + b[j + 1..]) == multiset(b) - multiset{b[j]}
  {
    assert b == b[..j] + [b[j]] + b[j + 1..];
  }

  /** The auto-graded total does not depend on the order of the questions,
      so shuffling a session never changes it. */
  lemma {:induction false} CountAutoPermutation(a: seq<Question>, b: seq<Question>)
    requires multiset(a) == multiset(b)
    ensures CountAuto(a) == CountAuto(b)
  {
    if a == [] {
      assert |b| == |multiset(b)| == 0;
    } else {
      var k := |a| - 1;
      var x := a[k];
      assert a == a[..k] + [x];
      assert x in multiset(b);
      var j :| 0 <= j < |b| && b[j] == x;
      MultisetRemove(b, j);
      assert multiset(a[..k]) == multiset(a) - multiset{x};
      CountAutoPermutation(a[..k], b[..j] + b[j + 1..]);
      CountAutoRemove(b, j);
    }
  }

  /** A random source for `random.shuffle`: `draws[i]` is the value
      `randbelow(i + 1)` returns when the shuffle reaches position `i`. */
  predicate ValidDraws(draws: seq<nat>)
  {
    forall i :: 0 <= i < |draws| ==> draws[i] <= i
  }

  /** `s` with positions `i` and `j` exchanged. */
  function Swap<T>(s: seq<T>, i: nat, j: nat): seq<T>
    requires i < |s| && j < |s|
  {
    s[i := s[j]][j := s[i]]
  }

  /** What `random.shuffle` makes of `s` when it is handed `draws`: the
      positions `n - 1` down to 1 are each swapped with their drawn position. */
  function Shuffled<T>(s: seq<T>, draws: seq<nat>, n: nat): (r: seq<T>)
    requires n <= |s| && n <= |draws| && ValidDraws(draws)
    ensures |r| == |s|
    decreases n
  {
    if n <= 1 then s else Shuffled(Swap(s, n - 1, draws[n - 1]), draws, n - 1)
  }

  lemma SwapPermutation<T>(s: seq<T>, i: nat, j: nat)
    requires i < |s| && j < |s|
    ensures |Swap(s, i, j)| == |s| && multiset(Swap(s, i, j)) == multiset(s)
  {
  }

  /** Whatever the draws, the shuffled list is a permutation of the list. */
  lemma {:induction false} ShuffledPermutation<T>(s: seq<T>, draws: seq<nat>, n: nat)
    requires n <= |s| && n <= |draws| && ValidDraws(draws)
    decreases n
    ensures |Shuffled(s, draws, n)| == |s|
    ensures multiset(Shuffled(s, draws, n)) == multiset(s)
  {
    if n > 1 {
      SwapPermutation(s, n - 1, draws[n - 1]);
      ShuffledPermutation(Swap(s, n - 1, draws[n - 1]), draws, n - 1);
    }
  }

  /** `random.shuffle(a)`: Fisher-Yates from the last position down to 1,
      swapping position `i` with the drawn position `j <= i`. */
  method Shuffle<T>(a: array<T>, draws: seq<nat>)
    requires a.Length <= |draws| && ValidDraws(draws)
    modifies a
    ensures a[..] == Shuffled(old(a[..]), draws, a.Length)
    ensures multiset(a[..]) == multiset(old(a[..]))
  {
    var i := a.Length - 1;
    while i >= 1
      invariant -1 <= i < a.Length
      invariant Shuffled(a[..], draws, i + 1) == Shuffled(old(a[..]), draws, a.Length)
      decreases i
    {
      var j := draws[i];
      ghost var before := a[..];
      a[i], a[j] := a[j], a[i];
      assert a[..] == Swap(before, i, j);
      i := i - 1;
    }
    ShuffledPermutation(old(a[..]), draws, a.Length);
  }
}
