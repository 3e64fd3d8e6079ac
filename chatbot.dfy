/** chatbot.py: the console quiz whose loader raises instead of exiting and
    does not check that the document is a list of objects. Its
    `choose_category` and `run_quiz` are `QuizV2.ChooseCategory` and
    `QuizV2.RunQuiz`. */
module Chatbot {
  import opened Common

  /** What `load_questions` raises; `index` is 1-based. `BadItem` is its
      `ValueError`; `Crash` is the `TypeError` Python raises on its own when
      an item supports neither `in` nor item assignment. */
  datatype LoadError = BadItem(index: nat) | Crash(index: nat)

  /** `k in s` for Python strings: `k` occurs in `s` as a substring. */
  predicate IsSubstring(k: string, s: string)
    ensures IsSubstring(k, s) ==> |k| <= |s|
    decreases |s|
  {
    |k| <= |s| && (s[..|k|] == k || IsSubstring(k, s[1..]))
  }

  /** `k` is the slice of `s` that starts at position `i`. */
  predicate OccursAt(k: string, s: string, i: nat)
  {
    i + |k| <= |s| && s[i..i + |k|] == k
  }

  /** `k in s` holds exactly when `k` occurs in `s` at some position. */
  lemma {:induction false} IsSubstringAt(k: string, s: string)
    ensures IsSubstring(k, s) <==> exists i: nat :: OccursAt(k, s, i)
    decreases |s|
  {
    if |k| <= |s| {
      if s[..|k|] == k {
        assert OccursAt(k, s, 0);
      } else {
        IsSubstringAt(k, s[1..]);
        if j: nat :| OccursAt(k, s[1..], j) {
          assert s[1..][j..j + |k|] == s[j + 1..j + 1 + |k|];
          assert OccursAt(k, s, j + 1);
        }
        if i: nat :| OccursAt(k, s, i) {
          assert i != 0;
          assert s[1..][i - 1..i - 1 + |k|] == s[i..i + |k|];
          assert OccursAt(k, s[1..], i - 1);
        }
      }
    }
  }

  /** One pass of the loop body on item number `index`:
      `all(k in q for k in ('category', 'question'))`, then
      `if 'answer' not in q: q['answer'] = None`. Python's `in` tests the keys
      of a dict, the elements of a list and the substrings of a string, and
      fails with `TypeError` on a number, a boolean or `null`; assigning to
      `q['answer']` fails the same way on a list or a string. */
  function CheckItem(q: Json, index: nat): (r: Result<Json, LoadError>)
    ensures q.Obj? ==> (r.Ok? <==> "category" in q.fields && "question" in q.fields)
    ensures q.Obj? && r.Ok? ==> r.value == Obj(SetDefault(q.fields, "answer", Null))
    ensures !q.Obj? && r.Ok? ==> r.value == q
    ensures r.Err? ==> r.error.index == index
    ensures (q.Null? || q.Bool? || q.Num?) ==> r == Err(Crash(index))
  {
    match q
    case Obj(f) =>
      if "category" in f && "question" in f then Ok(Obj(SetDefault(f, "answer", Null)))
      else Err(BadItem(index))
    case Arr(xs) =>
      if Str("category") in xs && Str("question") in xs then
        (if Str("answer") in xs then Ok(q) else Err(Crash(index)))
      else Err(BadItem(index))
    case Str(s) =>
      if IsSubstring("category", s) && IsSubstring("question", s) then
        (if IsSubstring("answer", s) then Ok(q) else Err(Crash(index)))
      else Err(BadItem(index))
    case _ => Err(Crash(index))
  }

  /** `load_questions` on the parsed list `data`: the first item whose check
      fails decides the error; otherwise every item is its checked form, so
      an object keeps all its values and gains `answer: null` only where it
      had no `answer`. */
  method LoadQuestions(data: seq<Json>) returns (r: Result<seq<Json>, LoadError>)
    ensures r.Ok? <==> forall i :: 0 <= i < |data| ==> CheckItem(data[i], i + 1).Ok?
    ensures r.Ok? ==>
      && |r.value| == |data|
      && forall i :: 0 <= i < |data| ==> r.value[i] == CheckItem(data[i], i + 1).value
    ensures r.Err? ==>
      && 1 <= r.error.index <= |data|
      && CheckItem(data[r.error.index - 1], r.error.index) == Err(r.error)
      && forall i :: 0 <= i < r.error.index - 1 ==> CheckItem(data[i], i + 1).Ok?
  {
    var loaded: seq<Json> := [];
    var i := 0;
    while i < |data|
      invariant 0 <= i <= |data| && |loaded| == i
      invariant forall k :: 0 <= k < i ==> CheckItem(data[k], k + 1).Ok?
      invariant forall k :: 0 <= k < i ==> loaded[k] == CheckItem(data[k], k + 1).value
    {
      var checked := CheckItem(data[i], i + 1);
      if checked.Err? {
        return Err(checked.error);
      }
      loaded := loaded + [checked.value];
      i := i + 1;
    }
    return Ok(loaded);
  }
}
