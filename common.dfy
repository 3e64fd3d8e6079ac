/** Values shared by every quiz script: failure-compatible wrappers, the
    parsed JSON document a loader receives, and the question record that the
    quiz flow reads once a bank is loaded. */
module Common {

  datatype Option<+T> = None | Some(value: T)

  datatype Result<+T, +E> = Ok(value: T) | Err(error: E)

  /** A value produced by `json.load`. Numbers are kept as integers: no part
      of the quiz engine looks at a number other than to reject it. */
  datatype Json =
    | Null
    | Bool(b: bool)
    | Num(n: int)
    | Str(s: string)
    | Arr(items: seq<Json>)
    | Obj(fields: map<string, Json>)

  /** A JSON object, as the Python dict the loaders update in place. */
  type Record = map<string, Json>

  /** A question as the quiz flow reads it: `answer` is `None` for an
      open-ended question. */
  datatype Question = Question(
    category: string,
    question: string,
    answer: Option<string>,
    difficulty: string)

  /** Python's `d.setdefault(k, v)`: a value already stored under `k` is
      kept; otherwise `v` is stored. No other key is touched. */
  function SetDefault(d: Record, k: string, v: Json): (r: Record)
    ensures k in r && r[k] == (if k in d then d[k] else v)
    ensures r.Keys == d.Keys + {k}
    ensures forall j :: j in d ==> r[j] == d[j]
  {
    if k in d then d else d[k := v]
  }

  /** Reads a loaded record as a question, when its fields have the types
      the quiz flow uses (strings, and `null` or a string for `answer`).
      A record without `difficulty` (left so by the quiz_v2 and chatbot
      loaders, whose quiz flow never reads it) gets the empty string. */
  function AsQuestion(r: Record): (q: Option<Question>)
    ensures q.Some? <==>
      && "category" in r && r["category"].Str? && "question" in r && r["question"].Str?
      && ("answer" !in r || r["answer"].Null? || r["answer"].Str?)
      && ("difficulty" !in r || r["difficulty"].Str?)
    ensures q.Some? ==> "category" in r && r["category"] == Str(q.value.category)
    ensures q.Some? ==> "question" in r && r["question"] == Str(q.value.question)
    ensures q.Some? && "difficulty" in r ==> r["difficulty"] == Str(q.value.difficulty)
    ensures q.Some? && "difficulty" !in r ==> q.value.difficulty == ""
    ensures q.Some? ==> (q.value.answer.None? <==> "answer" !in r || r["answer"] == Null)
    ensures q.Some? && q.value.answer.Some? ==> r["answer"] == Str(q.value.answer.value)
  {
    if "category" in r && r["category"].Str? && "question" in r && r["question"].Str?
      && ("answer" !in r || r["answer"].Null? || r["answer"].Str?)
      && ("difficulty" !in r || r["difficulty"].Str?)
    then
      Some(Question(
        r["category"].s,
        r["question"].s,
        if "answer" in r && r["answer"].Str? then Some(r["answer"].s) else None,
        if "difficulty" in r then r["difficulty"].s else ""))
    else
      None
  }
}
