/** web_app.py: the Flask front end. Its `normalize`, `available_values` and
    `filter_questions` are the ones quiz_v3.py has (`Text.Normalize`,
    `Selection.Categories`, `Selection.Difficulties`,
    `Selection.FilterQuestions`); what is its own is the loader without
    validation and the two form handlers. */
module WebApp {
  import opened Common
  import opened Text
  import opened Selection
  import opened Scoring

  /** The `AttributeError` of `q.setdefault` on an item that is not an
      object; `index` is 1-based. */
  datatype LoadError = NotAnObject(index: nat)

  /** `load_questions` on the parsed list `data`: never rejects a record for
      its contents; it only adds `answer: null` and `difficulty: "easy"` where
      they are absent and keeps every value already there. */
  method LoadQuestions(data: seq<Json>) returns (r: Result<seq<Record>, LoadError>)
    ensures r.Ok? <==> forall i :: 0 <= i < |data| ==> data[i].Obj?
    ensures r.Ok? ==> |r.value| == |data| && forall i :: 0 <= i < |data| ==>
      && r.value[i].Keys == data[i].fields.Keys + {"answer", "difficulty"}
      && r.value[i]["answer"] == (if "answer" in data[i].fields then data[i].fields["answer"] else Null)
      && r.value[i]["difficulty"] == (if "difficulty" in data[i].fields then data[i].fields["difficulty"] else Str("easy"))
      && forall k :: k in data[i].fields ==> r.value[i][k] == data[i].fields[k]
    ensures r.Err? ==>
      && 1 <= r.error.index <= |data|
      && !data[r.error.index - 1].Obj?
      && forall i :: 0 <= i < r.error.index - 1 ==> data[i].Obj?
  {
    var loaded: seq<Record> := [];
    var i := 0;
    while i < |data|
      invariant 0 <= i <= |data| && |loaded| == i
      invariant forall k :: 0 <= k < i ==>
        && data[k].Obj?
        && loaded[k] == SetDefault(SetDefault(data[k].fields, "answer", Null), "difficulty", Str("easy"))
    {
      if !data[i].Obj? {
        return Err(NotAnObject(i + 1));
      }
      var rec := SetDefault(data[i].fields, "answer", Null);
      rec := SetDefault(rec, "difficulty", Str("easy"));
      loaded := loaded + [rec];
      i := i + 1;
    }
    return Ok(loaded);
  }

  /** The filter values `start_quiz` stores in the session. */
  datatype Filters = Filters(category: Option<string>, difficulty: Option<string>)

  /** What `start_quiz` answers: the 400 page when nothing matches, or the
      session it stores before redirecting to the quiz page. */
  datatype StartOutcome = NoMatch | Started(qs: seq<Question>, filters: Filters)

  /** `request.form.get(name) or None`: a missing or empty field is "ALL". */
  function FormValue(field: Option<string>): (v: Option<string>)
    ensures v.None? <==> field.None? || field.value == ""
    ensures v.Some? ==> v == field
  {
    if field.Some? && field.value != "" then field else None
  }

  /** `bool(request.form.get("shuffle"))`. */
  predicate Checked(field: Option<string>)
    ensures Checked(field) <==> FormValue(field).Some?
  {
    field.Some? && field.value != ""
  }

  /** `start_quiz` on the form fields: selects the matching questions,
      rejects an empty selection, and otherwise stores the selection,
      shuffled in place when the box is ticked, with the filter values. */
  method StartQuiz(all: seq<Question>, category: Option<string>, difficulty: Option<string>,
                   shuffle: Option<string>, draws: seq<nat>) returns (r: StartOutcome)
    requires |all| <= |draws| && ValidDraws(draws)
    ensures r.NoMatch? <==> FilterQuestions(all, FormValue(category), FormValue(difficulty)) == []
    ensures r.Started? ==> r.filters == Filters(FormValue(category), FormValue(difficulty))
    ensures r.Started? ==>
      multiset(r.qs) == multiset(FilterQuestions(all, FormValue(category), FormValue(difficulty)))
    ensures r.Started? && !Checked(shuffle) ==>
      r.qs == FilterQuestions(all, FormValue(category), FormValue(difficulty))
  {
    var cat := FormValue(category);
    var diff := FormValue(difficulty);
    var selected := FilterQuestions(all, cat, diff);
    if selected == [] {
      return NoMatch;
    }
    var a := new Question[|selected|](i requires 0 <= i < |selected| => selected[i]);
    assert a[..] == selected;
    if Checked(shuffle) {
      Shuffle(a, draws);
    }
    return Started(a[..], Filters(cat, diff));
  }

  /** The row `submit_quiz` hands to `save_score`. */
  datatype ScoreRow = ScoreRow(
    at: string,
    category: Option<string>,
    difficulty: Option<string>,
    questions: nat,
    autoTotal: nat,
    correct: nat)

  /** `request.form.get(f"ans_{i}", "")`, with the form keyed by `i`. */
  function FormAnswer(form: map<nat, string>, i: nat): (r: string)
    ensures i in form ==> r == form[i]
    ensures i !in form ==> r == ""
  {
    if i in form then form[i] else ""
  }

  /** The answers of a submitted form for the first `n` questions. */
  function FormAnswers(form: map<nat, string>, n: nat): (a: seq<string>)
    ensures |a| == n && forall i :: 0 <= i < n ==> a[i] == FormAnswer(form, i)
  {
    seq(n, i requires 0 <= i < n => FormAnswer(form, i))
  }

  /** `submit_quiz` on the stored session `qs` and `filters`, the submitted
      `form` and the clock's `now` (`isoformat(timespec="seconds")`): counts
      the auto-graded questions and the correct answers, and builds the row
      for the score log. */
  method SubmitQuiz(qs: seq<Question>, filters: Filters, form: map<nat, string>, now: string)
      returns (correct: nat, total: nat, row: ScoreRow)
    ensures total == CountAuto(qs)
    ensures correct == CountCorrect(qs, FormAnswers(form, |qs|))
    ensures correct <= total <= |qs|
    ensures row == ScoreRow(now + "Z", filters.category, filters.difficulty, |qs|, total, correct)
  {
    ghost var answers := FormAnswers(form, |qs|);
    correct := 0;
    total := CountAuto(qs);
    for i := 0 to |qs|
      invariant correct == CountCorrect(qs[..i], answers[..i])
    {
      CountCorrectPrefix(qs, answers, i);
      var user := FormAnswer(form, i);
      assert user == answers[i];
      var ans := qs[i].answer;
      if ans.None? {
        continue;
      }
      if Normalize(user) == Normalize(ans.value) {
        correct := correct + 1;
      }
    }
    assert qs == qs[..|qs|] && answers == answers[..|qs|];
    row := ScoreRow(now + "Z", filters.category, filters.difficulty, |qs|, total, correct);
  }
}
