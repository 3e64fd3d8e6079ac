/** quiz_v2.py: the console quiz with a category picker. Its
    `choose_category` and `run_quiz` are the ones in chatbot.py, the same
    code up to a local variable, so both files share `ChooseCategory` and
    `RunQuiz` here. */
module QuizV2 {
  import opened Common
  import opened Text
  import opened Selection
  import opened Scoring

  /** Why `load_questions` stops the program; `index` is 1-based. */
  datatype LoadError = NotAList | BadItem(index: nat)

  /** `isinstance(q, dict) and 'question' in q and 'category' in q`. */
  predicate ItemOk(q: Json)
    ensures ItemOk(q) ==> q.Obj? && {"question", "category"} <= q.fields.Keys
  {
    q.Obj? && "question" in q.fields && "category" in q.fields
  }

  /** `load_questions` on the parsed document `data`: fails unless `data` is
      a list, then at the first item that is not an object with `question`
      and `category`; on success each item gains `answer: null` where it had
      no answer, and nothing else changes (no difficulty is added). */
  method LoadQuestions(data: Json) returns (r: Result<seq<Record>, LoadError>)
    ensures !data.Arr? ==> r == Err(NotAList)
    ensures data.Arr? ==> (r.Ok? <==> forall i :: 0 <= i < |data.items| ==> ItemOk(data.items[i]))
    ensures r.Ok? ==> data.Arr? && |r.value| == |data.items|
    ensures r.Ok? ==> forall i :: 0 <= i < |r.value| ==>
      && data.items[i].Obj?
      && r.value[i].Keys == data.items[i].fields.Keys + {"answer"}
      && r.value[i]["answer"] == (if "answer" in data.items[i].fields then data.items[i].fields["answer"] else Null)
      && forall k :: k in data.items[i].fields ==> r.value[i][k] == data.items[i].fields[k]
    ensures r.Err? && data.Arr? ==>
      && r.error.BadItem?
      && 1 <= r.error.index <= |data.items|
      && !ItemOk(data.items[r.error.index - 1])
      && forall i :: 0 <= i < r.error.index - 1 ==> ItemOk(data.items[i])
  {
    if !data.Arr? {
      return Err(NotAList);
    }
    var items := data.items;
    var loaded: seq<Record> := [];
    var i := 0;
    while i < |items|
      invariant 0 <= i <= |items| && |loaded| == i
      invariant forall k :: 0 <= k < i ==> ItemOk(items[k])
      invariant forall k :: 0 <= k < i ==> items[k].Obj? && loaded[k] == SetDefault(items[k].fields, "answer", Null)
    {
      var q := items[i];
      if !q.Obj? || "question" !in q.fields || "category" !in q.fields {
        return Err(BadItem(i + 1));
      }
      loaded := loaded + [SetDefault(q.fields, "answer", Null)];
      i := i + 1;
    }
    return Ok(loaded);
  }

  /** The predicate of `[q for q in questions if q['category'] == c]`. */
  function HasCategory(c: string): (r: Question -> bool)
    ensures forall q: Question :: r(q) ==> Matches(Some(c), q.category)
  {
    (q: Question) => q.category == c
  }

  /** `choose_category(questions)` once the user has typed `line`: an empty
      or unmatched choice gives every question, labelled `ALL`; otherwise the
      first sorted category equal to the choice ignoring case, with the
      questions of exactly that category in bank order. */
  method ChooseCategory(questions: seq<Question>, line: string) returns (selected: seq<Question>, title: string)
    ensures Strip(line) == "" ==> selected == questions && title == "ALL"
    ensures Strip(line) != "" && !AnyMatch(Categories(questions), Strip(line)) ==>
      selected == questions && title == "ALL"
    ensures Strip(line) != "" && AnyMatch(Categories(questions), Strip(line)) ==>
      && FirstMatch(Categories(questions), Strip(line), title)
      && selected == Select(questions, HasCategory(title))
      && selected != []
  {
    var cats := Categories(questions);
    var choice := Strip(line);
    if choice == "" {
      return questions, "ALL";
    }
    var k := 0;
    while k < |cats|
      invariant 0 <= k <= |cats|
      invariant forall j :: 0 <= j < k ==> Lower(cats[j]) != Lower(choice)
    {
      var c := cats[k];
      if Lower(c) == Lower(choice) {
        assert c in cats;
        var i :| 0 <= i < |questions| && questions[i].category == c;
        SelectNonempty(questions, HasCategory(c));
        return Select(questions, HasCategory(c)), c;
      }
      k := k + 1;
    }
    return questions, "ALL";
  }

  /** `run_quiz(questions)` with `answers[i]` typed for question `i`: the
      score and the auto-graded total it prints. */
  method RunQuiz(questions: seq<Question>, answers: seq<string>) returns (score: nat, totalAuto: nat)
    requires |answers| == |questions|
    ensures totalAuto == CountAuto(questions)
    ensures score == CountCorrect(questions, answers)
    ensures score <= totalAuto <= |questions|
  {
    totalAuto := CountAuto(questions);
    score := 0;
    for i := 0 to |questions|
      invariant score == CountCorrect(questions[..i], answers[..i])
    {
      CountCorrectPrefix(questions, answers, i);
      var q := questions[i];
      if q.answer.None? {
        continue;
      }
      if Normalize(answers[i]) == Normalize(q.answer.value) {
        score := score + 1;
      }
    }
    assert questions == questions[..|questions|] && answers == answers[..|questions|];
  }
}
