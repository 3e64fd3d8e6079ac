/** quiz_v3.py: the console quiz with a category and a difficulty filter.
    Its `normalize`, `available_values` and `filter_questions` are
    `Text.Normalize`, `Selection.Categories`/`Selection.Difficulties` and
    `Selection.FilterQuestions`. */
module QuizV3 {
  import opened Common
  import opened Text
  import opened Selection
  import opened Scoring

  /** Why `load_questions` stops the program (it prints a message and calls
      `sys.exit(1)`); `index` is the 1-based position of the item. */
  datatype LoadError =
    | NotAList
    | NotAnObject(index: nat)
    | MissingField(index: nat)
    | InvalidDifficulty(index: nat, value: Json)

  /** `value in ('easy', 'medium', 'hard')`. */
  predicate IsKnownDifficulty(value: Json)
    ensures IsKnownDifficulty(value) <==> value.Str? && Rank(value.s) < 3
  {
    value == Str("easy") || value == Str("medium") || value == Str("hard")
  }

  /** The two `setdefault` calls: `answer` becomes `null` and `difficulty`
      becomes `"easy"` only where absent; every other value is kept. */
  function WithDefaults(q: Record): (r: Record)
    ensures r.Keys == q.Keys + {"answer", "difficulty"}
    ensures r["answer"] == (if "answer" in q then q["answer"] else Null)
    ensures r["difficulty"] == (if "difficulty" in q then q["difficulty"] else Str("easy"))
    ensures forall k :: k in q ==> r[k] == q[k]
  {
    SetDefault(SetDefault(q, "answer", Null), "difficulty", Str("easy"))
  }

  /** The first check of the loop body that item number `index` fails. */
  function ItemFault(q: Json, index: nat): (r: Option<LoadError>)
    ensures r.Some? ==> !r.value.NotAList? && r.value.index == index
    ensures r.None? <==>
      q.Obj? && "category" in q.fields && "question" in q.fields
      && IsKnownDifficulty(WithDefaults(q.fields)["difficulty"])
    ensures r.Some? && q.Obj? && "category" in q.fields && "question" in q.fields ==>
      r.value == InvalidDifficulty(index, WithDefaults(q.fields)["difficulty"])
  {
    if !q.Obj? then Some(NotAnObject(index))
    else if "category" !in q.fields || "question" !in q.fields then Some(MissingField(index))
    else if !IsKnownDifficulty(WithDefaults(q.fields)["difficulty"]) then
      Some(InvalidDifficulty(index, WithDefaults(q.fields)["difficulty"]))
    else None
  }

  /** `load_questions` on the parsed document `data`. It fails unless `data`
      is a list, and otherwise at the first item that is not an object, lacks
      `category` or `question`, or has a difficulty outside easy, medium and
      hard once defaulted; on success every item is its object with the
      defaults filled in. */
  method LoadQuestions(data: Json) returns (r: Result<seq<Record>, LoadError>)
    ensures !data.Arr? ==> r == Err(NotAList)
    ensures data.Arr? ==>
      (r.Ok? <==> forall i :: 0 <= i < |data.items| ==> ItemFault(data.items[i], i + 1).None?)
    ensures r.Ok? ==> data.Arr? && |r.value| == |data.items|
    ensures r.Ok? ==> forall i :: 0 <= i < |r.value| ==>
      data.items[i].Obj? && r.value[i] == WithDefaults(data.items[i].fields)
    ensures r.Ok? ==> forall i :: 0 <= i < |r.value| ==>
      "answer" in r.value[i] && "difficulty" in r.value[i] && IsKnownDifficulty(r.value[i]["difficulty"])
    ensures r.Err? && data.Arr? ==> !r.error.NotAList?
    ensures r.Err? && !r.error.NotAList? ==>
      && data.Arr?
      && 1 <= r.error.index <= |data.items|
      && ItemFault(data.items[r.error.index - 1], r.error.index) == Some(r.error)
      && forall i :: 0 <= i < r.error.index - 1 ==> ItemFault(data.items[i], i + 1).None?
  {
    if !data.Arr? {
      return Err(NotAList);
    }
    var items := data.items;
    var loaded: seq<Record> := [];
    var i := 0;
    while i < |items|
      invariant 0 <= i <= |items| && |loaded| == i
      invariant forall k :: 0 <= k < i ==> ItemFault(items[k], k + 1).None?
      invariant forall k :: 0 <= k < i ==> items[k].Obj? && loaded[k] == WithDefaults(items[k].fields)
    {
      var q := items[i];
      if !q.Obj? {
        return Err(NotAnObject(i + 1));
      }
      if "category" !in q.fields || "question" !in q.fields {
        return Err(MissingField(i + 1));
      }
      var rec := SetDefault(q.fields, "answer", Null);
      rec := SetDefault(rec, "difficulty", Str("easy"));
      if !IsKnownDifficulty(rec["difficulty"]) {
        return Err(InvalidDifficulty(i + 1, rec["difficulty"]));
      }
      loaded := loaded + [rec];
      i := i + 1;
    }
    return Ok(loaded);
  }

  /** Once loading has validated every difficulty, `available_values` lists
      the difficulties present among easy, medium and hard in that order and
      nothing else. */
  lemma DifficultiesAfterLoad(qs: seq<Question>)
    requires forall i :: 0 <= i < |qs| ==> Rank(qs[i].difficulty) < 3
    ensures Difficulties(qs) == KnownPresent(DifficultyList(qs))
  {
    NoUnknowns(DifficultyList(qs));
  }

  /** A record that passed the difficulty check and is read as a question
      has a difficulty of rank below 3. */
  lemma WithDefaultsQuestion(q: Record)
    requires IsKnownDifficulty(WithDefaults(q)["difficulty"])
    ensures AsQuestion(WithDefaults(q)).Some? ==> Rank(AsQuestion(WithDefaults(q)).value.difficulty) < 3
  {
  }

  /** The questions read from a bank that `load_questions` accepted have
      only known difficulties, so `available_values` lists the known ones
      present, in rank order. */
  lemma LoadedDifficulties(recs: seq<Record>, qs: seq<Question>)
    requires |recs| == |qs|
    requires forall i :: 0 <= i < |recs| ==> "difficulty" in recs[i] && IsKnownDifficulty(recs[i]["difficulty"])
    requires forall i :: 0 <= i < |recs| ==> AsQuestion(recs[i]) == Some(qs[i])
    ensures Difficulties(qs) == KnownPresent(DifficultyList(qs))
  {
    forall i | 0 <= i < |qs|
      ensures Rank(qs[i].difficulty) < 3
    {
      assert recs[i]["difficulty"] == Str(qs[i].difficulty);
    }
    DifficultiesAfterLoad(qs);
  }

  /** `ask_one` once the user has typed `user`: `(None, False)` for an
      open-ended question, otherwise whether the normalised strings agree,
      with `True` for "auto-graded". */
  function AskOne(q: Question, user: string): (r: (Option<bool>, bool))
    ensures r.1 <==> IsAuto(q)
    ensures !IsAuto(q) ==> r.0 == None
    ensures IsAuto(q) ==> r.0 == Some(GradedCorrect(q, user))
  {
    if q.answer.None? then (None, false)
    else (Some(Normalize(user) == Normalize(q.answer.value)), true)
  }

  /** Grading never depends on the letter case of what is typed. */
  lemma AskOneIgnoresCase(q: Question, user: string)
    ensures AskOne(q, Lower(user)) == AskOne(q, user)
  {
    NormalizeIgnoresCase(user);
  }

  /** The asking loop of `run_quiz`: every question of `qs` is put with
      `ask_one`, and the auto-graded ones answered correctly are counted. */
  method AskAll(qs: seq<Question>, answers: seq<string>) returns (correct: nat)
    requires |answers| == |qs|
    ensures correct == CountCorrect(qs, answers)
    ensures correct <= CountAuto(qs)
  {
    correct := 0;
    var i := 0;
    while i < |qs|
      invariant 0 <= i <= |qs|
      invariant correct == CountCorrect(qs[..i], answers[..i])
    {
      var (isCorrect, isAuto) := AskOne(qs[i], answers[i]);
      if isAuto && isCorrect == Some(true) {
        correct := correct + 1;
      }
      CountCorrectPrefix(qs, answers, i);
      i := i + 1;
    }
    assert qs == qs[..|qs|] && answers == answers[..|qs|];
  }

  /** `run_quiz(qs, shuffle)` with `answers[i]` typed for the `i`-th question
      asked: shuffles `qs` in place when asked to, then counts the auto-graded
      questions and those answered correctly. */
  method RunQuiz(qs: array<Question>, shuffle: bool, draws: seq<nat>, answers: seq<string>)
      returns (correct: nat, totalAuto: nat)
    requires qs.Length <= |draws| && ValidDraws(draws)
    requires |answers| == qs.Length
    modifies qs
    ensures multiset(qs[..]) == multiset(old(qs[..]))
    ensures !shuffle ==> qs[..] == old(qs[..])
    ensures totalAuto == CountAuto(qs[..]) == CountAuto(old(qs[..]))
    ensures correct == CountCorrect(qs[..], answers)
    ensures correct <= totalAuto <= qs.Length
  {
    if shuffle {
      Shuffle(qs, draws);
    }
    CountAutoPermutation(qs[..], old(qs[..]));
    totalAuto := CountAuto(qs[..]);
    correct := AskAll(qs[..], answers);
  }

  /** `choose(prompt, options)` once the user has typed `line`: `None` for an
      empty answer, otherwise the first option equal to it ignoring case, or
      `None` ("using ALL") when no option is. */
  method Choose(options: seq<string>, line: string) returns (r: Option<string>)
    ensures Strip(line) == "" ==> r == None
    ensures r.Some? ==> r.value in options && Strip(line) != ""
    ensures r.Some? ==> FirstMatch(options, Strip(line), r.value)
    ensures r.None? && Strip(line) != "" ==> !AnyMatch(options, Strip(line))
  {
    var val := Strip(line);
    if val == "" {
      return None;
    }
    var k := 0;
    while k < |options|
      invariant 0 <= k <= |options|
      invariant forall j :: 0 <= j < k ==> Lower(options[j]) != Lower(val)
    {
      if Lower(options[k]) == Lower(val) {
        return Some(options[k]);
      }
      k := k + 1;
    }
    return None;
  }
}
