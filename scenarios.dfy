/** Worked examples: the docstring example of `normalize` and small banks
    run through loading, filtering and scoring. */
module Scenarios {
  import opened Common
  import opened Text
  import opened Selection
  import opened Scoring
  import QuizV3

  lemma KeepHead()
    ensures KeepLowerAlnum("  o( ") == "o"
  {
    assert KeepLowerAlnum(" ") == "";
    assert KeepLowerAlnum("( ") == "";
    assert KeepLowerAlnum("o( ") == "o";
    assert KeepLowerAlnum(" o( ") == "o";
  }

  lemma KeepTail()
    ensures KeepLowerAlnum(" n ) ") == "n"
  {
    assert KeepLowerAlnum(" ") == "";
    assert KeepLowerAlnum(") ") == "";
    assert KeepLowerAlnum(" ) ") == "";
    assert KeepLowerAlnum("n ) ") == "n";
  }

  lemma KeepExample(s: string)
    requires s == "  o( log n ) "
    ensures KeepLowerAlnum(s) == "ologn"
  {
    assert s == "  o( " + "log" + " n ) ";
    KeepHead();
    KeepTail();
    KeepFixes("log");
    KeepAppend("  o( " + "log", " n ) ");
    KeepAppend("  o( ", "log");
  }

  lemma LowerExample(text: string)
    requires text == "  O( LOG n ) "
    ensures Lower(text) == "  o( log n ) "
  {
    var l := Lower(text);
    assert l[2] == 'o' && l[5] == 'l' && l[6] == 'o' && l[7] == 'g';
  }

  /** The docstring example of `normalize`: `'  O( LOG n ) '` gives `'ologn'`. */
  lemma NormalizeExample(text: string)
    requires text == "  O( LOG n ) "
    ensures Normalize(text) == "ologn"
  {
    NormalizeIgnoresStrip(text);
    LowerExample(text);
    KeepExample(Lower(text));
  }

  /** An item without `answer` and `difficulty` gets `null` and `"easy"`. */
  lemma DefaultsExample()
    ensures QuizV3.WithDefaults(map["category" := Str("Math"), "question" := Str("2+2?")])
         == map["category" := Str("Math"), "question" := Str("2+2?"),
                "answer" := Null, "difficulty" := Str("easy")]
  {
  }

  /** An item whose difficulty is `"impossible"` is rejected at its position. */
  lemma InvalidDifficultyExample()
    ensures QuizV3.ItemFault(
              Obj(map["category" := Str("Math"), "question" := Str("2+2?"), "difficulty" := Str("impossible")]), 3)
         == Some(QuizV3.InvalidDifficulty(3, Str("impossible")))
  {
  }

  function Bank(): seq<Question>
  {
    [ Question("Math", "2+2?", Some("4"), "easy"),
      Question("Math", "Capital of France?", Some("Paris"), "medium"),
      Question("Trivia", "Your favorite color?", None, "easy") ]
  }

  lemma LowerParis()
    ensures Lower("Paris") == "paris"
  {
    var l := Lower("Paris");
    assert l[0] == 'p';
  }

  /** Typing `paris` for the answer `Paris` is graded correct. */
  lemma ParisMatches()
    ensures Normalize("paris") == Normalize("Paris")
  {
    LowerParis();
    NormalizeIgnoresCase("Paris");
  }

  /** Filtering the bank by `"Math"` keeps the two Math questions, in order. */
  lemma MathFilter()
    ensures FilterQuestions(Bank(), Some("Math"), None) == Bank()[..2]
  {
    var b := Bank();
    var keep := FilterBy(Some("Math"), None);
    assert keep(b[0]) && keep(b[1]);
    assert !keep(b[2]) by {
      assert Lower("Math")[0] == 'm' && Lower("Trivia")[0] == 't';
    }
    assert b[..3] == b && b[..3][..2] == b[..2];
    SelectEverything(b[..2], keep);
  }

  /** The filter ignores case: `"math"` selects the same two questions. */
  lemma MathFilterLowerCase()
    ensures FilterQuestions(Bank(), Some("math"), None) == Bank()[..2]
  {
    assert Lower("Math") == "math" by {
      var l := Lower("Math");
      assert l[0] == 'm';
    }
    FilterIgnoresCase(Bank(), Some("Math"), None);
    FilterIgnoresCase(Bank(), Some("math"), None);
    MathFilter();
  }

  /** The answers `"4"` and `"paris"` to the two Math questions score 2
      out of 2. */
  lemma MathScore()
    ensures CountAuto(Bank()[..2]) == 2
    ensures CountCorrect(Bank()[..2], ["4", "paris"]) == 2
  {
    var b := Bank();
    ParisMatches();
    var s, a := b[..2], ["4", "paris"];
    assert s[..1] == [b[0]] && a[..1] == ["4"];
    assert [b[0]][..0] == [];
    assert GradedCorrect(b[0], "4") && GradedCorrect(b[1], "paris");
  }

  /** Filtering the bank by `"Trivia"` keeps its one open-ended question,
      which is accepted whatever is typed and scores 0 out of 0. */
  lemma TriviaSession(typed: string)
    ensures FilterQuestions(Bank(), Some("Trivia"), None) == [Bank()[2]]
    ensures CountAuto([Bank()[2]]) == 0
    ensures CountCorrect([Bank()[2]], [typed]) == 0
  {
    var b := Bank();
    var keep := FilterBy(Some("Trivia"), None);
    assert keep(b[2]);
    assert !keep(b[0]) && !keep(b[1]) by {
      assert Lower("Trivia")[0] == 't' && Lower("Math")[0] == 'm';
    }
    assert b[..2] == b[..2][..1] + [b[1]];
    assert b[..2][..1] == [b[0]] && [b[0]][..0] == [];
    assert b == b[..2] + [b[2]];
    assert Select(b[..2], keep) == [];
    assert [Bank()[2]][..0] == [];
  }

  /** A category nobody has selects nothing; that is not an error. */
  lemma NoMatchSession()
    ensures FilterQuestions(Bank(), Some("Nonexistent"), None) == []
  {
    var b := Bank();
    var keep := FilterBy(Some("Nonexistent"), None);
    assert !keep(b[0]) && !keep(b[1]) && !keep(b[2]) by {
      assert Lower("Nonexistent")[0] == 'n';
      assert Lower("Math")[0] == 'm' && Lower("Trivia")[0] == 't';
    }
    SelectNonempty(b, keep);
  }
}
