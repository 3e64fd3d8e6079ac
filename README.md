# Quizbot session engine in Dafny

Quizbot is a trivia program written as four Python scripts: two console quizzes
(`quiz_v2.py` and its near-copy `chatbot.py`), a console quiz with a category and
a difficulty filter (`quiz_v3.py`), and a Flask front end (`web_app.py`). This
project models the session engine those scripts share and proves properties
about it. The engine covers loading and checking the question bank, the answer
normaliser, the category and difficulty facets, filtering, the in-place
shuffle, grading one answer, and adding up a session's score.

Layout, one module per file:

- `common.dfy` (`Common`): `Option`/`Result`, the `Json` value a loader gets
  from `json.load`, the `Record` dict, the typed `Question` the quiz flow
  reads, and Python's `dict.setdefault`.
- `text.dfy` (`Text`): `normalize`, the same one-liner in all four scripts:
  `str.strip()`, `str.lower()` (modelled over ASCII), then deleting everything
  outside `[a-z0-9]`.
- `selection.dfy` (`Selection`): `available_values` and `filter_questions`.
  `quiz_v3.py` and `web_app.py` carry the same code for both, up to type hints,
  docstrings and quoting. The module also holds the order-preserving list
  comprehension they use, and Python's `str` ordering, which `sorted` relies on.
- `scoring.dfy` (`Scoring`): the auto-graded total, the correct count, and
  `random.shuffle` as a Fisher–Yates loop over an `array`.
- `quiz_v3.dfy` (`QuizV3`): `load_questions`, `ask_one`, `run_quiz`, `choose`.
- `quiz_v2.dfy` (`QuizV2`): `load_questions`, `choose_category`, `run_quiz`.
  `chatbot.py` has the same `choose_category` and `run_quiz`, the same code up
  to a local variable (`selected`), so these members stand for both files.
- `chatbot.dfy` (`Chatbot`): chatbot's loader. It raises instead of exiting,
  and it runs Python's `in` on whatever each item happens to be.
- `web_app.dfy` (`WebApp`): the loader that does no validation, and the
  `start_quiz` and `submit_quiz` handlers, including the score row they build.
- `scenarios.dfy` (`Scenarios`): worked examples. They include the docstring
  example `'  O( LOG n ) '` → `'ologn'`, default filling, a rejected
  difficulty, and a small bank that is filtered and scored.

User input is a parameter of each operation. The console line typed at a
prompt is `line`, the answers typed during a session are `answers[i]`, and the
submitted web form is `form`. The random choices of `random.shuffle` are the
sequence `draws`, where `draws[i]` is the value `randbelow(i + 1)` returns at
position `i`. The clock's reading is the string `now`.

Two details of the code shape the model:

- Difficulties outside easy, medium and hard all get the sort key 999, and
  Python's stable sort leaves them in the set's iteration order. The model
  lists them in ascending order.
- Only `quiz_v3.py` validates difficulty. `web_app.py` accepts any value, and
  `quiz_v2.py` and `chatbot.py` add no difficulty at all.

## Model

| member | source | states |
|---|---|---|
| Common.AsQuestion | quiz_v3.py:66-71 | a record is read as a question exactly when `category` and `question` are strings, `answer` is absent, `null` or a string, and `difficulty` is absent or a string; the question then carries those strings, an absent difficulty reads as `""`, and `answer` is `None` exactly for an absent or `null` answer |
| Common.SetDefault | quiz_v3.py:36-37 | after `setdefault` the key is present; an existing value is kept, otherwise the default is stored; no other key changes and no key is lost |
| Text.IsSpace | quiz_v3.py:16 | the characters `strip()` removes are Python's whitespace; none of them is an upper-case letter or a character the normaliser keeps |
| Text.TrimStart | quiz_v3.py:16 | the leading half of `strip()` never lengthens its input (its meaning is `Text.TrimStartPart`) |
| Text.TrimEnd | quiz_v3.py:16 | the trailing half of `strip()` never lengthens its input (its meaning is `Text.TrimEndPart`) |
| Text.Strip | quiz_v3.py:16 | `strip()` never lengthens its input; `Text.StripParts` states that it removes exactly the whitespace at both edges |
| Text.LowerChar | quiz_v3.py:16 | lower-casing one character never yields an upper-case ASCII letter, and yields a kept character exactly when the input is kept already or is an upper-case ASCII letter |
| Text.IsLowerAlnum | quiz_v3.py:16 | the class `[a-z0-9]` holds only ASCII characters that are not upper-case letters |
| Text.Lower | quiz_v3.py:16 | `lower()` keeps the length, turns each upper-case ASCII letter into the same letter in lower case, leaves every other character unchanged, and leaves no upper-case letter |
| Text.LowerIdempotent | quiz_v3.py:16 | lower-casing a lower-cased string changes nothing |
| Text.KeepLowerAlnum | quiz_v3.py:16 | `re.sub(r'[^a-z0-9]+', '', s)` never lengthens its input and leaves only `[a-z0-9]` |
| Text.Normalize | quiz_v3.py:8-16 | the normal form consists only of lower-case ASCII letters and digits |
| Text.TrimStartPart | quiz_v3.py:16 | the leading half of `strip()` removes a prefix made only of whitespace and stops at a character that is not whitespace |
| Text.TrimEndPart | quiz_v3.py:16 | the trailing half of `strip()` removes a suffix made only of whitespace and stops at a character that is not whitespace |
| Text.StripParts | quiz_v3.py:16 | the input is whitespace + `strip()`'s result + whitespace, and the result neither starts nor ends with whitespace |
| Text.NormalizeIgnoresStrip | quiz_v3.py:12-16 | normalising with or without the `strip()` step gives the same string |
| Text.NormalizeFixesNormalForm | quiz_v3.py:8-16 | a string already made of `[a-z0-9]` is its own normal form |
| Text.NormalizeIdempotent | quiz_v3.py:8-16 | normalising twice is the same as normalising once |
| Text.NormalizeIgnoresCase | quiz_v3.py:11 | lower-casing the input first never changes the normal form |
| Text.NormalizeIgnoresPunctuation | quiz_v3.py:13 | inserting any character that does not lower-case into `[a-z0-9]`, at any position, never changes the normal form |
| Selection.StrLess | quiz_v3.py:45 | Python's `<` on strings relates only different strings; the three lemmas below make it a strict total order |
| Selection.StrLessIrreflexive | quiz_v3.py:45 | Python's string order is irreflexive |
| Selection.StrLessTransitive | quiz_v3.py:45 | Python's string order is transitive |
| Selection.StrLessTotal | quiz_v3.py:45 | any two different strings are ordered one way or the other |
| Selection.SortedDistinct | quiz_v3.py:45 | `sorted(set(xs))` is strictly ascending and holds exactly the values of `xs` |
| Selection.Categories | quiz_v3.py:45 | the category facet is strictly ascending, so it has no repeats, and a value is listed exactly when some question has that category |
| Selection.Rank | quiz_v3.py:46-47 | the sort key is below 3 exactly for easy, medium and hard, and 999 for every other value |
| Selection.KnownPresent | quiz_v3.py:46-47 | the known difficulties present are listed in strictly increasing rank, and exactly those of easy, medium and hard that occur are listed |
| Selection.Difficulties | quiz_v3.py:46-47 | the difficulty facet has no repeats, is ordered by rank (easy, medium, hard, then every other value), and lists exactly the difficulties that occur |
| Selection.NoUnknowns | quiz_v3.py:47 | when every difficulty is known, no value gets rank 999 |
| Selection.Select | quiz_v3.py:54 | a comprehension's result is no longer than its input, and every element of it is accepted by the predicate |
| Selection.SelectIsOrderedSubsequence | quiz_v3.py:54 | the comprehension lists the input at strictly ascending positions, and a position is listed exactly when its element is accepted |
| Selection.SelectEverything | quiz_v3.py:54 | when the predicate accepts every element, the comprehension returns the whole list |
| Selection.SelectNonempty | web_app.py:105-107 | the selection is empty exactly when no question is accepted |
| Selection.Matches | quiz_v3.py:52-53 | `match` accepts everything when the filter value is `None`, always accepts the value itself, and rejects any actual value whose lower-case form differs from the filter's |
| Selection.FilterQuestions | quiz_v3.py:50-54 | `filter_questions` never lengthens the bank and keeps only questions that match both given values ignoring case; the converse and the order are `Selection.FilterIsOrderedSubsequence` |
| Selection.FilterIsOrderedSubsequence | quiz_v3.py:50-54 | the filter returns, in bank order, exactly the questions whose category and difficulty equal each given value, ignoring case |
| Selection.FilterWildcard | quiz_v3.py:53 | with both filters `None` the whole bank is returned unchanged |
| Selection.FilterIgnoresCase | quiz_v3.py:52-54 | lower-casing the category value, the difficulty value or both never changes the selection |
| Scoring.IsAuto | quiz_v3.py:81 | a question is auto-graded exactly when its answer is not `None` |
| Scoring.OwnAnswerCorrect | quiz_v3.py:68-71 | typing the canonical answer is graded correct exactly for an auto-graded question |
| Scoring.GradedCorrect | quiz_v3.py:68-71 | an answer can be correct only for an auto-graded question |
| Scoring.CountAuto | quiz_v3.py:81 | the auto-graded total never exceeds the number of questions |
| Scoring.CountCorrect | quiz_v3.py:82-85 | the correct count never exceeds the auto-graded total |
| Scoring.CountCorrectPrefix | quiz_v3.py:82-85 | asking one more question adds exactly that question's verdict to the count |
| Scoring.ScoreBounds | quiz_v3.py:76-86 | every session has `0 <= correct <= total_auto <= len(qs)` |
| Scoring.CountAutoIsCardinality | quiz_v3.py:81 | the auto-graded total is the number of positions whose question has a canonical answer |
| Scoring.CountCorrectIsCardinality | quiz_v3.py:82-85 | the correct count is the number of positions whose typed answer normalises to the question's canonical answer |
| Scoring.OpenEndedNeverScores | quiz_v3.py:68-70 | changing what is typed for an open-ended question never changes the score |
| Scoring.CountAutoPermutation | quiz_v3.py:78-81 | any reordering of a session leaves the auto-graded total unchanged |
| Scoring.Shuffled | quiz_v3.py:79 | the Fisher–Yates swap sequence for given draws keeps the length; `Scoring.ShuffledPermutation` proves it a permutation |
| Scoring.ShuffledPermutation | quiz_v3.py:79 | whatever values are drawn, the Fisher–Yates result is a permutation of its input with the same length |
| Scoring.Shuffle | quiz_v3.py:79 | `random.shuffle` rearranges the array in place. Afterwards it holds the swap sequence that the drawn positions select, which is a permutation of the array before |
| QuizV3.IsKnownDifficulty | quiz_v3.py:38 | a difficulty passes the check exactly when it is a string of rank below 3 under the `available_values` key |
| QuizV3.WithDefaults | quiz_v3.py:36-37 | the two defaults add `answer: null` and `difficulty: "easy"` only where absent, and keep every existing value |
| QuizV3.ItemFault | quiz_v3.py:31-40 | an item passes exactly when it is an object with `category` and `question` whose defaulted difficulty is easy, medium or hard; a fault carries the item's own position, and an object with both fields can fail only on its difficulty, carrying that value |
| QuizV3.LoadQuestions | quiz_v3.py:27-41 | a document that is not a list is rejected; otherwise loading fails at the first item (1-based) that is not an object, lacks `category` or `question`, or has a difficulty outside easy/medium/hard after defaulting; it succeeds exactly when no item fails, and then each item is its object with the defaults filled in, so every difficulty is known |
| QuizV3.DifficultiesAfterLoad | quiz_v3.py:38-47 | on a bank whose difficulties were all validated, the facet is easy, medium and hard, in that order, limited to those present |
| QuizV3.WithDefaultsQuestion | quiz_v3.py:36-40 | a record that passed the difficulty check, once read as a question, has a difficulty of rank below 3 |
| QuizV3.LoadedDifficulties | quiz_v3.py:38-47 | the questions read from records that `load_questions` accepted have only known difficulties, so `available_values` lists easy, medium and hard in that order, limited to those present |
| QuizV3.AskOne | quiz_v3.py:58-74 | an open-ended question gives `(None, False)`; an auto-graded one gives `(ok, True)`, where `ok` says whether the typed answer and the canonical answer have the same normal form |
| QuizV3.AskOneIgnoresCase | quiz_v3.py:71 | the verdict never depends on the letter case of what is typed |
| QuizV3.AskAll | quiz_v3.py:82-85 | the asking loop counts exactly the auto-graded questions answered correctly |
| QuizV3.RunQuiz | quiz_v3.py:76-86 | the questions end up a permutation of the original list, unchanged when `shuffle` is off; `total_auto` is the same before and after the shuffle; `correct` is the correct count for the questions in the order asked; `correct <= total_auto <= len(qs)` |
| QuizV3.Choose | quiz_v3.py:90-99 | an empty line gives `None`; otherwise the result is the first option equal to the stripped line ignoring case, and `None` exactly when no option is |
| QuizV2.ItemOk | quiz_v2.py:21 | an item passes only when it is an object holding both `question` and `category` |
| QuizV2.LoadQuestions | quiz_v2.py:17-25 | a document that is not a list is rejected; otherwise loading fails at the first item that is not an object with `question` and `category`; it succeeds exactly when no item fails, and then each item gains `answer: null` where it had none and nothing else changes |
| QuizV2.HasCategory | quiz_v2.py:36 | every question of exactly category `c` also matches `c` ignoring case, so the picked category's questions pass the case-insensitive filter |
| QuizV2.ChooseCategory | quiz_v2.py:27-38 | an empty or unmatched choice gives all questions labelled `ALL`; a match gives the first sorted category equal to the choice ignoring case, with every question of exactly that category, in bank order, and never an empty list |
| QuizV2.RunQuiz | quiz_v2.py:40-55 | the printed score is the correct count, and the printed total is the auto-graded total, which the score never exceeds |
| Chatbot.IsSubstring | chatbot.py:14 | `k in s` on strings holds only when `k` is no longer than `s`; `Chatbot.IsSubstringAt` gives its meaning |
| Chatbot.IsSubstringAt | chatbot.py:14 | `k in s` holds exactly when `k` equals the slice of `s` at some position |
| Chatbot.CheckItem | chatbot.py:14-17 | an object passes exactly when it has `category` and `question`, and then gains `answer: null` only where absent; a number, boolean or `null` raises `TypeError`; every error carries the item's position |
| Chatbot.LoadQuestions | chatbot.py:13-18 | loading succeeds exactly when every item passes the check, and then yields the checked items; otherwise the error is the one raised by the first failing item |
| WebApp.LoadQuestions | web_app.py:25-28 | no object is ever rejected: every object gains `answer: null` and `difficulty: "easy"` only where absent and keeps all its values; the first item that is not an object raises |
| WebApp.FormValue | web_app.py:101-102 | `get(name) or None` is `None` exactly for a missing or empty field, and otherwise the field's value |
| WebApp.Checked | web_app.py:103 | the shuffle box counts as ticked exactly when `get("shuffle") or None` would give a value |
| WebApp.StartQuiz | web_app.py:100-115 | nothing matching gives the error page; otherwise the session holds a permutation of the filtered questions (the filtered list itself when the box is unticked), together with the filter values |
| WebApp.FormAnswer | web_app.py:132 | answer `i` is the submitted field when present, and `""` when it is missing |
| WebApp.SubmitQuiz | web_app.py:124-147 | `total` is the auto-graded total, `correct` is the correct count for the submitted answers, `correct <= total <= len(qs)`, and the row records the timestamp with `Z`, the filters, the number of questions and both counts |
| Scenarios.NormalizeExample | quiz_v3.py:14 | `'  O( LOG n ) '` normalises to `'ologn'` |
| Scenarios.DefaultsExample | quiz_v3.py:36-37 | an item with no answer and no difficulty gets `null` and `"easy"` |
| Scenarios.InvalidDifficultyExample | quiz_v3.py:38-40 | an item with difficulty `"impossible"` is rejected at its own position, with that value in the error |
| Scenarios.ParisMatches | quiz_v3.py:71 | typing `paris` for the answer `Paris` grades correct |
| Scenarios.MathFilter | quiz_v3.py:50-54 | filtering a three-question bank by `"Math"` keeps its two Math questions, in order |
| Scenarios.MathFilterLowerCase | quiz_v3.py:52-54 | filtering the bank by `"math"` keeps the same two Math questions as `"Math"` |
| Scenarios.MathScore | quiz_v3.py:81-85 | answering `4` and `paris` to the two Math questions scores 2 out of 2 |
| Scenarios.TriviaSession | quiz_v3.py:50-54 | filtering the bank by `"Trivia"` keeps only its open-ended question, which scores 0 out of 0 whatever is typed |
| Scenarios.NoMatchSession | quiz_v3.py:54 | a category that no question has selects nothing |

## Left out

- File access is not modelled: `open`, `json.load`, `FileNotFoundError`, and the exit on a file that cannot be read. The loaders start from the parsed `Json` value.
- `print`, `input`, `sys.exit`, `EOFError` and `KeyboardInterrupt` are not modelled. Neither is the console `main`/`play` loop around the engine. Typed text reaches the model as parameters.
- The Flask application is not modelled: routing, templates, `home` and `show_quiz`, and the cookie session's JSON round trip. `start_quiz` returns the session content instead of storing it.
- `save_score` is not modelled, because it only appends to a log file. `submit_quiz` returns the row it would write.
- `datetime.utcnow().isoformat(timespec="seconds")` is the parameter `now`.
- Scoring.Shuffle: models the swaps `random.shuffle` performs for given draws, not the uniform distribution of those draws.
- Text.Lower and Text.LowerChar: model `str.lower()` on ASCII letters only. Python also lower-cases non-ASCII letters, and a few of those (such as the Kelvin sign) become ASCII letters that the normaliser then keeps.
- WebApp.LoadQuestions and Chatbot.LoadQuestions take the parsed list. A top-level document that is not a list is not modelled. Python iterates such a document in ways that differ by type: an empty object or string loads as is, a number, `true` or `null` raises `TypeError`, and chatbot accepts an object whose keys each contain `category`, `question` and `answer`.
- The loaders return new records instead of updating the parsed dicts in place. No caller uses the old values afterwards, so no aliasing is lost.
- The quiz flow reads questions as typed `Question` values with string fields, through `Common.AsQuestion`; a record without `difficulty` reads with the empty difficulty. A record whose `category` or `question` is missing or not a string, whose `difficulty` is present but not a string, or whose `answer` is neither `null` nor a string, is not modelled past loading. Every loader lets non-string `category`, `question` and `answer` values through, and all but quiz_v3's let any difficulty through. In web_app.py such records fail as follows:
  - a missing `category` raises `KeyError` in `available_values` (web_app.py:31);
  - a list- or object-valued `category` or `difficulty` raises `TypeError` when the set is built, and a non-string `category` next to string ones raises `TypeError` in `sorted` (web_app.py:31,33);
  - a missing or non-string `question` passes the facets and the filter, and the quiz page renders a missing question as empty text;
  - a non-string `answer` fails only in `submit_quiz`'s `normalize(ans)` (web_app.py:136);
  - any other non-string `category` or `difficulty`, such as a number or `null`, fails only when a filter on that field is given (web_app.py:37).
- Chatbot.LoadQuestions: lets a list or string item through, since Python's `in` accepts it (`Chatbot.CheckItem`). The model does not follow such an item further; chatbot's `choose_category` would raise `TypeError` on `q['category']` (chatbot.py:22).
- JSON numbers are integers, and floats are not modelled. No part of the engine reads a number.
- `submit_quiz`'s form is keyed by question position. The string key `ans_{i}` is not modelled.
- Selection.Difficulties: lists unknown difficulties in ascending order, which is one of the orders Python may produce. Its contract promises only the rank order, because the code promises no more.
