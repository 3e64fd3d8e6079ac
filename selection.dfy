/** Facet derivation and filtering, `available_values` and
    `filter_questions`, which quiz_v3 and web_app carry as the same code up
    to type hints, docstrings and quoting,
    plus the order-preserving selection both of them and quiz_v2's
    `choose_category` build with a list comprehension. */
module Selection {
  import opened Common
  import opened Text

  // ---------- Python's ordering of str ----------

  /** `a < b` on Python strings: lexicographic by code point, a proper
      prefix coming first. */
  predicate StrLess(a: string, b: string)
    ensures StrLess(a, b) ==> a != b
  {
    if a == [] then b != []
    else if b == [] then false
    else if a[0] != b[0] then a[0] < b[0]
    else StrLess(a[1..], b[1..])
  }

  lemma {:induction false} StrLessIrreflexive(a: string)
    ensures !StrLess(a, a)
  {
    if a != [] {
      StrLessIrreflexive(a[1..]);
    }
  }

  lemma {:induction false} StrLessTransitive(a: string, b: string, c: string)
    requires StrLess(a, b) && StrLess(b, c)
    ensures StrLess(a, c)
  {
    if a != [] && b != [] && c != [] && a[0] == b[0] && b[0] == c[0] {
      StrLessTransitive(a[1..], b[1..], c[1..]);
    }
  }

  lemma {:induction false} StrLessTotal(a: string, b: string)
    requires a != b
    ensures StrLess(a, b) || StrLess(b, a)
  {
    if a != [] && b != [] && a[0] == b[0] {
      assert a == [a[0]] + a[1..] && b == [b[0]] + b[1..];
      StrLessTotal(a[1..], b[1..]);
    }
  }

  predicate StrictlyAscending(s: seq<string>)
  {
    forall i, j :: 0 <= i < j < |s| ==> StrLess(s[i], s[j])
  }

  /** Inserts `x` into a strictly ascending list unless it is already there. */
  function Insert(x: string, s: seq<string>): (r: seq<string>)
    requires StrictlyAscending(s)
    ensures StrictlyAscending(r)
    ensures forall y :: y in r <==> y == x || y in s
  {
    if s == [] then [x]
    else if x == s[0] then s
    else if StrLess(x, s[0]) then
      forall j | 0 < j < |s| ensures StrLess(x, s[j]) {
        StrLessTransitive(x, s[0], s[j]);
      }
      [x] + s
    else
      StrLessTotal(x, s[0]);
      var t := Insert(x, s[1..]);
      assert forall y :: y in t ==> StrLess(s[0], y);
      [s[0]] + t
  }

  /** `sorted(set(xs))`: the distinct values of `xs` in ascending order. */
  function SortedDistinct(xs: seq<string>): (r: seq<string>)
    ensures StrictlyAscending(r)
    ensures forall y :: y in r <==> y in xs
  {
    if xs == [] then []
    else
      var r := Insert(xs[|xs| - 1], SortedDistinct(xs[..|xs| - 1]));
      assert xs == xs[..|xs| - 1] + [xs[|xs| - 1]];
      r
  }

  /** A strictly ascending list has no repeated value. */
  lemma AscendingDistinct(s: seq<string>, i: int, j: int)
    requires StrictlyAscending(s) && 0 <= i < j < |s|
    ensures s[i] != s[j]
  {
    StrLessIrreflexive(s[i]);
  }

  // ---------- available_values ----------

  /** The `category` of every question, in bank order. */
  function CategoryList(qs: seq<Question>): (r: seq<string>)
    ensures |r| == |qs| && forall i :: 0 <= i < |qs| ==> r[i] == qs[i].category
  {
    seq(|qs|, i requires 0 <= i < |qs| => qs[i].category)
  }

  /** The `difficulty` of every question, in bank order. */
  function DifficultyList(qs: seq<Question>): (r: seq<string>)
    ensures |r| == |qs| && forall i :: 0 <= i < |qs| ==> r[i] == qs[i].difficulty
  {
    seq(|qs|, i requires 0 <= i < |qs| => qs[i].difficulty)
  }

  /** `sorted({q['category'] for q in questions})`. */
  function Categories(qs: seq<Question>): (r: seq<string>)
    ensures StrictlyAscending(r)
    ensures forall c :: c in r <==> exists i :: 0 <= i < |qs| && qs[i].category == c
  {
    var cs := CategoryList(qs);
    var r := SortedDistinct(cs);
    assert forall c :: c in cs <==> exists i :: 0 <= i < |qs| && qs[i].category == c by {
      forall c | c in cs ensures exists i :: 0 <= i < |qs| && qs[i].category == c {
        var i :| 0 <= i < |cs| && cs[i] == c;
        assert qs[i].category == c;
      }
    }
    r
  }

  /** The sort key of `available_values`: the position in
      `('easy', 'medium', 'hard')`, or 999 for any other value. */
  function Rank(d: string): (r: nat)
    ensures r < 3 <==> d == "easy" || d == "medium" || d == "hard"
    ensures r < 3 || r == 999
  {
    if d == "easy" then 0
    else if d == "medium" then 1
    else if d == "hard" then 2
    else 999
  }

  /** The values of `ds` outside the three known difficulties, in order. */
  function Unknowns(ds: seq<string>): (r: seq<string>)
    ensures forall d :: d in r <==> d in ds && Rank(d) == 999
  {
    if ds == [] then []
    else
      assert ds == ds[..|ds| - 1] + [ds[|ds| - 1]];
      Unknowns(ds[..|ds| - 1]) + (if Rank(ds[|ds| - 1]) == 999 then [ds[|ds| - 1]] else [])
  }

  /** A list of known difficulties has no unknown ones. */
  lemma {:induction false} NoUnknowns(ds: seq<string>)
    requires forall i :: 0 <= i < |ds| ==> Rank(ds[i]) < 3
    ensures Unknowns(ds) == []
  {
    if ds != [] {
      NoUnknowns(ds[..|ds| - 1]);
    }
  }

  /** The known difficulties that occur in `ds`, in rank order. */
  function KnownPresent(ds: seq<string>): (r: seq<string>)
    ensures forall i, j :: 0 <= i < j < |r| ==> Rank(r[i]) < Rank(r[j])
    ensures forall i :: 0 <= i < |r| ==> Rank(r[i]) < 3
    ensures forall d :: d in r <==> d in ds && Rank(d) < 3
  {
    (if "easy" in ds then ["easy"] else [])
    + (if "medium" in ds then ["medium"] else [])
    + (if "hard" in ds then ["hard"] else [])
  }

  /** Known difficulties in rank order followed by distinct unknown ones
      form a list that is distinct and ordered by rank. */
  lemma RankedConcat(known: seq<string>, unknown: seq<string>)
    requires forall i, j :: 0 <= i < j < |known| ==> Rank(known[i]) < Rank(known[j])
    requires forall i :: 0 <= i < |known| ==> Rank(known[i]) < 3
    requires forall y :: y in unknown ==> Rank(y) == 999
    requires StrictlyAscending(unknown)
    ensures forall i, j :: 0 <= i < j < |known + unknown| ==> (known + unknown)[i] != (known + unknown)[j]
    ensures forall i, j :: 0 <= i < j < |known + unknown| ==> Rank((known + unknown)[i]) <= Rank((known + unknown)[j])
  {
    var r := known + unknown;
    forall i, j | 0 <= i < j < |r| ensures r[i] != r[j] && Rank(r[i]) <= Rank(r[j]) {
      if i >= |known| {
        AscendingDistinct(unknown, i - |known|, j - |known|);
        assert r[i] in unknown && r[j] in unknown;
      } else if j >= |known| {
        assert r[j] in unknown;
      }
    }
  }

  /** The values of a bank's difficulty list are the questions' difficulties. */
  lemma DifficultyValues(qs: seq<Question>)
    ensures forall d :: d in DifficultyList(qs) <==> exists i :: 0 <= i < |qs| && qs[i].difficulty == d
  {
    var ds := DifficultyList(qs);
    forall d | d in ds ensures exists i :: 0 <= i < |qs| && qs[i].difficulty == d {
      var i :| 0 <= i < |ds| && ds[i] == d;
      assert qs[i].difficulty == d;
    }
  }

  /** Known difficulties followed by unknown ones are all the values of `ds`. */
  lemma RankedMembers(ds: seq<string>)
    ensures forall d :: d in KnownPresent(ds) + SortedDistinct(Unknowns(ds)) <==> d in ds
  {
    var known, unknown := KnownPresent(ds), SortedDistinct(Unknowns(ds));
    forall d ensures d in known + unknown <==> d in ds {
      assert Rank(d) < 3 || Rank(d) == 999;
    }
  }

  /** `sorted(set(difficulties), key=rank)`. Python's sort is stable and the
      set's iteration order is unspecified, so the values of rank 999 may come
      in any order; the model lists them in ascending order, which is one of
      the orders Python can produce. */
  function Difficulties(qs: seq<Question>): (r: seq<string>)
    ensures forall i, j :: 0 <= i < j < |r| ==> r[i] != r[j]
    ensures forall i, j :: 0 <= i < j < |r| ==> Rank(r[i]) <= Rank(r[j])
    ensures forall d :: d in r <==> exists i :: 0 <= i < |qs| && qs[i].difficulty == d
  {
    var ds := DifficultyList(qs);
    var known := KnownPresent(ds);
    var unknown := SortedDistinct(Unknowns(ds));
    RankedConcat(known, unknown);
    DifficultyValues(qs);
    RankedMembers(ds);
    known + unknown
  }

  // ---------- order-preserving selection ----------

  /** `[q for q in s if keep(q)]`. */
  function Select(s: seq<Question>, keep: Question -> bool): (r: seq<Question>)
    ensures |r| <= |s|
    ensures forall k :: 0 <= k < |r| ==> keep(r[k])
  {
    if s == [] then []
    else
      assert s == s[..|s| - 1] + [s[|s| - 1]];
      Select(s[..|s| - 1], keep) + (if keep(s[|s| - 1]) then [s[|s| - 1]] else [])
  }

  /** The positions of `s` whose question `keep` accepts, ascending. */
  function MatchIndices(s: seq<Question>, keep: Question -> bool): (ix: seq<nat>)
  {
    if s == [] then []
    else MatchIndices(s[..|s| - 1], keep) + (if keep(s[|s| - 1]) then [|s| - 1] else [])
  }

  /** The matching positions are ascending positions of `s`, and a position
      is listed exactly when `keep` accepts its question. */
  lemma {:induction false} MatchIndicesExact(s: seq<Question>, keep: Question -> bool)
    ensures var ix := MatchIndices(s, keep);
      && (forall k :: 0 <= k < |ix| ==> ix[k] < |s|)
      && (forall k, l :: 0 <= k < l < |ix| ==> ix[k] < ix[l])
      && (forall i :: 0 <= i < |s| ==> (keep(s[i]) <==> i in ix))
  {
    if s != [] {
      var n := |s| - 1;
      var s0 := s[..n];
      MatchIndicesExact(s0, keep);
      var ix0 := MatchIndices(s0, keep);
      var tail: seq<nat> := if keep(s[n]) then [n] else [];
      assert MatchIndices(s, keep) == ix0 + tail;
      forall i | 0 <= i < n ensures s0[i] == s[i] { }
    }
  }

  /** The selection lists `s` at the matching positions. */
  lemma {:induction false} SelectAtIndices(s: seq<Question>, keep: Question -> bool)
    ensures var r, ix := Select(s, keep), MatchIndices(s, keep);
      && |ix| == |r|
      && (forall k :: 0 <= k < |ix| ==> ix[k] < |s| && r[k] == s[ix[k]])
  {
    MatchIndicesExact(s, keep);
    if s != [] {
      var n := |s| - 1;
      var s0 := s[..n];
      SelectAtIndices(s0, keep);
      MatchIndicesExact(s0, keep);
      var ix0, r0 := MatchIndices(s0, keep), Select(s0, keep);
      assert forall k :: 0 <= k < |ix0| ==> s0[ix0[k]] == s[ix0[k]];
      if keep(s[n]) {
        assert Select(s, keep) == r0 + [s[n]];
        assert MatchIndices(s, keep) == ix0 + [n];
      } else {
        assert Select(s, keep) == r0;
        assert MatchIndices(s, keep) == ix0;
      }
    }
  }

  /** The selection is exactly the questions of `s` that `keep` accepts, in
      their original relative order: it lists `s` at the ascending positions
      `ix`, and a position is in `ix` exactly when `keep` accepts it. */
  lemma SelectIsOrderedSubsequence(s: seq<Question>, keep: Question -> bool)
    ensures var r, ix := Select(s, keep), MatchIndices(s, keep);
      && |ix| == |r|
      && (forall k :: 0 <= k < |ix| ==> ix[k] < |s| && r[k] == s[ix[k]])
      && (forall k, l :: 0 <= k < l < |ix| ==> ix[k] < ix[l])
      && (forall i :: 0 <= i < |s| ==> (keep(s[i]) <==> i in ix))
  {
    MatchIndicesExact(s, keep);
    SelectAtIndices(s, keep);
  }

  /** A selection whose predicate accepts everything is the whole list. */
  lemma {:induction false} SelectEverything(s: seq<Question>, keep: Question -> bool)
    requires forall i :: 0 <= i < |s| ==> keep(s[i])
    ensures Select(s, keep) == s
  {
    if s != [] {
      var n := |s| - 1;
      var s0 := s[..n];
      assert forall i :: 0 <= i < |s0| ==> keep(s0[i]) by {
        forall i | 0 <= i < |s0| ensures keep(s0[i]) {
          assert s0[i] == s[i];
        }
      }
      SelectEverything(s0, keep);
      assert Select(s, keep) == s0 + [s[n]];
      assert s == s0 + [s[n]];
    }
  }

  /** Two predicates that agree on the list select the same questions. */
  lemma {:induction false} SelectAgreeing(s: seq<Question>, p: Question -> bool, q: Question -> bool)
    requires forall i :: 0 <= i < |s| ==> p(s[i]) == q(s[i])
    ensures Select(s, p) == Select(s, q)
  {
    if s != [] {
      SelectAgreeing(s[..|s| - 1], p, q);
    }
  }

  /** The selection is nonempty exactly when some question is accepted. */
  lemma SelectNonempty(s: seq<Question>, keep: Question -> bool)
    ensures Select(s, keep) != [] <==> exists i :: 0 <= i < |s| && keep(s[i])
  {
    SelectIsOrderedSubsequence(s, keep);
    var ix := MatchIndices(s, keep);
    if i :| 0 <= i < |s| && keep(s[i]) {
      assert i in ix;
    }
    if Select(s, keep) != [] {
      assert keep(s[ix[0]]);
    }
  }

  // ---------- picking an option from typed text ----------

  /** Some option equals `val` ignoring case. */
  predicate AnyMatch(options: seq<string>, val: string)
  {
    exists k :: 0 <= k < |options| && Lower(options[k]) == Lower(val)
  }

  /** `opt` is the first option equal to `val` ignoring case. */
  predicate FirstMatch(options: seq<string>, val: string, opt: string)
  {
    exists k ::
      && 0 <= k < |options|
      && options[k] == opt
      && Lower(opt) == Lower(val)
      && forall j :: 0 <= j < k ==> Lower(options[j]) != Lower(val)
  }

  // ---------- filter_questions ----------

  /** `val is None or val.lower() == actual.lower()`. */
  predicate Matches(val: Option<string>, actual: string)
    ensures val.None? ==> Matches(val, actual)
    ensures val == Some(actual) ==> Matches(val, actual)
    ensures val.Some? && Lower(val.value) != Lower(actual) ==> !Matches(val, actual)
  {
    val.None? || Lower(val.value) == Lower(actual)
  }

  /** The predicate `filter_questions` keeps questions by. */
  function FilterBy(category: Option<string>, difficulty: Option<string>): Question -> bool
  {
    (q: Question) => Matches(category, q.category) && Matches(difficulty, q.difficulty)
  }

  /** `filter_questions(questions, category, difficulty)`. */
  function FilterQuestions(qs: seq<Question>, category: Option<string>, difficulty: Option<string>): (r: seq<Question>)
    ensures |r| <= |qs|
    ensures forall k :: 0 <= k < |r| ==> Matches(category, r[k].category) && Matches(difficulty, r[k].difficulty)
  {
    Select(qs, FilterBy(category, difficulty))
  }

  /** The filter returns exactly the questions whose category and difficulty
      equal every given filter value ignoring case, in bank order. */
  lemma FilterIsOrderedSubsequence(qs: seq<Question>, category: Option<string>, difficulty: Option<string>)
    ensures var r, ix := FilterQuestions(qs, category, difficulty), MatchIndices(qs, FilterBy(category, difficulty));
      && |ix| == |r|
      && (forall k :: 0 <= k < |ix| ==> ix[k] < |qs| && r[k] == qs[ix[k]])
      && (forall k, l :: 0 <= k < l < |ix| ==> ix[k] < ix[l])
      && (forall i :: 0 <= i < |qs| ==>
            (i in ix <==> Matches(category, qs[i].category) && Matches(difficulty, qs[i].difficulty)))
  {
    SelectIsOrderedSubsequence(qs, FilterBy(category, difficulty));
  }

  /** With no filter value the whole bank comes back unchanged. */
  lemma FilterWildcard(qs: seq<Question>)
    ensures FilterQuestions(qs, None, None) == qs
  {
    SelectEverything(qs, FilterBy(None, None));
  }

  /** A filter value lower-cased, when there is one. */
  function LowerOpt(v: Option<string>): Option<string>
  {
    if v.None? then None else Some(Lower(v.value))
  }

  /** Only the lower-cased filter values matter. */
  lemma FilterIgnoresCase(qs: seq<Question>, category: Option<string>, difficulty: Option<string>)
    ensures FilterQuestions(qs, category, difficulty)
         == FilterQuestions(qs, LowerOpt(category), LowerOpt(difficulty))
  {
    if category.Some? {
      LowerIdempotent(category.value);
    }
    if difficulty.Some? {
      LowerIdempotent(difficulty.value);
    }
    SelectAgreeing(qs, FilterBy(category, difficulty), FilterBy(LowerOpt(category), LowerOpt(difficulty)));
  }
}
