/**
 * What "Calculate Final Grade" decides for a given collection: the weight
 * check, then the per-category range check in collection order, then the
 * weighted sum, stopping at the first check that fails.
 */
module Calculation {
  import opened Wrappers
  import ParseFloat
  import opened Categories

  /** The result of a calculation: a grade, or the failure the user is notified of. */
  datatype Outcome =
    | Graded(grade: real)
    | WeightMismatch(total: real)    // "Total weight must be exactly 100%", with the current total
    | InvalidEntry(name: string)    // "Please check your values for ...", naming the category

  /** The name the invalid-entry notice uses for a category left unnamed. */
  const Placeholder: string := "a category"

  /** `cat.name || 'a category'`. */
  function Label(c: Category): string {
    if c.name == "" then Placeholder else c.name
  }

  /**
   * A category passes the range check when its weight and its score are both
   * numbers, the weight is not negative and the score lies in [0, 100].
   */
  predicate EntryValid(c: Category) {
    match (ParseFloat.Parse(c.weight), ParseFloat.Parse(c.score))
    case (Some(w), Some(s)) => !(w < 0.0 || s < 0.0 || s > 100.0)
    case _ => false
  }

  /** The position of the first category, in collection order, that fails the range check. */
  function FirstInvalid(cs: seq<Category>): (r: Option<nat>)
    ensures r.None? <==> forall i | 0 <= i < |cs| :: EntryValid(cs[i])
    ensures r.Some? ==> r.value < |cs| && !EntryValid(cs[r.value])
    ensures r.Some? ==> forall j | 0 <= j < r.value :: EntryValid(cs[j])
  {
    if cs == [] then None
    else if !EntryValid(cs[0]) then Some(0)
    else match FirstInvalid(cs[1..])
      case None => None
      case Some(k) => Some(k + 1)
  }

  /** The weights of the collection, in order, each read with `parseFloat(...) || 0`. */
  function WeightsOf(cs: seq<Category>): seq<real> {
    seq(|cs|, i requires 0 <= i < |cs| => NumberOrZero(cs[i].weight))
  }

  /** The scores of the collection, in order, each read with `parseFloat(...) || 0`. */
  function ScoresOf(cs: seq<Category>): seq<real> {
    seq(|cs|, i requires 0 <= i < |cs| => NumberOrZero(cs[i].score))
  }

  /** The sum of a sequence of numbers, added left to right. */
  function Sum(ws: seq<real>): real {
    if ws == [] then 0.0 else Sum(ws[..|ws| - 1]) + ws[|ws| - 1]
  }

  /** `Σ (w / 100) * s` over paired weights and scores, added left to right. */
  function Weighted(ws: seq<real>, ss: seq<real>): real
    requires |ws| == |ss|
  {
    if ws == [] then 0.0
    else
      var n := |ws| - 1;
      Weighted(ws[..n], ss[..n]) + (ws[n] / 100.0) * ss[n]
  }

  /** The weighted sum of the scores, the fold `acc + (weight / 100) * score`. */
  function WeightedSum(cs: seq<Category>): real {
    Weighted(WeightsOf(cs), ScoresOf(cs))
  }

  /** The outcome of one calculation over the collection `cs`. */
  function Evaluate(cs: seq<Category>): Outcome {
    var total := TotalWeight(cs);
    if total != 100.0 then WeightMismatch(total)
    else match FirstInvalid(cs)
      case Some(k) => InvalidEntry(Label(cs[k]))
      case None => Graded(WeightedSum(cs))
  }

  /** Every category's weight and score read as numbers within their ranges. */
  predicate AllValid(cs: seq<Category>) {
    forall i | 0 <= i < |cs| :: EntryValid(cs[i])
  }

  // ---------------------------------------------------------------------
  // What a calculation decides

  /** A grade is produced exactly when the weights total 100 and every category passes. */
  lemma GradedIff(cs: seq<Category>)
    ensures Evaluate(cs).Graded? <==> TotalWeight(cs) == 100.0 && AllValid(cs)
  {
  }

  /** A weight mismatch is reported exactly when the total is not 100, and carries that total. */
  lemma WeightMismatchIff(cs: seq<Category>)
    ensures Evaluate(cs).WeightMismatch? <==> TotalWeight(cs) != 100.0
    ensures Evaluate(cs).WeightMismatch? ==> Evaluate(cs).total == TotalWeight(cs)
  {
  }

  /**
   * An invalid entry is reported exactly when the weights total 100 and some
   * category fails; the notice names the first such category.
   */
  lemma InvalidEntryIff(cs: seq<Category>)
    ensures Evaluate(cs).InvalidEntry? <==> TotalWeight(cs) == 100.0 && !AllValid(cs)
    ensures Evaluate(cs).InvalidEntry? ==>
      exists k | 0 <= k < |cs| :: !EntryValid(cs[k]) && AllValid(cs[..k]) && Evaluate(cs).name == Label(cs[k])
  {
    if Evaluate(cs).InvalidEntry? {
      var k := FirstInvalid(cs).value;
      assert forall j | 0 <= j < k :: cs[..k][j] == cs[j];
      assert AllValid(cs[..k]);
    }
  }

  // ---------------------------------------------------------------------
  // The grade is a weighted average of the scores

  /**
   * When no weight is negative and every score lies in [0, 100], the weighted
   * sum is not negative and does not exceed the total weight.
   */
  lemma {:induction false} WeightedBounds(ws: seq<real>, ss: seq<real>)
    requires |ws| == |ss|
    requires forall i | 0 <= i < |ws| :: ws[i] >= 0.0
    requires forall i | 0 <= i < |ss| :: 0.0 <= ss[i] <= 100.0
    ensures 0.0 <= Weighted(ws, ss) <= Sum(ws)
  {
    if ws != [] {
      var n := |ws| - 1;
      var ws', ss' := ws[..n], ss[..n];
      assert 0.0 <= Weighted(ws', ss') <= Sum(ws') by {
        assert forall i | 0 <= i < n :: ws'[i] == ws[i] && ss'[i] == ss[i];
        WeightedBounds(ws', ss');
      }
      var w, s := ws[n], ss[n];
      ContributionBounds(w, s);
      assert Sum(ws) == Sum(ws') + w;
      assert Weighted(ws, ss) == Weighted(ws', ss') + (w / 100.0) * s;
    }
  }

  lemma ContributionBounds(w: real, s: real)
    requires w >= 0.0 && 0.0 <= s <= 100.0
    ensures 0.0 <= (w / 100.0) * s <= w
  {
    var a := w / 100.0;
    assert a * s <= a * 100.0;
  }

  /** When every score is `s`, the weighted sum is `s` times the sum of the weights over 100. */
  lemma {:induction false} WeightedUniform(ws: seq<real>, ss: seq<real>, s: real)
    requires |ws| == |ss|
    requires forall i | 0 <= i < |ss| :: ss[i] == s
    ensures Weighted(ws, ss) == Sum(ws) * s / 100.0
  {
    if ws != [] {
      var n := |ws| - 1;
      var ws', ss' := ws[..n], ss[..n];
      assert Weighted(ws', ss') == Sum(ws') * s / 100.0 by {
        assert forall i | 0 <= i < n :: ss'[i] == ss[i];
        WeightedUniform(ws', ss', s);
      }
      var w := ws[n];
      assert Sum(ws) == Sum(ws') + w;
      assert Weighted(ws, ss) == Weighted(ws', ss') + (w / 100.0) * s;
      Distribute(Sum(ws'), w, s);
    }
  }

  lemma Distribute(t: real, w: real, s: real)
    ensures (t + w) * s / 100.0 == t * s / 100.0 + (w / 100.0) * s
  {
  }

  /** The total weight is the sum of the weights read as numbers. */
  lemma {:induction false} TotalIsSum(cs: seq<Category>)
    ensures TotalWeight(cs) == Sum(WeightsOf(cs))
  {
    if cs != [] {
      var n := |cs| - 1;
      assert TotalWeight(cs[..n]) == Sum(WeightsOf(cs[..n])) by {
        TotalIsSum(cs[..n]);
      }
      assert WeightsOf(cs)[..n] == WeightsOf(cs[..n]);
    }
  }

  /** For a category that passes the range check, the fallback reading gives a weight of at least 0 and a score within [0, 100]. */
  lemma ValidReadsAsNumbers(c: Category)
    requires EntryValid(c)
    ensures NumberOrZero(c.weight) >= 0.0
    ensures 0.0 <= NumberOrZero(c.score) <= 100.0
  {
  }

  /** A weight written as a minus sign and digits not all zero fails the range check. */
  lemma NegativeWeightFails(c: Category, ds: string)
    requires ds != [] && ParseFloat.AllDigits(ds) && ParseFloat.DigitsValue(ds) > 0
    requires c.weight == "-" + ds
    ensures !EntryValid(c)
  {
    ParseFloat.ParseNegative(ds);
  }

  /** `parseFloat("-0")` is negative zero, which `< 0` does not catch: such a category passes. */
  lemma NegativeZeroPasses(id: Id, name: string)
    ensures EntryValid(Category(id, name, "-0", "-0"))
  {
    ParseFloat.ParseNegative("0");
    assert ParseFloat.DigitsValue("0") == 0;
  }

  /** A computed grade lies in [0, 100]. */
  lemma GradeInRange(cs: seq<Category>)
    requires Evaluate(cs).Graded?
    ensures 0.0 <= Evaluate(cs).grade <= 100.0
  {
    forall i | 0 <= i < |cs|
      ensures NumberOrZero(cs[i].weight) >= 0.0 && 0.0 <= NumberOrZero(cs[i].score) <= 100.0
    {
      ValidReadsAsNumbers(cs[i]);
    }
    WeightedBounds(WeightsOf(cs), ScoresOf(cs));
    TotalIsSum(cs);
  }

  /** When every category has the same score, the grade is that score: it is a weighted average. */
  lemma GradeOfEqualScores(cs: seq<Category>, s: real)
    requires Evaluate(cs).Graded?
    requires forall i | 0 <= i < |cs| :: NumberOrZero(cs[i].score) == s
    ensures Evaluate(cs).grade == s
  {
    WeightedUniform(WeightsOf(cs), ScoresOf(cs), s);
    TotalIsSum(cs);
  }

  // ---------------------------------------------------------------------
  // Calculation after editing

  /**
   * A blank category added to a collection that could be graded does not
   * change the total, but it fails the range check, so the next calculation
   * reports it under the placeholder name.
   */
  lemma AddedBlankIsReported(cs: seq<Category>, id: Id)
    requires Evaluate(cs).Graded?
    ensures Evaluate(cs + [Blank(id)]) == InvalidEntry(Placeholder)
  {
    var cs' := cs + [Blank(id)];
    TotalWeightAddBlank(cs, id);
    ParseFloat.ParseEmpty();
    assert !EntryValid(cs'[|cs|]);
    assert forall j | 0 <= j < |cs| :: cs'[j] == cs[j];
    var k := FirstInvalid(cs').value;
    assert k == |cs|;
  }

  // ---------------------------------------------------------------------
  // Worked examples

  /** Homework weighted 20 with score 90 and an exam weighted 80 with score 70. */
  const Semester: seq<Category> := [Category(0, "Homework", "20", "90"), Category(1, "Exam", "80", "70")]

  /** The semester above is graded 74. */
  lemma WeightedExample()
    ensures Evaluate(Semester) == Graded(74.0)
  {
    SemesterTotal();
    SemesterValid();
    SemesterSum();
  }

  lemma SemesterTotal()
    ensures TotalWeight(Semester) == 100.0
  {
    ParseFloat.ParseNatural("20");
    ParseFloat.ParseNatural("80");
    assert Semester[..1] == [Semester[0]] && Semester[..1][..0] == [];
  }

  lemma SemesterValid()
    ensures FirstInvalid(Semester) == None
  {
    ParseFloat.ParseNatural("20");
    ParseFloat.ParseNatural("80");
    ParseFloat.ParseNatural("90");
    ParseFloat.ParseNatural("70");
    assert EntryValid(Semester[0]) && EntryValid(Semester[1]);
  }

  lemma SemesterSum()
    ensures WeightedSum(Semester) == 74.0
  {
    assert WeightsOf(Semester) == [20.0, 80.0] by {
      ParseFloat.ParseNatural("20");
      ParseFloat.ParseNatural("80");
    }
    assert ScoresOf(Semester) == [90.0, 70.0] by {
      ParseFloat.ParseNatural("90");
      ParseFloat.ParseNatural("70");
    }
    WeightedPair(20.0, 80.0, 90.0, 70.0);
  }

  lemma WeightedPair(a: real, b: real, c: real, d: real)
    ensures Weighted([a, b], [c, d]) == (a / 100.0) * c + (b / 100.0) * d
  {
    assert [a, b][..1] == [a] && [c, d][..1] == [c];
    assert [a][..0] == [] && [c][..0] == [];
    assert Weighted([a], [c]) == (a / 100.0) * c;
  }

  /** Weights 50 and 40 total 90, which is reported with that total. */
  lemma MismatchExample()
    ensures Evaluate([Category(0, "Homework", "50", "90"), Category(1, "Exam", "40", "70")]) == WeightMismatch(90.0)
  {
    var cs := [Category(0, "Homework", "50", "90"), Category(1, "Exam", "40", "70")];
    ParseFloat.ParseNatural("50");
    ParseFloat.ParseNatural("40");
    assert cs[..1] == [cs[0]] && cs[..1][..0] == [];
    assert TotalWeight(cs) == 90.0;
  }

  /** A single quiz weighted 100 with score 150 is reported by name. */
  lemma ScoreAboveHundredExample()
    ensures Evaluate([Category(0, "Quiz", "100", "150")]) == InvalidEntry("Quiz")
  {
    var cs := [Category(0, "Quiz", "100", "150")];
    ParseFloat.ParseNatural("100");
    ParseFloat.ParseNatural("150");
    assert cs[..0] == [];
    assert TotalWeight(cs) == 100.0;
    assert !EntryValid(cs[0]);
  }
}
