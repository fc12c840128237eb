/**
 * The grade calculator page's state: the category collection and the last
 * computed final grade, with the handlers the page wires to its buttons and
 * inputs. Each handler replaces the collection with a new one built from the
 * old, as the page does through its state setter; `Calculate` runs the
 * validation loop and then sets or clears the final grade.
 */
module GradeCalculator {
  import opened Wrappers
  import ParseFloat
  import opened Categories
  import opened Calculation

  /** What a removal request leads to: done, or refused with the "Action Forbidden" notice. */
  datatype RemoveOutcome = Done | Forbidden

  class GradeModel {
    var categories: seq<Category>
    var finalGrade: Option<real>
    /** The id the next added category receives; every id in use is smaller. */
    var nextId: Id

    /**
     * The collection is never empty, its ids are unique and all below
     * `nextId`, and a final grade, when there is one, lies in [0, 100].
     */
    ghost predicate Valid()
      reads this
    {
      |categories| >= 1
      && UniqueIds(categories)
      && (forall i | 0 <= i < |categories| :: categories[i].id < nextId)
      && (finalGrade.Some? ==> 0.0 <= finalGrade.value <= 100.0)
    }

    /** The page on first load: one blank category and no grade. */
    constructor ()
      ensures Valid()
      ensures categories == [Blank(0)] && finalGrade == None
    {
      categories := [Blank(0)];
      finalGrade := None;
      nextId := 1;
    }

    /** "Add Category": appends a blank category with a fresh id. */
    method AddCategory()
      requires Valid()
      modifies this
      ensures Valid()
      ensures categories == old(categories) + [Blank(old(nextId))]
      ensures !HasId(old(categories), old(nextId))
      ensures finalGrade == old(finalGrade)
    {
      categories := categories + [Blank(nextId)];
      nextId := nextId + 1;
    }

    /**
     * The remove button of the category `id`: refused while only one
     * category is left, otherwise every category with that id is dropped.
     */
    method RemoveCategory(id: Id) returns (outcome: RemoveOutcome)
      requires Valid()
      modifies this
      ensures Valid()
      ensures outcome == if |old(categories)| > 1 then Done else Forbidden
      ensures categories == if outcome == Done then Removed(old(categories), id) else old(categories)
      ensures finalGrade == old(finalGrade) && nextId == old(nextId)
    {
      if |categories| > 1 {
        RemovedNonEmpty(categories, id);
        RemovedKeepsUnique(categories, id);
        categories := Removed(categories, id);
        outcome := Done;
      } else {
        outcome := Forbidden;
      }
    }

    /** Typing `value` into the field `field` of the category `id`. */
    method ChangeCategory(id: Id, field: Field, value: string)
      requires Valid()
      modifies this
      ensures Valid()
      ensures categories == Updated(old(categories), id, field, value)
      ensures finalGrade == old(finalGrade) && nextId == old(nextId)
    {
      UpdatedKeepsIds(categories, id, field, value);
      categories := Updated(categories, id, field, value);
    }

    /**
     * "Calculate Final Grade": checks the total weight, then each category in
     * turn, stopping at the first failure; on success records the weighted
     * sum as the final grade, on failure clears it. The collection is not
     * touched.
     */
    method Calculate() returns (result: Outcome)
      requires Valid()
      modifies this
      ensures Valid()
      ensures result == Evaluate(old(categories))
      ensures finalGrade == if result.Graded? then Some(result.grade) else None
      ensures categories == old(categories) && nextId == old(nextId)
    {
      var total := TotalWeight(categories);
      if total != 100.0 {
        finalGrade := None;
        return WeightMismatch(total);
      }
      for i := 0 to |categories|
        invariant forall j | 0 <= j < i :: EntryValid(categories[j])
      {
        var cat := categories[i];
        var weight := ParseFloat.Parse(cat.weight);
        var score := ParseFloat.Parse(cat.score);
        if weight.None? || score.None? || weight.value < 0.0 || score.value < 0.0 || score.value > 100.0 {
          assert !EntryValid(cat);
          finalGrade := None;
          return InvalidEntry(Label(cat));
        }
      }
      var grade := WeightedSum(categories);
      GradeInRange(categories);
      finalGrade := Some(grade);
      return Graded(grade);
    }
  }

  /** Calculating twice with no edit in between gives the same result and the same final grade. */
  method CalculateTwice(m: GradeModel) returns (first: Outcome, second: Outcome)
    requires m.Valid()
    modifies m
    ensures first == second
    ensures m.finalGrade == if first.Graded? then Some(first.grade) else None
    ensures m.categories == old(m.categories)
  {
    first := m.Calculate();
    var grade := m.finalGrade;
    second := m.Calculate();
    assert m.finalGrade == grade;
  }

  /** On a fresh page the only category cannot be removed, whatever id is asked for. */
  method LastCategoryIsKept(id: Id) returns (outcome: RemoveOutcome, count: nat)
    ensures outcome == Forbidden && count == 1
  {
    var m := new GradeModel();
    outcome := m.RemoveCategory(id);
    count := |m.categories|;
  }
}
