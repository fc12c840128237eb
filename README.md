# Grade calculator core in Dafny

This project models the logic behind the single page of the grade calculator
("Grade Ace"). The page keeps an ordered list of *categories*. Each category
has an id, a name, a weight and a score. Weight and score are kept as the raw
text typed into the inputs. The page offers four actions:

- add a blank category at the end of the list;
- remove a category by id, which is refused while only one category is left;
- edit one field of a category;
- calculate the final grade.

The total weight shown under the table is derived from the list. Text that is
not a number counts as 0 in that total. The calculation runs three steps and
stops at the first one that fails:

1. the total weight must be exactly 100;
2. every category, in list order, must have a numeric weight that is not
   negative and a numeric score within [0, 100];
3. the grade is the weighted sum Σ (weight / 100) · score.

A failure clears the final grade.

Modules:

- `Wrappers`: the `Option` type.
- `ParseFloat`: JavaScript's `parseFloat` for decimal literals, as a
  character-by-character scanner. It skips leading white space, reads an
  optional sign, digits, a fraction and an exponent, and keeps the longest
  prefix that forms a number. `None` stands for NaN.
- `Categories`: the list as a value. It defines the total weight (a left fold),
  removal (a filter on the id) and editing (a map that sets one field), with
  lemmas about each.
- `Calculation`: `Evaluate`, the function that specifies what a calculation
  decides, and the lemmas about it. These cover the three outcomes and the
  bounds of the grade.
- `GradeCalculator`: the class `GradeModel`. Its fields are the list, the final
  grade and the next fresh id. It has one method per handler. `Calculate` runs
  the validation as a loop with an early return.

Numbers are `real`. The test "total is 100" is exact equality on reals.

## Model

| member | source | states |
|---|---|---|
| `Categories.Blank` | src/app/page.tsx:29 | definition: the category with empty name, weight and score that the page adds (and shows on first load); `TotalWeightAddBlank` and `AddedBlankIsReported` state what it does to a calculation |
| `Categories.NumberOrZero` | src/app/page.tsx:25 | definition of `parseFloat(s) \|\| 0`; `TotalWeightIgnoresNonNumbers` and `ValidReadsAsNumbers` state what it yields |
| `Categories.TotalWeight` | src/app/page.tsx:24-26 | definition: the left fold adding each weight read with `\|\| 0`; `TotalWeightConcat`, `TotalWeightCons` and `TotalIsSum` state what it sums |
| `Categories.TotalWeightConcat` | src/app/page.tsx:24-26 | the total weight of two lists put together is the sum of their totals, so the total is the sum of every category's weight |
| `Categories.TotalWeightCons` | src/app/page.tsx:24-26 | the total is the first category's weight plus the total of the rest |
| `Categories.TotalWeightIgnoresNonNumbers` | src/app/page.tsx:24-26 | a category whose weight is not a number adds nothing to the total |
| `Categories.TotalWeightAddBlank` | src/app/page.tsx:24-30 | appending a blank category leaves the total weight unchanged |
| `GradeCalculator.GradeModel.constructor` | src/app/page.tsx:18-21 | the page starts with one blank category and no final grade, and the class invariant holds |
| `GradeCalculator.GradeModel.AddCategory` | src/app/page.tsx:28-30 | appends exactly one blank category whose id no existing category carries; the existing categories and the final grade are unchanged; the invariant (never empty, unique ids) is kept |
| `GradeCalculator.GradeModel.RemoveCategory` | src/app/page.tsx:32-42 | with one category left the list is unchanged and the outcome is `Forbidden`, whatever the id; otherwise the list becomes the filter of the old list and the outcome is `Done`; the list never becomes empty and the final grade is unchanged |
| `Categories.Removed` | src/app/page.tsx:34 | the result keeps only categories of the input whose id differs from the one removed, and keeps all of them |
| `Categories.RemovedConcat` | src/app/page.tsx:34 | removal distributes over concatenation, so the survivors keep their order |
| `Categories.RemovedAbsent` | src/app/page.tsx:34 | removing an id that no category carries changes nothing |
| `Categories.RemovedUnique` | src/app/page.tsx:33-34 | with unique ids, removing the id of the category at position k drops exactly that category and keeps the rest in order |
| `Categories.RemovedNonEmpty` | src/app/page.tsx:33-34 | with unique ids and more than one category, at most one category goes and at least one remains |
| `Categories.RemovedKeepsUnique` | src/app/page.tsx:34 | removal keeps the ids unique |
| `Categories.TotalWeightRemoved` | src/app/page.tsx:24-34 | with unique ids, removing a category lowers the total by that category's weight |
| `Categories.SameMillisecondIdsEmptyTheCollection` | src/app/page.tsx:28-34 | two categories stamped with the same clock reading pass the "more than one" guard, and removing that id empties the list |
| `Categories.WithField` | src/app/page.tsx:46 | `{ ...cat, [name]: value }`: the named field takes the new value; the id and the other two fields are unchanged |
| `Categories.Updated` | src/app/page.tsx:46 | editing keeps the length of the list |
| `GradeCalculator.GradeModel.ChangeCategory` | src/app/page.tsx:44-47 | the list becomes the map of the old list that edits the category with the id; the final grade is unchanged and the invariant is kept |
| `Categories.UpdatedAt` | src/app/page.tsx:46 | each position holds the edited category when its id matches, and the old category otherwise |
| `Categories.UpdatedKeepsIds` | src/app/page.tsx:46 | editing keeps every id in its place, so unique ids stay unique |
| `Categories.UpdatedAbsent` | src/app/page.tsx:46 | editing with an id no category carries leaves the list identical |
| `Categories.UpdatedTwice` | src/app/page.tsx:44-47 | a second edit of the same field of the same category overrides the first |
| `Categories.TotalWeightUpdatedOther` | src/app/page.tsx:44-47 | editing a name or a score leaves the total weight unchanged |
| `Categories.TotalWeightUpdatedWeight` | src/app/page.tsx:44-47 | with unique ids, setting a category's weight changes the total by the new weight minus the old one |
| `Calculation.EntryValid` | src/app/page.tsx:62-64 | definition of the range check, the negation of line 64's condition; `ValidReadsAsNumbers`, `NegativeWeightFails` and `NegativeZeroPasses` state what it accepts |
| `Calculation.Label` | src/app/page.tsx:68 | definition of `cat.name \|\| 'a category'`; `AddedBlankIsReported` and `ScoreAboveHundredExample` show both cases |
| `Calculation.Evaluate` | src/app/page.tsx:49-82 | definition: the three steps in order, stopping at the first failure; `GradedIff`, `WeightMismatchIff` and `InvalidEntryIff` characterise each outcome, and `GradeModel.Calculate` is proved to return it |
| `Calculation.FirstInvalid` | src/app/page.tsx:61-73 | the position of the first category that fails the range check; every category before it passes; none is returned exactly when all pass |
| `Calculation.GradedIff` | src/app/page.tsx:49-82 | a grade is produced exactly when the total weight is 100 and every category passes the range check |
| `Calculation.WeightMismatchIff` | src/app/page.tsx:50-57 | a weight mismatch is reported exactly when the total is not 100, and it carries that total |
| `Calculation.InvalidEntryIff` | src/app/page.tsx:61-72 | an invalid entry is reported exactly when the total is 100 and some category fails; it names a failing category (or "a category" when the name is empty) before which every category passes |
| `Calculation.ValidReadsAsNumbers` | src/app/page.tsx:62-77 | for a category that passes the range check, `parseFloat(...) \|\| 0` reads a weight of at least 0 and a score within [0, 100] |
| `Calculation.NegativeWeightFails` | src/app/page.tsx:62-64 | a weight of a minus sign followed by digits that are not all zero fails the range check |
| `Calculation.NegativeZeroPasses` | src/app/page.tsx:62-64 | a weight and score of `-0` pass the range check, because negative zero is not `< 0` |
| `Calculation.WeightsOf` | src/app/page.tsx:76 | definition: the weights of the list in order, read with `\|\| 0`; `TotalIsSum` ties their sum to the total weight |
| `Calculation.ScoresOf` | src/app/page.tsx:77 | definition: the scores of the list in order, read with `\|\| 0`; `GradeInRange` and `GradeOfEqualScores` use them |
| `Calculation.WeightedSum` | src/app/page.tsx:75-79 | definition: the fold `acc + (weight / 100) * score`; `WeightedBounds`, `WeightedUniform` and `WeightedExample` state its value |
| `Calculation.TotalIsSum` | src/app/page.tsx:24-26 | the derived total weight equals the plain sum of the weights read as numbers |
| `Calculation.WeightedBounds` | src/app/page.tsx:75-79 | with no weight negative and every score within [0, 100], the weighted sum is at least 0 and at most the sum of the weights |
| `Calculation.ContributionBounds` | src/app/page.tsx:78 | one category's contribution (w / 100) · s lies within [0, w] |
| `Calculation.WeightedUniform` | src/app/page.tsx:75-79 | when every score is s, the weighted sum is s times the sum of the weights divided by 100 |
| `Calculation.GradeInRange` | src/app/page.tsx:49-81 | a computed grade lies in [0, 100] |
| `Calculation.GradeOfEqualScores` | src/app/page.tsx:75-81 | when every category has the same score, the grade is that score, so the grade is a weighted average |
| `Calculation.AddedBlankIsReported` | src/app/page.tsx:61-72 | after adding a blank category to a list that could be graded, the next calculation reports an invalid entry named "a category" |
| `Calculation.WeightedExample` | src/app/page.tsx:49-82 | 20 % homework scored 90 and 80 % exam scored 70 are graded 74 |
| `Calculation.MismatchExample` | src/app/page.tsx:50-57 | weights 50 and 40 are reported as a mismatch with total 90 |
| `Calculation.ScoreAboveHundredExample` | src/app/page.tsx:61-72 | a score of 150 is reported as an invalid entry carrying the category's name |
| `GradeCalculator.GradeModel.Calculate` | src/app/page.tsx:49-82 | the loop returns the outcome `Evaluate` specifies; the final grade becomes the grade on success and is cleared on either failure; the list is not modified |
| `GradeCalculator.CalculateTwice` | src/app/page.tsx:49-82 | calculating twice with no edit in between gives the same outcome, leaves the final grade as the outcome sets it, and leaves the list unchanged |
| `GradeCalculator.LastCategoryIsKept` | src/app/page.tsx:32-41 | on a fresh page, removing any id is refused and the one category stays |
| `ParseFloat.Parse` | src/app/page.tsx:62-63 | definition of `parseFloat` for decimal literals, `None` for NaN; the lemmas below state what it reads |
| `ParseFloat.ParseEmpty` | src/app/page.tsx:62-64 | an empty field is not a number |
| `ParseFloat.ParseNatural` | src/app/page.tsx:62-63 | a field of decimal digits parses to the integer they spell |
| `ParseFloat.ParseNegative` | src/app/page.tsx:62-64 | a minus sign before the digits gives the negated integer; `NegativeWeightFails` and `NegativeZeroPasses` state what the range check makes of it |
| `ParseFloat.ParseDecimal` | src/app/page.tsx:62-63 | a decimal `ds.fs` parses to the integer spelled by all its digits divided by ten to the number of digits after the point |
| `ParseFloat.ParseIgnoresTrailing` | src/app/page.tsx:62-63 | text after a whole number that cannot continue it (`20%`, `20 points`) is ignored, as `parseFloat` ignores it |
| `ParseFloat.ParseSkipsSpace` | src/app/page.tsx:62-63 | leading white space does not change the parsed value |

## Left out

- Rendering, styling and the `toFixed(2)` rounding of displayed numbers: these are presentation only.
- The toast notifications: the model returns the failure as a value (`RemoveOutcome`, `Outcome`) instead of showing a toast. The titles and the message text are not modelled. The invalid-entry outcome carries the category's label, and the mismatch outcome carries the total as a number, not as formatted text.
- React's state hooks and memoisation: the state is plain fields, and the total weight is a function recomputed on demand.
- `Date.now()` ids: the clock is replaced by a counter field `nextId`, so every new id is fresh. The clock's collision case is kept as a separate lemma (see Findings).
- IEEE-754 arithmetic: weights, scores and sums are exact reals. Rounding, overflow and summation artifacts (33.34 + 33.33 + 33.33 not being exactly 100 in floating point) are not modelled.
- `ParseFloat.Parse`: the literals `Infinity`, `+Infinity` and `-Infinity` parse to `None`, not to an infinite value. So a weight `Infinity` beside a weight `100` gives a total of 100 in the model and an invalid-entry outcome, where the page computes an infinite total and reports a weight mismatch; a `type="number"` input hands such text to the handler as `""`, so this does not arise from the page's own inputs. Digit values and exponents are exact, with no range limit or rounding.
- The `min`/`max` attributes of the inputs: the browser treats them as hints, and the handlers do not enforce them.
- Adding, editing and removing leave the final grade as it was, as the handlers do. The displayed grade can therefore describe an earlier list. The model states this (`finalGrade == old(finalGrade)`) and does not invalidate the grade.
- The editing handler's field comes from the input element's `name` attribute. The model takes it as one of the three `Field` values; other attribute names cannot occur with the page's inputs.

## Findings

| source | as written | input that shows it | evidently intended | confidence | as-written member | corrected member |
|---|---|---|---|---|---|---|
| src/app/page.tsx:19, 29, 33-34 | ids come from `Date.now()`, and removal drops every category whose id matches | the first render and one "Add Category" click in the same millisecond t give `[{id: t}, {id: t}]`; removing t passes the length guard and leaves `[]` | every category has its own id, so removal drops one category and the list never becomes empty | low (a click rarely lands in the same millisecond; not executed) | `Categories.SameMillisecondIdsEmptyTheCollection` | `GradeCalculator.GradeModel.AddCategory`, `Categories.RemovedNonEmpty` |
