# Grade calculator engine in Dafny

This project models the calculation engine of a grade tracker for vocational
qualifications. The engine has three parts:

- **Points engine** (`calculatePointsForUnit`). It maps a unit's guided
  learning hours (GLH), kind (Internal or External) and grade (U, NP, P, M, D)
  to integer points. It uses the fixed points table when the table has a row
  for that GLH. Otherwise it uses a fallback formula: GLH / 10 times a
  grade- and kind-specific multiplier, rounded to the nearest integer.
- **Qualification evaluator** (`calculateQualification`). It sums the unit
  points. It then walks the qualification's grade-boundary table in order,
  keeping the last boundary met and stopping at the first one not met. The
  result is the total, the achieved grade label, its admission (UCAS) points,
  and the next boundary with the points still needed.
- **Template/grade join** (`mergeUnitsAndGrades`). It joins a course's unit
  templates with one student's grade map and optional lock map. A missing
  grade becomes U and a missing lock becomes unlocked.

Files:

- `types.dfy` (module `Types`): unit kinds, grades and their rank order, unit
  templates, graded units, qualification sizes, boundaries and results.
- `constants.dfy` (module `Constants`): the points table and the four
  boundary tables as immutable constants, with lemmas about their shape.
- `calculator.dfy` (module `Calculator`): the three operations.
  `calculateQualification` is the method `CalculateQualification`. Its two
  steps are the methods `SumPoints` (the `reduce`) and `ScanBoundaries` (the
  `for` loop with `break`). Both are proved equal to independent reference
  definitions: `TotalPoints` for the sum, and `Evaluate`/`FirstUnmet` for the
  scan.
- `properties.dfy` (module `Properties`): lemmas that relate the operations.
  They cover calibration of the fallback against the table, monotonicity in
  the grade, order independence of the total, correctness of the boundary
  scan, and the default filling of the join.

Numbers are exact. The fallback multipliers 1.666, 2.666 and 4.0 are exact
decimals (`real`). `Math.round` is modelled as `floor(x + 1/2)`, which is its
definition for every real number. GLH is a natural number.

The fallback multipliers reproduce the points table on every Internal row and
on the 120 GLH External row. The 60 and 90 GLH External rows use smaller
ratios (NP 4 and 6 where the formula would give 6 and 9). This does not
matter in practice, because the table takes precedence on those tiers.

## Model

| member | source | states |
|---|---|---|
| Constants.TableLookup | services/calculatorService.ts:8-10 | the three-level lookup of (GLH, kind, grade) succeeds exactly for GLH 60, 90 and 120, so every standard entry is defined |
| Constants.TableCoversTiers | constants.ts:5-18 | the points table has rows for exactly GLH 60, 90 and 120, and each row covers both kinds and all five grades |
| Constants.PointTableShape | constants.ts:7-16 | in every table row U scores 0, Internal NP scores 0, every entry is non-negative, and points never decrease in the order U, NP, P, M, D |
| Constants.StepsAscendImpliesAscending | constants.ts:25-59 | a boundary list that rises at every neighbouring step rises between any two rows, in minimum points and in UCAS points |
| Constants.BoundaryTablesAscend | constants.ts:26-58 | each of the four boundary tables is strictly ascending in minimum points and strictly ascending in UCAS points |
| Constants.BoundaryTableSizes | constants.ts:26-58 | the boundary tables have 4, 4, 7 and 10 rows for Extended Certificate, Foundation Diploma, Diploma and Extended Diploma |
| Constants.Boundaries | constants.ts:25-59 | every boundary table is non-empty and all its minimums and UCAS values are positive |
| Calculator.Multiplier | services/calculatorService.ts:14-24 | the fallback multiplier is 0 for U and for Internal NP, at least 1 for every other grade, and never above 4 |
| Calculator.RoundHalfUp | services/calculatorService.ts:26 | the rounded value is the integer within one half of the input, with halves going up |
| Calculator.FallbackPoints | services/calculatorService.ts:12-26 | the fallback score is non-negative and is the integer nearest to GLH / 10 times the multiplier |
| Calculator.PointsForUnit | services/calculatorService.ts:4-27 | a unit's points are never negative; grade U scores 0 for both kinds and any GLH, and Internal NP scores 0 |
| Calculator.TotalPoints | services/calculatorService.ts:30 | the total is non-negative and at least the points of every single unit |
| Calculator.SumPoints | services/calculatorService.ts:30 | the left-to-right accumulation equals the sum of the per-unit points |
| Calculator.StopIsUnique | services/calculatorService.ts:41-54 | the loop can stop at only one index: the one where every earlier boundary is met and the boundary there, if any, is not |
| Calculator.FirstUnmet | services/calculatorService.ts:41-54 | the computed stop index has every earlier boundary met and the boundary at it, if any, unmet |
| Calculator.Evaluate | services/calculatorService.ts:35-61 | the result carries the total; at the scan's stop index the next boundary is the boundary there with minimum minus total as points needed (positive), or absent iff every boundary is met; the grade and UCAS points are those of the boundary just before the stop, or "U" and 0 when the first boundary is unmet |
| Calculator.ScanBoundaries | services/calculatorService.ts:35-61 | the loop with early exit computes exactly the reference result for the given total and table |
| Calculator.CalculateQualification | services/calculatorService.ts:29-62 | the result is the reference evaluation of the units' summed points against the qualification's boundary table |
| Calculator.MergeUnitsAndGrades | services/calculatorService.ts:65-75 | one unit per template, in order, with id, name, GLH and kind unchanged; the grade is the recorded one or U; the unit is locked iff a lock map exists and maps its id to true |
| Properties.PointsOnStandardTiers | services/calculatorService.ts:8-10 | for GLH 60, 90 and 120 the points are exactly the table entry for (GLH, kind, grade) |
| Properties.PointsForCustomGlh | services/calculatorService.ts:12-26 | for any other GLH the points are the integer nearest to GLH / 10 times the multiplier |
| Properties.TableExamples | constants.ts:7-16 | GLH 60 Internal D scores 16, and GLH 120 External NP scores 12 |
| Properties.FallbackMatchesTable | services/calculatorService.ts:15-23 | on every Internal row and on the 120 GLH External row the fallback formula reproduces the table entry for all five grades |
| Properties.FallbackDiffersFromSmallExternalRows | constants.ts:8 | at GLH 60 External the formula would give NP 6 and P 10 where the table has 4 and 6 |
| Properties.PointsAt360 | services/calculatorService.ts:14-26 | at GLH 360 Internal scores P 36, M 60, D 96 and External scores NP 36, P 60, M 96, D 144 |
| Properties.NearestIntegerIsUnique | services/calculatorService.ts:26 | at most one integer lies within one half of a real, so the rounding result is determined |
| Properties.RoundHalfUpMonotone | services/calculatorService.ts:26 | rounding preserves the order of its inputs |
| Properties.MultiplierMonotone | services/calculatorService.ts:15-23 | a higher grade never has a lower fallback multiplier, for either kind |
| Properties.FallbackMonotone | services/calculatorService.ts:14-26 | the fallback score never decreases when the grade or the GLH rises |
| Properties.PointsMonotoneInGrade | services/calculatorService.ts:4-27 | of two units with the same GLH and kind, the higher grade never scores fewer points |
| Properties.TotalPointsAppend | services/calculatorService.ts:30 | appending a unit adds exactly its points to the total |
| Properties.TotalPointsRemove | services/calculatorService.ts:30 | the total is one unit's points plus the total of all the others |
| Properties.TotalPointsPermutation | services/calculatorService.ts:30 | any permutation of the unit list gives the same total |
| Properties.TotalPointsMonotone | services/calculatorService.ts:30 | keeping or raising every unit's grade never lowers the total |
| Properties.TotalPointsAllUngraded | services/calculatorService.ts:30 | a list of units that are all graded U totals 0 |
| Properties.ScanStopsAfterMetBoundaries | services/calculatorService.ts:41-54 | on a table ascending in minimum points, a boundary is met iff the scan passes it |
| Properties.StopsAfterHighestMet | services/calculatorService.ts:41-54 | on a table ascending in minimum points, the scan stops just past the highest boundary whose minimum the total reaches, or at 0 when it reaches none |
| Properties.AchievedIsHighestMet | services/calculatorService.ts:41-54 | on a table ascending in minimum points, the achieved grade and UCAS points belong to the highest boundary whose minimum the total reaches |
| Properties.NextBoundaryIffBelowTop | services/calculatorService.ts:46-53 | on an ascending table a next boundary is reported iff the total is below the last boundary's minimum |
| Properties.FirstUnmetMonotone | services/calculatorService.ts:41-54 | a larger total never stops the scan earlier, so the achieved grade's position never falls |
| Properties.UcasMonotone | services/calculatorService.ts:43-45 | on a table ascending in non-negative UCAS points, a larger total never earns fewer UCAS points |
| Properties.ExtendedDiplomaAt156 | constants.ts:51-52 | Extended Diploma at 156 points gives MMM, 96 UCAS points, with DMM 20 points away |
| Properties.ExtendedDiplomaAt300 | constants.ts:57 | Extended Diploma at 300 points gives D*D*D*, 168 UCAS points, and no next boundary |
| Properties.ZeroTotal | services/calculatorService.ts:35-53 | with 0 points the grade is U with 0 UCAS points, and the next boundary is the first row with its whole minimum still needed |
| Properties.QualificationMonotone | services/calculatorService.ts:29-62 | on a boundary table ascending in non-negative UCAS points, keeping or raising every unit's grade never lowers the total, the achieved grade's position or the UCAS points |
| Properties.BoundaryTablesAreMonotone | constants.ts:26-58 | all four qualification tables are ascending in non-negative UCAS points, so the monotonicity lemmas apply to each |
| Properties.RaiseOneGrade | services/calculatorService.ts:30 | raising one unit's grade gives a unit list that keeps or raises every grade, so its total is never lower |
| Properties.UngradedUnitScoresZero | services/calculatorService.ts:72 | a template with no recorded grade joins as a unit that scores 0 points |
| Properties.NoGradesEvaluatesToU | services/calculatorService.ts:65-75 | a student with no recorded grades totals 0, gets grade U with 0 UCAS points, and needs the whole first boundary |
| Properties.MergeRaisedGrades | services/calculatorService.ts:70-74 | recording grades that keep or raise every recorded grade never lowers the joined total, whatever the lock maps |
| Properties.LocksDoNotAffectTotal | services/calculatorService.ts:73 | lock flags never change the joined total |

## Left out

- The React components, login form, role gating, course/student/user list editing and the generative-advice service. They are user interface, authentication or a network call, not part of the engine.
- `SAMPLE_UNITS_ESPORTS` and `SAMPLE_UNITS_IT` (constants.ts:61-73). They are sample fixtures for the course editor and are not read by the engine.
- Floating-point effects. The source computes `glh / 10 * multiplier` in IEEE-754 doubles, so a product that is an exact half in real arithmetic can round differently there. The model uses exact reals.
- GLH as a non-integer or negative number. The course editor only offers 60, 90, 120 and 360, so GLH is a natural number here.
- Calculator.MergeUnitsAndGrades: JavaScript object lookups also find inherited properties (an id such as `constructor`). The model treats the grade and lock maps as plain finite maps.
- `isLocked` is optional on the source's unit record. The join always sets it, so the model keeps it as a plain boolean.
