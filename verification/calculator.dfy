/** The calculation engine: points for one unit, the qualification total,
    the boundary scan that turns a total into a grade, and the join of unit
    templates with a student's grades. */
module Calculator {
  import opened Types
  import opened Constants

  // ---------------------------------------------------------------------
  // Points for one unit
  // ---------------------------------------------------------------------

  /** Fallback points per 10 GLH for a GLH value that has no table row.
      Internal units: P 1, M 1.666, D 2.666. External units: NP 1, P 1.666,
      M 2.666, D 4. Every other (kind, grade) pair keeps the initial 0. */
  function Multiplier(kind: UnitType, grade: Grade): (m: real)
    ensures 0.0 <= m <= 4.0
    ensures grade == U ==> m == 0.0
    ensures kind == Internal && grade == NP ==> m == 0.0
    ensures grade != U && !(kind == Internal && grade == NP) ==> m >= 1.0
  {
    match kind
    case Internal =>
      (match grade
       case P => 1.0
       case M => 1.666
       case D => 2.666
       case _ => 0.0)
    case External =>
      (match grade
       case NP => 1.0
       case P => 1.666
       case M => 2.666
       case D => 4.0
       case _ => 0.0)
  }

  /** Round to the nearest integer, halves going up (the behaviour of
      JavaScript's `Math.round`, taken over exact reals). */
  function RoundHalfUp(x: real): (r: int)
    ensures r as real - 0.5 <= x < r as real + 0.5
  {
    (x + 0.5).Floor
  }

  /** Points for a GLH value with no table row: `glh / 10 * multiplier`,
      rounded to the nearest integer. */
  function FallbackPoints(glh: nat, kind: UnitType, grade: Grade): (r: int)
    ensures r >= 0
    ensures r as real - 0.5 <= (glh as real / 10.0) * Multiplier(kind, grade) < r as real + 0.5
  {
    RoundHalfUp((glh as real / 10.0) * Multiplier(kind, grade))
  }

  /** Points for one unit: the table entry when the table has one, the
      fallback formula otherwise. Never negative, and U scores nothing. */
  function PointsForUnit(u: Unit): (r: int)
    ensures r >= 0
    ensures u.grade == U ==> r == 0
    ensures u.kind == Internal && u.grade == NP ==> r == 0
  {
    match TableLookup(u.glh, u.kind, u.grade)
    case Some(p) =>
      PointTableShape(u.glh, u.kind, u.grade, u.grade);
      p
    case None => FallbackPoints(u.glh, u.kind, u.grade)
  }

  // ---------------------------------------------------------------------
  // Qualification total and boundary scan
  // ---------------------------------------------------------------------

  /** Sum of the units' points, accumulated from the front as the source's
      `reduce` does. No single unit's points exceed it. */
  function TotalPoints(units: seq<Unit>): (t: int)
    ensures t >= 0
    ensures forall i :: 0 <= i < |units| ==> PointsForUnit(units[i]) <= t
  {
    if |units| == 0 then 0
    else TotalPoints(units[..|units| - 1]) + PointsForUnit(units[|units| - 1])
  }

  /** The in-order scan of `bs` against `total` stops at index `k`: every
      earlier boundary is met, and the boundary at `k`, if any, is not. */
  predicate StopsAt(bs: seq<GradeBoundary>, total: int, k: nat) {
    && k <= |bs|
    && (forall j :: 0 <= j < k ==> bs[j].minPoints <= total)
    && (k < |bs| ==> total < bs[k].minPoints)
  }

  /** The scan stops at one index only. */
  lemma StopIsUnique(bs: seq<GradeBoundary>, total: int, k: nat, k': nat)
    requires StopsAt(bs, total, k) && StopsAt(bs, total, k')
    ensures k == k'
  {
  }

  /** Index at which the in-order scan of `bs` stops. */
  function FirstUnmet(bs: seq<GradeBoundary>, total: int): (f: nat)
    ensures StopsAt(bs, total, f)
  {
    if |bs| == 0 || total < bs[0].minPoints then 0
    else
      var f := 1 + FirstUnmet(bs[1..], total);
      assert forall j :: 1 <= j < f ==> bs[j] == bs[1..][j - 1];
      f
  }

  /** Reference result for a total: where the scan stops, the grade and
      admission points are those of the boundary just before ("U" and 0 if
      there is none), and the next boundary is the one at the stop with the
      points still needed (none if every boundary is met). */
  function Evaluate(total: int, bs: seq<GradeBoundary>): (r: CalculationResult)
    ensures r.totalPoints == total
    ensures forall k: nat {:trigger StopsAt(bs, total, k)} :: StopsAt(bs, total, k) ==>
      && (k < |bs| ==> r.nextGradeBoundary == Some(NextBoundary(bs[k].grade, bs[k].minPoints - total)))
      && (k == |bs| ==> r.nextGradeBoundary == None)
      && (k == 0 ==> r.grade == "U" && r.ucasPoints == 0)
      && (k > 0 ==> r.grade == bs[k - 1].grade && r.ucasPoints == bs[k - 1].ucas)
    ensures r.nextGradeBoundary.None? <==> forall i :: 0 <= i < |bs| ==> bs[i].minPoints <= total
    ensures r.nextGradeBoundary.Some? ==> r.nextGradeBoundary.value.pointsNeeded > 0
  {
    var f := FirstUnmet(bs, total);
    assert forall k: nat {:trigger StopsAt(bs, total, k)} :: StopsAt(bs, total, k) ==> k == f by {
      forall k: nat | StopsAt(bs, total, k) ensures k == f {
        StopIsUnique(bs, total, k, f);
      }
    }
    CalculationResult(
      total,
      if f == 0 then "U" else bs[f - 1].grade,
      if f == 0 then 0 else bs[f - 1].ucas,
      if f < |bs| then Some(NextBoundary(bs[f].grade, bs[f].minPoints - total)) else None)
  }

  /** The `reduce` step of the source: adds up the units' points in order. */
  method SumPoints(units: seq<Unit>) returns (total: int)
    ensures total == TotalPoints(units)
  {
    total := 0;
    var n := 0;
    while n < |units|
      invariant 0 <= n <= |units|
      invariant total == TotalPoints(units[..n])
    {
      assert units[..n + 1][..n] == units[..n];
      total := total + PointsForUnit(units[n]);
      n := n + 1;
    }
    assert units[..|units|] == units;
  }

  /** The boundary loop of the source: walks `bs` in order, keeping the last
      boundary met and stopping at the first one not met. */
  method ScanBoundaries(total: int, bs: seq<GradeBoundary>) returns (r: CalculationResult)
    ensures r == Evaluate(total, bs)
  {
    var achievedGrade := "U";
    var achievedUcas := 0;
    var next: Option<NextBoundary> := None;
    var i := 0;
    while i < |bs|
      invariant 0 <= i <= |bs|
      invariant forall j :: 0 <= j < i ==> bs[j].minPoints <= total
      invariant i == 0 ==> achievedGrade == "U" && achievedUcas == 0
      invariant i > 0 ==> achievedGrade == bs[i - 1].grade && achievedUcas == bs[i - 1].ucas
      invariant next == None
    {
      var b := bs[i];
      if total >= b.minPoints {
        achievedGrade := b.grade;
        achievedUcas := b.ucas;
      } else {
        next := Some(NextBoundary(b.grade, b.minPoints - total));
        break;
      }
      i := i + 1;
    }
    assert StopsAt(bs, total, i);
    StopIsUnique(bs, total, i, FirstUnmet(bs, total));
    r := CalculationResult(total, achievedGrade, achievedUcas, next);
  }

  /** The qualification result for a student's graded units and a
      qualification size. */
  method CalculateQualification(units: seq<Unit>, q: QualificationType) returns (r: CalculationResult)
    ensures r == Evaluate(TotalPoints(units), Boundaries(q))
  {
    var total := SumPoints(units);
    r := ScanBoundaries(total, Boundaries(q));
  }

  // ---------------------------------------------------------------------
  // Joining unit templates with a student's grades
  // ---------------------------------------------------------------------

  /** One template with the student's grade (U when none is recorded) and
      lock flag (unlocked when there is no lock map or no entry). */
  function ResolveUnit(t: UnitTemplate, grades: map<string, Grade>, locks: Option<map<string, bool>>): Unit {
    Unit(t.id, t.name, t.glh, t.kind,
         if t.id in grades then grades[t.id] else U,
         locks.Some? && t.id in locks.value && locks.value[t.id])
  }

  /** The student's graded units, one per template, in template order. */
  function MergeUnitsAndGrades(templates: seq<UnitTemplate>, grades: map<string, Grade>,
                               locks: Option<map<string, bool>>): (r: seq<Unit>)
    ensures |r| == |templates|
    ensures forall i :: 0 <= i < |r| ==> r[i].Template() == templates[i]
    ensures forall i :: 0 <= i < |r| ==>
      (templates[i].id in grades ==> r[i].grade == grades[templates[i].id])
    ensures forall i :: 0 <= i < |r| ==> (templates[i].id !in grades ==> r[i].grade == U)
    ensures forall i :: 0 <= i < |r| ==>
      (r[i].isLocked <==> locks.Some? && templates[i].id in locks.value && locks.value[templates[i].id])
  {
    seq(|templates|, i requires 0 <= i < |templates| => ResolveUnit(templates[i], grades, locks))
  }
}
