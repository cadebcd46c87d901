/** Entities of the grade calculator: unit kinds and grades, unit templates,
    graded units, qualification sizes, grade boundaries and the result of
    evaluating a qualification. */
module Types {

  datatype Option<+T> = None | Some(value: T)

  /** How a unit is assessed. */
  datatype UnitType = Internal | External

  /** A unit grade. NP ("near pass") only applies to External units; the
      points table scores it 0 for Internal units. */
  datatype Grade = U | NP | P | M | D

  /** The order U < NP < P < M < D in which grades are raised. */
  function Rank(g: Grade): (r: nat)
    ensures r <= 4
    ensures r == 0 <==> g == U
  {
    match g
    case U => 0
    case NP => 1
    case P => 2
    case M => 3
    case D => 4
  }

  /** The four qualification sizes, each with its own boundary table. */
  datatype QualificationType =
    | ExtendedCertificate
    | FoundationDiploma
    | Diploma
    | ExtendedDiploma

  /** A unit of a course, without a grade. `glh` is guided learning hours. */
  datatype UnitTemplate = UnitTemplate(id: string, name: string, glh: nat, kind: UnitType)

  /** A unit template joined with one student's grade and lock flag. */
  datatype Unit = Unit(id: string, name: string, glh: nat, kind: UnitType, grade: Grade, isLocked: bool)
  {
    /** The template this unit was built from. */
    function Template(): UnitTemplate {
      UnitTemplate(id, name, glh, kind)
    }
  }

  /** One row of a grade-boundary table: reaching `minPoints` earns `grade`,
      worth `ucas` admission points. */
  datatype GradeBoundary = GradeBoundary(minPoints: int, grade: string, ucas: int)

  /** The first boundary not yet reached and how many points are missing. */
  datatype NextBoundary = NextBoundary(grade: string, pointsNeeded: int)

  datatype CalculationResult = CalculationResult(
    totalPoints: int,
    grade: string,
    ucasPoints: int,
    nextGradeBoundary: Option<NextBoundary>)

  /** Every boundary's minimum is strictly below the next one's. */
  predicate AscendingMinPoints(bs: seq<GradeBoundary>) {
    forall i, j :: 0 <= i < j < |bs| ==> bs[i].minPoints < bs[j].minPoints
  }

  /** Every boundary's admission points are strictly below the next one's. */
  predicate AscendingUcas(bs: seq<GradeBoundary>) {
    forall i, j :: 0 <= i < j < |bs| ==> bs[i].ucas < bs[j].ucas
  }
}
