/** The fixed data the calculator reads: the unit points table, keyed by
    guided learning hours, unit kind and grade, and one grade-boundary table
    per qualification size. */
module Constants {
  import opened Types

  /** Points per (GLH, kind, grade) for the three standard GLH tiers. */
  const PointTables: map<nat, map<UnitType, map<Grade, int>>> := map[
    60 := map[
      Internal := map[U := 0, NP := 0, P := 6, M := 10, D := 16],
      External := map[U := 0, NP := 4, P := 6, M := 10, D := 16]],
    90 := map[
      Internal := map[U := 0, NP := 0, P := 9, M := 15, D := 24],
      External := map[U := 0, NP := 6, P := 9, M := 15, D := 24]],
    120 := map[
      Internal := map[U := 0, NP := 0, P := 12, M := 20, D := 32],
      External := map[U := 0, NP := 12, P := 20, M := 32, D := 48]]
  ]

  /** The GLH values that have a row in the points table. */
  predicate IsStandardTier(glh: nat) {
    glh == 60 || glh == 90 || glh == 120
  }

  /** The table entry for (glh, kind, grade), if the table has one at every level. */
  function TableLookup(glh: nat, kind: UnitType, grade: Grade): (r: Option<int>)
    ensures r.Some? <==> IsStandardTier(glh)
  {
    TableCoversTiers(glh, kind, grade);
    if glh in PointTables && kind in PointTables[glh] && grade in PointTables[glh][kind]
    then Some(PointTables[glh][kind][grade])
    else None
  }

  /** The table has a row for exactly the standard tiers, and each row covers
      both kinds and all five grades. */
  lemma TableCoversTiers(glh: nat, kind: UnitType, grade: Grade)
    ensures glh in PointTables <==> IsStandardTier(glh)
    ensures IsStandardTier(glh) ==> kind in PointTables[glh] && grade in PointTables[glh][kind]
  {
    if IsStandardTier(glh) {
      match kind {
        case Internal =>
          match grade { case U => case NP => case P => case M => case D => }
        case External =>
          match grade { case U => case NP => case P => case M => case D => }
      }
    }
  }

  /** Extended Certificate, Foundation Diploma, Diploma and Extended Diploma
      boundaries, each listed in ascending order of minimum points. */
  function Boundaries(q: QualificationType): (bs: seq<GradeBoundary>)
    ensures |bs| > 0
    ensures forall i :: 0 <= i < |bs| ==> bs[i].minPoints > 0 && bs[i].ucas > 0
  {
    match q
    case ExtendedCertificate => [
      GradeBoundary(36, "P", 16),
      GradeBoundary(52, "M", 32),
      GradeBoundary(74, "D", 48),
      GradeBoundary(90, "D*", 56)]
    case FoundationDiploma => [
      GradeBoundary(51, "P", 24),
      GradeBoundary(73, "M", 48),
      GradeBoundary(104, "D", 72),
      GradeBoundary(130, "D*", 84)]
    case Diploma => [
      GradeBoundary(72, "PP", 32),
      GradeBoundary(88, "MP", 48),
      GradeBoundary(104, "MM", 64),
      GradeBoundary(124, "DM", 80),
      GradeBoundary(144, "DD", 96),
      GradeBoundary(162, "D*D", 104),
      GradeBoundary(180, "D*D*", 112)]
    case ExtendedDiploma => [
      GradeBoundary(108, "PPP", 48),
      GradeBoundary(124, "MPP", 64),
      GradeBoundary(140, "MMP", 80),
      GradeBoundary(156, "MMM", 96),
      GradeBoundary(176, "DMM", 112),
      GradeBoundary(196, "DDM", 128),
      GradeBoundary(216, "DDD", 144),
      GradeBoundary(234, "D*DD", 152),
      GradeBoundary(252, "D*D*D", 160),
      GradeBoundary(270, "D*D*D*", 168)]
  }

  /** Each neighbouring pair of boundaries rises in both minimum and admission points. */
  predicate StepsAscend(bs: seq<GradeBoundary>) {
    forall i :: 0 <= i < |bs| - 1 ==>
      bs[i].minPoints < bs[i + 1].minPoints && bs[i].ucas < bs[i + 1].ucas
  }

  /** Rising at every step means rising between any two rows. */
  lemma {:induction false} StepsAscendImpliesAscending(bs: seq<GradeBoundary>)
    requires StepsAscend(bs)
    ensures AscendingMinPoints(bs) && AscendingUcas(bs)
  {
    if |bs| > 1 {
      var tail := bs[1..];
      assert StepsAscend(tail) by {
        forall i | 0 <= i < |tail| - 1
          ensures tail[i].minPoints < tail[i + 1].minPoints && tail[i].ucas < tail[i + 1].ucas
        {
          assert tail[i] == bs[i + 1] && tail[i + 1] == bs[i + 2];
        }
      }
      StepsAscendImpliesAscending(tail);
      forall i, j | 0 <= i < j < |bs|
        ensures bs[i].minPoints < bs[j].minPoints && bs[i].ucas < bs[j].ucas
      {
        if i > 0 {
          assert bs[i] == tail[i - 1] && bs[j] == tail[j - 1];
        } else if j > 1 {
          assert bs[1] == tail[0] && bs[j] == tail[j - 1];
        }
      }
    }
  }

  /** Every boundary table rises at each step, in minimum points and in
      admission points. */
  lemma BoundaryTableSteps(q: QualificationType)
    ensures StepsAscend(Boundaries(q))
  {
    var bs := Boundaries(q);
    forall i | 0 <= i < |bs| - 1
      ensures bs[i].minPoints < bs[i + 1].minPoints && bs[i].ucas < bs[i + 1].ucas
    {
    }
  }

  /** Every boundary table is strictly ascending in minimum points and in
      admission points. */
  lemma BoundaryTablesAscend(q: QualificationType)
    ensures AscendingMinPoints(Boundaries(q))
    ensures AscendingUcas(Boundaries(q))
  {
    BoundaryTableSteps(q);
    StepsAscendImpliesAscending(Boundaries(q));
  }

  /** The tables have 4, 4, 7 and 10 rows. */
  lemma BoundaryTableSizes()
    ensures |Boundaries(ExtendedCertificate)| == 4
    ensures |Boundaries(FoundationDiploma)| == 4
    ensures |Boundaries(Diploma)| == 7
    ensures |Boundaries(ExtendedDiploma)| == 10
  {
  }

  /** Shape of the points table: U scores 0, Internal NP scores 0, every
      entry is non-negative, and each (GLH, kind) row never decreases as the
      grade rises. */
  lemma PointTableShape(glh: nat, kind: UnitType, g: Grade, h: Grade)
    requires IsStandardTier(glh)
    requires Rank(g) <= Rank(h)
    ensures TableLookup(glh, kind, U) == Some(0)
    ensures kind == Internal ==> TableLookup(glh, kind, NP) == Some(0)
    ensures TableLookup(glh, kind, g).value >= 0
    ensures TableLookup(glh, kind, g).value <= TableLookup(glh, kind, h).value
  {
  }
}
