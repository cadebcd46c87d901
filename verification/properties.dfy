/** Properties of the calculation engine that relate several calls: table
    agreement and calibration of the fallback formula, grade monotonicity,
    order independence of the total, correctness of the boundary scan, and
    what the template/grade join feeds into the evaluator. */
module Properties {
  import opened Types
  import opened Constants
  import opened Calculator

  // ---------------------------------------------------------------------
  // Points for one unit
  // ---------------------------------------------------------------------

  /** For GLH 60, 90 and 120 a unit scores exactly its table entry; the
      fallback formula is never used there. */
  lemma PointsOnStandardTiers(u: Unit)
    requires IsStandardTier(u.glh)
    ensures u.glh in PointTables && u.kind in PointTables[u.glh] && u.grade in PointTables[u.glh][u.kind]
    ensures PointsForUnit(u) == PointTables[u.glh][u.kind][u.grade]
  {
    TableCoversTiers(u.glh, u.kind, u.grade);
  }

  /** For any other GLH a unit scores the integer nearest to
      `glh / 10 * multiplier`, halves rounding up. */
  lemma PointsForCustomGlh(u: Unit)
    requires !IsStandardTier(u.glh)
    ensures PointsForUnit(u) as real - 0.5 <= (u.glh as real / 10.0) * Multiplier(u.kind, u.grade)
    ensures (u.glh as real / 10.0) * Multiplier(u.kind, u.grade) < PointsForUnit(u) as real + 0.5
  {
  }

  /** Worked examples from the table: 60 GLH Internal D is 16 and 120 GLH
      External NP is 12. */
  lemma TableExamples(id: string, name: string, locked: bool)
    ensures PointsForUnit(Unit(id, name, 60, Internal, D, locked)) == 16
    ensures PointsForUnit(Unit(id, name, 120, External, NP, locked)) == 12
  {
    PointsOnStandardTiers(Unit(id, name, 60, Internal, D, locked));
    PointsOnStandardTiers(Unit(id, name, 120, External, NP, locked));
  }

  /** The fallback multipliers are calibrated on the Internal rows and the
      120 GLH External row: there the formula reproduces the table exactly. */
  lemma FallbackMatchesTable(glh: nat, kind: UnitType, g: Grade)
    requires IsStandardTier(glh)
    requires kind == Internal || glh == 120
    ensures glh in PointTables && kind in PointTables[glh] && g in PointTables[glh][kind]
    ensures FallbackPoints(glh, kind, g) == PointTables[glh][kind][g]
  {
    TableCoversTiers(glh, kind, g);
    var x := (glh as real / 10.0) * Multiplier(kind, g);
    var r := FallbackPoints(glh, kind, g);
    var t := PointTables[glh][kind][g];
    assert t as real - 0.5 <= x < t as real + 0.5 by {
      match kind {
        case Internal =>
          match g { case U => case NP => case P => case M => case D => }
        case External =>
          match g { case U => case NP => case P => case M => case D => }
      }
    }
    NearestIntegerIsUnique(x, r, t);
  }

  /** The 60 and 90 GLH External rows use other ratios: the formula would
      give NP 6 and P 10 at 60 GLH where the table has 4 and 6. The table
      takes precedence, so units on those tiers are unaffected. */
  lemma FallbackDiffersFromSmallExternalRows()
    ensures FallbackPoints(60, External, NP) == 6 && PointTables[60][External][NP] == 4
    ensures FallbackPoints(60, External, P) == 10 && PointTables[60][External][P] == 6
  {
    NearestIntegerIsUnique(6.0, FallbackPoints(60, External, NP), 6);
    NearestIntegerIsUnique(9.996, FallbackPoints(60, External, P), 10);
  }

  /** 360 GLH, offered by the course editor, has no table row and is scored
      by the formula. */
  lemma PointsAt360(id: string, name: string, locked: bool)
    ensures PointsForUnit(Unit(id, name, 360, Internal, P, locked)) == 36
    ensures PointsForUnit(Unit(id, name, 360, Internal, M, locked)) == 60
    ensures PointsForUnit(Unit(id, name, 360, Internal, D, locked)) == 96
    ensures PointsForUnit(Unit(id, name, 360, External, NP, locked)) == 36
    ensures PointsForUnit(Unit(id, name, 360, External, P, locked)) == 60
    ensures PointsForUnit(Unit(id, name, 360, External, M, locked)) == 96
    ensures PointsForUnit(Unit(id, name, 360, External, D, locked)) == 144
  {
    NearestIntegerIsUnique(36.0, FallbackPoints(360, Internal, P), 36);
    NearestIntegerIsUnique(59.976, FallbackPoints(360, Internal, M), 60);
    NearestIntegerIsUnique(95.976, FallbackPoints(360, Internal, D), 96);
    NearestIntegerIsUnique(36.0, FallbackPoints(360, External, NP), 36);
    NearestIntegerIsUnique(59.976, FallbackPoints(360, External, P), 60);
    NearestIntegerIsUnique(95.976, FallbackPoints(360, External, M), 96);
    NearestIntegerIsUnique(144.0, FallbackPoints(360, External, D), 144);
  }

  /** At most one integer lies within a half of any real. */
  lemma NearestIntegerIsUnique(x: real, a: int, b: int)
    requires a as real - 0.5 <= x < a as real + 0.5
    requires b as real - 0.5 <= x < b as real + 0.5
    ensures a == b
  {
  }

  /** Rounding never reverses the order of two reals. */
  lemma RoundHalfUpMonotone(x: real, y: real)
    requires x <= y
    ensures RoundHalfUp(x) <= RoundHalfUp(y)
  {
  }

  /** Raising the grade never lowers the fallback multiplier. */
  lemma MultiplierMonotone(kind: UnitType, g: Grade, h: Grade)
    requires Rank(g) <= Rank(h)
    ensures Multiplier(kind, g) <= Multiplier(kind, h)
  {
  }

  /** Scaling a larger non-negative factor by a larger non-negative factor
      gives a larger product. */
  lemma ProductMonotone(a: real, b: real, m: real, n: real)
    requires 0.0 <= a <= b && 0.0 <= m <= n
    ensures a * m <= b * n
  {
    assert a * m <= b * m;
  }

  /** The fallback formula never decreases with the grade or with GLH. */
  lemma FallbackMonotone(glh: nat, glh': nat, kind: UnitType, g: Grade, h: Grade)
    requires glh <= glh'
    requires Rank(g) <= Rank(h)
    ensures FallbackPoints(glh, kind, g) <= FallbackPoints(glh', kind, h)
  {
    MultiplierMonotone(kind, g, h);
    var x := (glh as real / 10.0) * Multiplier(kind, g);
    var y := (glh' as real / 10.0) * Multiplier(kind, h);
    ProductMonotone(glh as real / 10.0, glh' as real / 10.0, Multiplier(kind, g), Multiplier(kind, h));
    RoundHalfUpMonotone(x, y);
  }

  /** Of two units with the same GLH and kind, the one with the higher grade
      never scores fewer points, on the table and on the fallback path alike. */
  lemma PointsMonotoneInGrade(u: Unit, v: Unit)
    requires u.glh == v.glh && u.kind == v.kind
    requires Rank(u.grade) <= Rank(v.grade)
    ensures PointsForUnit(u) <= PointsForUnit(v)
  {
    if IsStandardTier(u.glh) {
      PointTableShape(u.glh, u.kind, u.grade, v.grade);
    } else {
      FallbackMonotone(u.glh, u.glh, u.kind, u.grade, v.grade);
    }
  }

  // ---------------------------------------------------------------------
  // Qualification total
  // ---------------------------------------------------------------------

  /** A non-empty sequence is its front followed by its last element. */
  lemma SplitLast<T>(s: seq<T>)
    requires |s| > 0
    ensures s == s[..|s| - 1] + [s[|s| - 1]]
  {
  }

  /** Removing an element before the last one commutes with splitting off
      the last element. */
  lemma RemoveBeforeLast<T>(s: seq<T>, i: nat)
    requires i < |s| - 1
    ensures s[..|s| - 1][i] == s[i]
    ensures s[..i] + s[i + 1..] == (s[..|s| - 1][..i] + s[..|s| - 1][i + 1..]) + [s[|s| - 1]]
  {
    var n := |s| - 1;
    assert s[..n][..i] == s[..i];
    assert s[..n][i + 1..] + [s[n]] == s[i + 1..];
  }

  /** Appending a unit adds its points to the total. */
  lemma TotalPointsAppend(units: seq<Unit>, u: Unit)
    ensures TotalPoints(units + [u]) == TotalPoints(units) + PointsForUnit(u)
  {
    assert (units + [u])[..|units|] == units;
  }

  /** The total is one unit's points plus the total of the others. */
  lemma {:induction false} TotalPointsRemove(units: seq<Unit>, i: nat)
    requires i < |units|
    ensures TotalPoints(units) == PointsForUnit(units[i]) + TotalPoints(units[..i] + units[i + 1..])
  {
    var n := |units| - 1;
    var init := units[..n];
    SplitLast(units);
    TotalPointsAppend(init, units[n]);
    if i == n {
      assert units[..i] + units[i + 1..] == init;
    } else {
      RemoveBeforeLast(units, i);
      TotalPointsRemove(init, i);
      TotalPointsAppend(init[..i] + init[i + 1..], units[n]);
    }
  }

  /** If two sequences hold the same elements, the last element of the first
      occurs somewhere in the second, and removing both leaves sequences that
      still hold the same elements. */
  lemma MatchLast<T>(a: seq<T>, b: seq<T>) returns (i: nat)
    requires |a| > 0 && multiset(a) == multiset(b)
    ensures i < |b| && b[i] == a[|a| - 1]
    ensures multiset(a[..|a| - 1]) == multiset(b[..i] + b[i + 1..])
  {
    var n := |a| - 1;
    var x := a[n];
    assert a == a[..n] + [x];
    assert multiset(a) == multiset(a[..n]) + multiset{x};
    assert x in multiset(b);
    i :| 0 <= i < |b| && b[i] == x;
    var rest := b[..i] + b[i + 1..];
    assert b == b[..i] + [x] + b[i + 1..];
    assert multiset(b) == multiset(rest) + multiset{x};
    assert multiset(a[..n]) == multiset(a) - multiset{x};
    assert multiset(rest) == multiset(b) - multiset{x};
  }

  /** The order of the units does not affect the total. */
  lemma {:induction false} TotalPointsPermutation(a: seq<Unit>, b: seq<Unit>)
    requires multiset(a) == multiset(b)
    ensures TotalPoints(a) == TotalPoints(b)
  {
    if |a| == 0 {
      assert |b| == |multiset(b)| == 0;
    } else {
      var n := |a| - 1;
      var i := MatchLast(a, b);
      TotalPointsPermutation(a[..n], b[..i] + b[i + 1..]);
      TotalPointsRemove(b, i);
    }
  }

  /** `b` is `a` with every unit's grade kept or raised. */
  predicate GradesRaised(a: seq<Unit>, b: seq<Unit>) {
    && |a| == |b|
    && forall i :: 0 <= i < |a| ==> a[i].Template() == b[i].Template() && Rank(a[i].grade) <= Rank(b[i].grade)
  }

  /** Keeping or raising every unit's grade never lowers the total. */
  lemma {:induction false} TotalPointsMonotone(a: seq<Unit>, b: seq<Unit>)
    requires GradesRaised(a, b)
    ensures TotalPoints(a) <= TotalPoints(b)
  {
    if |a| > 0 {
      var n := |a| - 1;
      TotalPointsMonotone(a[..n], b[..n]);
      assert a[n].Template() == b[n].Template() && Rank(a[n].grade) <= Rank(b[n].grade);
      PointsMonotoneInGrade(a[n], b[n]);
    }
  }

  /** Units that all score nothing total nothing. */
  lemma {:induction false} TotalPointsAllUngraded(units: seq<Unit>)
    requires forall i :: 0 <= i < |units| ==> units[i].grade == U
    ensures TotalPoints(units) == 0
  {
    if |units| > 0 {
      TotalPointsAllUngraded(units[..|units| - 1]);
    }
  }

  // ---------------------------------------------------------------------
  // Boundary scan
  // ---------------------------------------------------------------------

  /** On an ascending table the scan stops after exactly the boundaries
      that are met: boundary k is met iff it comes before the stop. */
  lemma ScanStopsAfterMetBoundaries(bs: seq<GradeBoundary>, total: int, k: nat)
    requires AscendingMinPoints(bs)
    requires k < |bs|
    ensures bs[k].minPoints <= total <==> k < FirstUnmet(bs, total)
  {
  }

  /** On an ascending table the scan stops just past the highest boundary
      whose minimum the total reaches, or at 0 when it reaches none. */
  lemma StopsAfterHighestMet(bs: seq<GradeBoundary>, total: int, k: nat)
    requires AscendingMinPoints(bs)
    requires k <= |bs|
    requires k > 0 ==> bs[k - 1].minPoints <= total
    requires k < |bs| ==> total < bs[k].minPoints
    ensures FirstUnmet(bs, total) == k
  {
    forall j | 0 <= j < k ensures bs[j].minPoints <= total {
      if j < k - 1 {
        assert bs[j].minPoints < bs[k - 1].minPoints;
      }
    }
    StopIsUnique(bs, total, k, FirstUnmet(bs, total));
  }

  /** On an ascending table the achieved grade and admission points are
      those of the highest boundary whose minimum is met. */
  lemma AchievedIsHighestMet(bs: seq<GradeBoundary>, total: int, k: nat)
    requires AscendingMinPoints(bs)
    requires k < |bs| && bs[k].minPoints <= total
    requires k == |bs| - 1 || total < bs[k + 1].minPoints
    ensures Evaluate(total, bs).grade == bs[k].grade
    ensures Evaluate(total, bs).ucasPoints == bs[k].ucas
  {
    StopsAfterHighestMet(bs, total, k + 1);
  }

  /** On an ascending table a next boundary is reported exactly when the
      total is below the top boundary's minimum. */
  lemma NextBoundaryIffBelowTop(bs: seq<GradeBoundary>, total: int)
    requires AscendingMinPoints(bs)
    requires |bs| > 0
    ensures Evaluate(total, bs).nextGradeBoundary.Some? <==> total < bs[|bs| - 1].minPoints
  {
    if total >= bs[|bs| - 1].minPoints {
      forall i | 0 <= i < |bs| ensures bs[i].minPoints <= total {
        if i < |bs| - 1 { assert bs[i].minPoints < bs[|bs| - 1].minPoints; }
      }
    }
  }

  /** A larger total never stops the scan earlier: the achieved grade's
      position in the table never falls as points rise. */
  lemma {:induction false} FirstUnmetMonotone(bs: seq<GradeBoundary>, t: int, t': int)
    requires t <= t'
    ensures FirstUnmet(bs, t) <= FirstUnmet(bs, t')
  {
    if |bs| > 0 && t >= bs[0].minPoints {
      FirstUnmetMonotone(bs[1..], t, t');
    }
  }

  /** On a table ascending in non-negative admission points, a larger total
      never earns fewer admission points. */
  lemma UcasMonotone(bs: seq<GradeBoundary>, t: int, t': int)
    requires AscendingUcas(bs)
    requires forall i :: 0 <= i < |bs| ==> bs[i].ucas >= 0
    requires t <= t'
    ensures Evaluate(t, bs).ucasPoints <= Evaluate(t', bs).ucasPoints
  {
    FirstUnmetMonotone(bs, t, t');
    var f, f' := FirstUnmet(bs, t), FirstUnmet(bs, t');
    if 0 < f < f' {
      assert bs[f - 1].ucas < bs[f' - 1].ucas;
    }
  }

  /** Extended Diploma: 156 points is MMM, worth 96 admission points, with
      DMM 20 points away. */
  lemma ExtendedDiplomaAt156()
    ensures Evaluate(156, Boundaries(ExtendedDiploma))
         == CalculationResult(156, "MMM", 96, Some(NextBoundary("DMM", 20)))
  {
    BoundaryTablesAscend(ExtendedDiploma);
    StopsAfterHighestMet(Boundaries(ExtendedDiploma), 156, 4);
  }

  /** Extended Diploma: 300 points is past the top boundary, D*D*D* worth
      168 admission points, with nothing further to reach. */
  lemma ExtendedDiplomaAt300()
    ensures Evaluate(300, Boundaries(ExtendedDiploma))
         == CalculationResult(300, "D*D*D*", 168, None)
  {
    BoundaryTablesAscend(ExtendedDiploma);
    StopsAfterHighestMet(Boundaries(ExtendedDiploma), 300, 10);
  }

  /** With no points the grade is U with no admission points, and the next
      boundary is the table's first row with all its points still needed. */
  lemma ZeroTotal(q: QualificationType)
    ensures Evaluate(0, Boundaries(q)) == CalculationResult(0, "U", 0,
      Some(NextBoundary(Boundaries(q)[0].grade, Boundaries(q)[0].minPoints)))
  {
  }

  /** Keeping or raising every unit's grade never lowers the total, the
      achieved grade's position in the table or the admission points, on any
      table ascending in non-negative admission points (as all four are). */
  lemma {:induction false} QualificationMonotone(a: seq<Unit>, b: seq<Unit>, bs: seq<GradeBoundary>)
    requires GradesRaised(a, b)
    requires AscendingUcas(bs)
    requires forall i :: 0 <= i < |bs| ==> bs[i].ucas >= 0
    ensures TotalPoints(a) <= TotalPoints(b)
    ensures FirstUnmet(bs, TotalPoints(a)) <= FirstUnmet(bs, TotalPoints(b))
    ensures Evaluate(TotalPoints(a), bs).ucasPoints <= Evaluate(TotalPoints(b), bs).ucasPoints
  {
    TotalPointsMonotone(a, b);
    FirstUnmetMonotone(bs, TotalPoints(a), TotalPoints(b));
    UcasMonotone(bs, TotalPoints(a), TotalPoints(b));
  }

  /** The qualification tables meet the requirements of the monotonicity
      lemmas above. */
  lemma BoundaryTablesAreMonotone(q: QualificationType)
    ensures AscendingUcas(Boundaries(q))
    ensures forall i :: 0 <= i < |Boundaries(q)| ==> Boundaries(q)[i].ucas >= 0
  {
    BoundaryTablesAscend(q);
  }

  /** Raising a single unit's grade never lowers the total; with
      QualificationMonotone, it never lowers the admission points either. */
  lemma {:induction false} RaiseOneGrade(units: seq<Unit>, i: nat, g: Grade)
    requires i < |units| && Rank(units[i].grade) <= Rank(g)
    ensures GradesRaised(units, units[i := units[i].(grade := g)])
    ensures TotalPoints(units) <= TotalPoints(units[i := units[i].(grade := g)])
  {
    TotalPointsMonotone(units, units[i := units[i].(grade := g)]);
  }

  // ---------------------------------------------------------------------
  // Joining templates with grades
  // ---------------------------------------------------------------------

  /** A unit with no recorded grade contributes no points. */
  lemma UngradedUnitScoresZero(templates: seq<UnitTemplate>, grades: map<string, Grade>,
                               locks: Option<map<string, bool>>, i: nat)
    requires i < |templates| && templates[i].id !in grades
    ensures PointsForUnit(MergeUnitsAndGrades(templates, grades, locks)[i]) == 0
  {
  }

  /** A student with no recorded grades has 0 points, grade U, and the
      table's first row as the next boundary. */
  lemma NoGradesEvaluatesToU(templates: seq<UnitTemplate>, locks: Option<map<string, bool>>,
                             q: QualificationType)
    ensures TotalPoints(MergeUnitsAndGrades(templates, map[], locks)) == 0
    ensures Evaluate(TotalPoints(MergeUnitsAndGrades(templates, map[], locks)), Boundaries(q))
         == CalculationResult(0, "U", 0,
              Some(NextBoundary(Boundaries(q)[0].grade, Boundaries(q)[0].minPoints)))
  {
    TotalPointsAllUngraded(MergeUnitsAndGrades(templates, map[], locks));
    ZeroTotal(q);
  }

  /** Recording grades that keep or raise every recorded grade never lowers
      the merged total; lock flags play no part in it. */
  lemma MergeRaisedGrades(templates: seq<UnitTemplate>, grades: map<string, Grade>,
                          grades': map<string, Grade>,
                          locks: Option<map<string, bool>>, locks': Option<map<string, bool>>)
    requires forall id :: id in grades ==> id in grades' && Rank(grades[id]) <= Rank(grades'[id])
    ensures TotalPoints(MergeUnitsAndGrades(templates, grades, locks))
         <= TotalPoints(MergeUnitsAndGrades(templates, grades', locks'))
  {
    var a := MergeUnitsAndGrades(templates, grades, locks);
    var b := MergeUnitsAndGrades(templates, grades', locks');
    assert GradesRaised(a, b) by {
      forall i | 0 <= i < |a|
        ensures a[i].Template() == b[i].Template() && Rank(a[i].grade) <= Rank(b[i].grade)
      {
        if templates[i].id in grades {
          assert templates[i].id in grades';
        }
      }
    }
    TotalPointsMonotone(a, b);
  }

  /** Lock flags never change the merged total. */
  lemma LocksDoNotAffectTotal(templates: seq<UnitTemplate>, grades: map<string, Grade>,
                              locks: Option<map<string, bool>>, locks': Option<map<string, bool>>)
    ensures TotalPoints(MergeUnitsAndGrades(templates, grades, locks))
         == TotalPoints(MergeUnitsAndGrades(templates, grades, locks'))
  {
    MergeRaisedGrades(templates, grades, grades, locks, locks');
    MergeRaisedGrades(templates, grades, grades, locks', locks);
  }
}
