/** The order theory of the two relations, on every pair of strings, well formed or not. */
module FilterAlgebra {
  import opened Levels
  import opened TopicFilter
  import opened FilterGrammar

  // ---------- Truncation after the first "#" ----------

  function Cut(f: seq<string>): (c: seq<string>)
    requires |f| >= 1
    ensures |c| >= 1
    ensures NoSlash(f) ==> NoSlash(c)
  {
    if FixedLevels(f) < |f| then f[..FixedLevels(f) + 1] else f
  }

  function Truncate(f: string): string {
    Join(Cut(Split(f)))
  }

  lemma FixedLevelsOfCut(f: seq<string>)
    requires |f| >= 1
    ensures FixedLevels(Cut(f)) == FixedLevels(f)
    ensures FixedLevels(f) == |f| ==> Cut(f) == f
    ensures FixedLevels(f) < |f| ==> |Cut(f)| == FixedLevels(f) + 1
    ensures forall i | 0 <= i < FixedLevels(f) :: Cut(f)[i] == f[i]
  {
  }

  lemma RelationsOfCut(a: seq<string>, b: seq<string>)
    requires |a| >= 1 && |b| >= 1
    ensures CoversLevels(a, b) <==> CoversLevels(Cut(a), Cut(b))
    ensures OverlapsLevels(a, b) <==> OverlapsLevels(Cut(a), Cut(b))
  {
    FixedLevelsOfCut(a);
    FixedLevelsOfCut(b);
    if OverlapsLevels(Cut(a), Cut(b)) {
      forall i | 0 <= i < FixedLevels(a) && i < FixedLevels(b) ensures Compatible(a[i], b[i]) {
        assert Compatible(Cut(a)[i], Cut(b)[i]);
      }
    }
  }

  lemma SplitOfTruncate(f: string)
    ensures Split(Truncate(f)) == Cut(Split(f))
  {
    SplitOfJoin(Cut(Split(f)));
  }

  /** Neither relation looks past the first "#" level of either argument. */
  lemma TruncationInvariance(a: string, b: string)
    ensures CoveredBy(a, b) <==> CoveredBy(Truncate(a), Truncate(b))
    ensures Overlaps(a, b) <==> Overlaps(Truncate(a), Truncate(b))
  {
    SplitOfTruncate(a);
    SplitOfTruncate(b);
    RelationsOfCut(Split(a), Split(b));
  }

  lemma TruncateIdempotent(f: string)
    ensures Truncate(Truncate(f)) == Truncate(f)
  {
    SplitOfTruncate(f);
    FixedLevelsOfCut(Split(f));
    assert Cut(Cut(Split(f))) == Cut(Split(f));
  }

  /** So either argument may be truncated on its own. */
  lemma TruncationOfOne(a: string, b: string)
    ensures CoveredBy(Truncate(a), b) <==> CoveredBy(a, b)
    ensures Overlaps(Truncate(a), b) <==> Overlaps(a, b)
  {
    TruncateIdempotent(a);
    TruncationInvariance(a, b);
    TruncationInvariance(Truncate(a), b);
  }

  /** The levels of a well-formed filter: a "#" can only be the last one. */
  lemma WellFormedLevels(f: string)
    requires WellFormed(f)
    ensures LevelsAllowed(Split(f))
    ensures FixedLevels(Split(f)) < |Split(f)| ==> FixedLevels(Split(f)) == |Split(f)| - 1
    ensures Truncate(f) == f
    ensures Split(f) != [""]
  {
    GrammarByLevels(f);
    var levels := Split(f);
    JoinOfSplit(f);
    if FixedLevels(levels) < |levels| {
      assert LevelAllowed(levels, FixedLevels(levels));
      assert '#' in HASH;
      assert Cut(levels) == levels;
    }
  }

  // ---------- Matching, read one level at a time ----------

  predicate Accepts(f: seq<string>, t: seq<string>) {
    if f == [HASH] then true
    else if f == [] || t == [] then f == [] && t == []
    else (f[0] == PLUS || f[0] == t[0]) && Accepts(f[1..], t[1..])
  }

  lemma {:induction false} MatchingStepwise(f: seq<string>, t: seq<string>)
    requires FixedLevels(f) < |f| ==> FixedLevels(f) == |f| - 1
    requires FixedLevels(t) == |t|
    ensures MatchesLevels(f, t) <==> Accepts(f, t)
  {
    if f == [HASH] {
      assert FixedLevels(f) == 0;
    } else if f != [] && t != [] {
      MatchingStepwise(f[1..], t[1..]);
      assert f[0] != HASH;
      assert FixedLevels(f) == 1 + FixedLevels(f[1..]);
      assert forall i | 1 <= i < |f| :: f[i] == f[1..][i - 1];
      assert forall i | 1 <= i < |t| :: t[i] == t[1..][i - 1];
    }
  }

  /** Matching is what consuming filter and topic level by level decides; of a filter that is not well formed
      only the levels up to its first "#" are consumed. */
  lemma MatchesIsStepwise(f: string, t: string)
    requires WildcardFree(t)
    ensures Matches(f, t) <==> Accepts(Cut(Split(f)), Split(t))
    ensures WellFormed(f) ==> Cut(Split(f)) == Split(f)
  {
    FixedLevelsOfCut(Split(f));
    MatchingStepwise(Cut(Split(f)), Split(t));
    if WellFormed(f) {
      WellFormedLevels(f);
      SplitOfTruncate(f);
    }
  }

  // ---------- Coverage is an order ----------

  lemma CoverageReflexive(f: string)
    ensures CoveredBy(f, f)
  {
  }

  lemma CoverageTransitive(a: string, b: string, c: string)
    requires CoveredBy(a, b) && CoveredBy(b, c)
    ensures CoveredBy(a, c)
  {
  }

  lemma MutualCoverageLevels(a: seq<string>, b: seq<string>)
    requires |a| >= 1 && |b| >= 1
    ensures CoversLevels(a, b) && CoversLevels(b, a) <==> Cut(a) == Cut(b)
  {
  }

  /** Two strings cover each other exactly when they agree up to their first "#" level. */
  lemma MutualCoverage(a: string, b: string)
    ensures CoveredBy(a, b) && CoveredBy(b, a) <==> Truncate(a) == Truncate(b)
  {
    SplitOfTruncate(a);
    SplitOfTruncate(b);
    MutualCoverageLevels(Split(a), Split(b));
  }

  lemma CoverageAntisymmetric(a: string, b: string)
    requires WellFormed(a) && WellFormed(b)
    requires CoveredBy(a, b) && CoveredBy(b, a)
    ensures a == b
  {
    MutualCoverage(a, b);
    WellFormedLevels(a);
    WellFormedLevels(b);
  }

  // ---------- Overlap along coverage ----------

  lemma OverlapSymmetric(a: string, b: string)
    ensures Overlaps(a, b) <==> Overlaps(b, a)
  {
  }

  /** Widening one side keeps an overlap. */
  lemma OverlapMonotone(d: string, narrow: string, wide: string)
    requires Overlaps(d, narrow) && CoveredBy(wide, narrow)
    ensures Overlaps(d, wide)
  {
  }

  lemma CoverageImpliesOverlap(a: string, r: string)
    requires CoveredBy(a, r)
    ensures Overlaps(a, r)
  {
  }

  // ---------- Against a concrete topic ----------

  /** On a concrete topic both relations are matching, whatever the filter string. */
  lemma ConcreteTopic(f: string, t: string)
    requires IsTopic(t)
    ensures CoveredBy(f, t) <==> Matches(f, t)
    ensures Overlaps(f, t) <==> Matches(f, t)
  {
    TopicIsFilter(t);
    AgainstWildcardFree(f, t);
  }

  /** A string none of whose levels is a wildcard. Topics are such strings; "" and "a+" are others. */
  predicate WildcardFree(t: string) {
    forall i | 0 <= i < |Split(t)| :: Split(t)[i] != "+" && Split(t)[i] != "#"
  }

  /** The same holds against any string without a wildcard level. */
  lemma AgainstWildcardFree(f: string, t: string)
    requires WildcardFree(t)
    ensures CoveredBy(f, t) <==> Matches(f, t)
    ensures Overlaps(f, t) <==> Matches(f, t)
  {
    var fLevels, tLevels := Split(f), Split(t);
    if Overlaps(f, t) {
      forall i | 0 <= i < FixedLevels(fLevels) ensures fLevels[i] == PLUS || fLevels[i] == tLevels[i] {
        assert Compatible(fLevels[i], tLevels[i]);
      }
    }
  }

  /** Only a first-level "#" covers "#" itself. */
  lemma CoversHash(f: string)
    ensures CoveredBy(f, HASH) <==> Split(f)[0] == HASH
  {
    assert Split(HASH) == [HASH];
    assert FixedLevels([HASH]) == 0;
  }

  /** So the strings that cover every string at all are those whose first level is "#". */
  lemma CoversEverything(f: string)
    ensures (forall r: string :: CoveredBy(f, r)) <==> Split(f)[0] == HASH
  {
    CoversHash(f);
    if Split(f)[0] == HASH {
      assert FixedLevels(Split(f)) == 0;
    }
  }
}
