/** Coverage is language inclusion and overlap is a shared topic, up to a named handful of pairs. */
module FilterExactness {
  import opened Levels
  import opened TopicFilter
  import opened FilterGrammar
  import opened FilterAlgebra

  ghost predicate Included(r: string, a: string) {
    forall t: string | IsTopic(t) && Matches(r, t) :: Matches(a, t)
  }

  ghost predicate ShareTopic(a: string, b: string) {
    exists t: string :: IsTopic(t) && Matches(a, t) && Matches(b, t)
  }

  /** The pairs (a, r) of filters where a has every topic of r and yet does not cover it.
      In the last two "/#" could only have the empty string as its one-level topic. */
  predicate CoverageGap(a: string, r: string) {
    || (a == "+/#" && r == "#")
    || (a == "/+/#" && r == "/#")
    || (a == "+/+/#" && r == "/#")
  }

  /** The pairs whose only common string is the empty one, which is not a topic. */
  predicate OverlapGap(a: string, b: string) {
    || (a == "+" && b == "/#")
    || (a == "/#" && b == "+")
  }

  // ---------- Building topics ----------

  /** A level that no level of `a` equals. */
  function Fresh(a: seq<string>): (x: string)
    ensures x != "" && x !in a && '/' !in x && '+' !in x && '#' !in x
  {
    LongerThanAll(a);
    seq(TotalLength(a) + 1, _ => 'x')
  }

  function TotalLength(a: seq<string>): nat {
    if a == [] then 0 else |a[0]| + TotalLength(a[1..])
  }

  lemma {:induction false} LongerThanAll(a: seq<string>)
    ensures forall l | l in a :: |l| <= TotalLength(a)
  {
    if a != [] {
      LongerThanAll(a[1..]);
      assert forall l | l in a :: l == a[0] || l in a[1..];
    }
  }

  /** The topic of `r` that puts `x` for each "+" and `k` levels `x` for the "#". */
  function Instance(r: seq<string>, x: string, k: nat): (t: seq<string>)
    ensures |t| == FixedLevels(r) + k
  {
    seq(FixedLevels(r), i requires 0 <= i < FixedLevels(r) => if r[i] == PLUS then x else r[i]) + seq(k, _ => x)
  }

  lemma InstanceMatches(r: seq<string>, x: string, k: nat)
    requires FixedLevels(r) == |r| ==> k == 0
    ensures MatchesLevels(r, Instance(r, x, k))
  {
  }

  /** No wildcard character and no slash: such levels join to a topic unless they join to "". */
  predicate Plain(t: seq<string>) {
    forall i | 0 <= i < |t| :: '/' !in t[i] && '+' !in t[i] && '#' !in t[i]
  }

  lemma InstancePlain(r: seq<string>, x: string, k: nat)
    requires LevelsAllowed(r) && NoSlash(r) && Plain([x])
    ensures Plain(Instance(r, x, k))
  {
    var t := Instance(r, x, k);
    assert [x][0] == x;
    forall i | 0 <= i < |t| ensures '/' !in t[i] && '+' !in t[i] && '#' !in t[i] {
      if i < FixedLevels(r) {
        assert LevelAllowed(r, i);
      }
    }
  }

  lemma JoinIsTopic(t: seq<string>)
    requires |t| >= 1 && Plain(t) && t != [""]
    ensures IsTopic(Join(t)) && Split(Join(t)) == t
  {
    SplitOfJoin(t);
    CharInJoin(t, '+');
    CharInJoin(t, '#');
    JoinEmpty(t);
  }

  // ---------- Coverage ----------

  lemma CoverageSound(a: string, r: string, t: string)
    requires IsTopic(t) && CoveredBy(a, r) && Matches(r, t)
    ensures Matches(a, t)
  {
  }

  /** An uncovered filter has a topic outside, or else it is a shorter "#" under trailing "+" levels. */
  lemma LongInstanceEscapes(a: seq<string>, r: seq<string>, x: string, k: nat)
    requires x !in a && !CoversLevels(a, r)
    requires if FixedLevels(r) < |r| then k > |a| else k == 0
    requires MatchesLevels(a, Instance(r, x, k))
    ensures FixedLevels(r) < FixedLevels(a) < |a| && FixedLevels(r) < |r|
    ensures forall i | FixedLevels(r) <= i < FixedLevels(a) :: a[i] == PLUS
    ensures forall i | 0 <= i < FixedLevels(r) :: a[i] == PLUS || a[i] == r[i]
  {
  }

  /** Levels of a topic of r outside a. */
  lemma EscapingLevels(a: string, r: string) returns (t: seq<string>)
    requires WellFormed(a) && WellFormed(r)
    requires !CoveredBy(a, r) && !CoverageGap(a, r)
    ensures |t| >= 1 && Plain(t) && t != [""]
    ensures MatchesLevels(Split(r), t) && !MatchesLevels(Split(a), t)
  {
    var aLevels, rLevels := Split(a), Split(r);
    WellFormedLevels(r);
    var n, m := FixedLevels(aLevels), FixedLevels(rLevels);
    var x := Fresh(aLevels);
    var k := if m < |rLevels| then |aLevels| + 1 else 0;
    InstanceMatches(rLevels, x, k);
    t := Instance(rLevels, x, k);
    if MatchesLevels(aLevels, t) {
      LongInstanceEscapes(aLevels, rLevels, x, k);
      NotAGap(a, r);
      k := n - 1 - m;
      InstanceMatches(rLevels, x, k);
      t := Instance(rLevels, x, k);
    }
    InstancePlain(rLevels, x, k);
    if |t| == 1 {
      assert t[0] == if m == 0 || rLevels[0] == PLUS then x else rLevels[0];
    }
  }

  /** A topic of r outside a, for every uncovered pair but the three gaps. */
  lemma Uncovered(a: string, r: string) returns (t: string)
    requires WellFormed(a) && WellFormed(r)
    requires !CoveredBy(a, r) && !CoverageGap(a, r)
    ensures IsTopic(t) && Matches(r, t) && !Matches(a, t)
  {
    var levels := EscapingLevels(a, r);
    JoinIsTopic(levels);
    t := Join(levels);
  }

  lemma GapStrings()
    ensures Join([HASH]) == "#" && Join(["", HASH]) == "/#" && Join([PLUS]) == "+"
    ensures Join([PLUS, HASH]) == "+/#" && Join(["", PLUS, HASH]) == "/+/#" && Join([PLUS, PLUS, HASH]) == "+/+/#"
  {
  }

  lemma SplitGaps()
    ensures Split("#") == [HASH] && Split("/#") == ["", HASH] && Split("+") == [PLUS]
    ensures Split("+/#") == [PLUS, HASH] && Split("/+/#") == ["", PLUS, HASH] && Split("+/+/#") == [PLUS, PLUS, HASH]
  {
    GapStrings();
    SplitOfJoin([HASH]);
    SplitOfJoin(["", HASH]);
    SplitOfJoin([PLUS]);
    SplitOfJoin([PLUS, HASH]);
    SplitOfJoin(["", PLUS, HASH]);
    SplitOfJoin([PLUS, PLUS, HASH]);
  }

  lemma StringsOfGap(a: string, r: string)
    requires (Split(a), Split(r)) in
               {([PLUS, HASH], [HASH]), (["", PLUS, HASH], ["", HASH]), ([PLUS, PLUS, HASH], ["", HASH])}
    ensures CoverageGap(a, r)
  {
    JoinOfSplit(a);
    JoinOfSplit(r);
    GapStrings();
  }

  /** Only trailing "+" levels of a separate it from a shorter "#" filter r. */
  predicate TrailingPlus(a: seq<string>, r: seq<string>) {
    && FixedLevels(r) < FixedLevels(a) < |a| && FixedLevels(r) < |r|
    && (forall i | FixedLevels(r) <= i < FixedLevels(a) :: a[i] == PLUS)
    && (forall i | 0 <= i < FixedLevels(r) :: a[i] == PLUS || a[i] == r[i])
  }

  /** Then the topic one level short of a is a real one, unless the pair is a gap. */
  lemma NotAGap(a: string, r: string)
    requires WellFormed(a) && WellFormed(r) && !CoverageGap(a, r)
    requires TrailingPlus(Split(a), Split(r))
    ensures FixedLevels(Split(a)) >= 2
    ensures FixedLevels(Split(a)) == 2 && FixedLevels(Split(r)) == 1 ==> Split(r)[0] != ""
  {
    var aLevels, rLevels := Split(a), Split(r);
    var n, m := FixedLevels(aLevels), FixedLevels(rLevels);
    WellFormedLevels(a);
    WellFormedLevels(r);
    if n == 1 {
      assert aLevels == [PLUS, HASH] && rLevels == [HASH];
      StringsOfGap(a, r);
    }
    if n == 2 && m == 1 && rLevels[0] == "" {
      assert rLevels == ["", HASH] && aLevels == [aLevels[0], PLUS, HASH];
      StringsOfGap(a, r);
    }
  }

  /** Every topic of the gap's right side is one of its left side all the same. */
  lemma GapIncluded(a: string, r: string)
    requires CoverageGap(a, r)
    ensures Included(r, a) && !CoveredBy(a, r)
  {
    SplitGaps();
    GapLevels(Split(a), Split(r), ["", ""]);
    forall t: string | IsTopic(t) && Matches(r, t) ensures Matches(a, t) {
      TopicNotOneEmptyLevel(t);
      GapLevels(Split(a), Split(r), Split(t));
    }
  }

  lemma TopicNotOneEmptyLevel(t: string)
    requires IsTopic(t)
    ensures Split(t) != [""]
  {
  }

  lemma GapLevels(a: seq<string>, r: seq<string>, t: seq<string>)
    requires (a, r) in {([PLUS, HASH], [HASH]), (["", PLUS, HASH], ["", HASH]), ([PLUS, PLUS, HASH], ["", HASH])}
    requires |t| >= 1 && t != [""]
    ensures MatchesLevels(r, t) ==> MatchesLevels(a, t)
    ensures !CoversLevels(a, r)
  {
    FixedLevelsOfGap(a);
    FixedLevelsOfGap(r);
  }

  lemma FixedLevelsOfGap(f: seq<string>)
    requires 1 <= |f| <= 3 && f[|f| - 1] == HASH && (forall i | 0 <= i < |f| - 1 :: f[i] != HASH)
    ensures FixedLevels(f) == |f| - 1
  {
  }

  /** Coverage of well-formed filters is inclusion of their topics, outside three pairs. */
  lemma CoverageExact(a: string, r: string)
    requires WellFormed(a) && WellFormed(r)
    ensures CoveredBy(a, r) <==> Included(r, a) && !CoverageGap(a, r)
    ensures CoverageGap(a, r) ==> Included(r, a)
  {
    if CoverageGap(a, r) {
      GapIncluded(a, r);
    } else if CoveredBy(a, r) {
      forall t: string | IsTopic(t) && Matches(r, t) ensures Matches(a, t) {
        CoverageSound(a, r, t);
      }
    } else {
      var t := Uncovered(a, r);
    }
  }

  // ---------- Overlap ----------

  /** Pick each level from the side that fixes it. */
  function Merge(a: seq<string>, b: seq<string>, size: nat): (t: seq<string>)
    ensures |t| == size
  {
    seq(size, i =>
      if 0 <= i < FixedLevels(a) && a[i] != PLUS then a[i]
      else if 0 <= i < FixedLevels(b) && b[i] != PLUS then b[i]
      else "x")
  }

  lemma MergePlain(a: seq<string>, b: seq<string>, size: nat)
    requires LevelsAllowed(a) && LevelsAllowed(b) && NoSlash(a) && NoSlash(b)
    ensures Plain(Merge(a, b, size))
  {
    var t := Merge(a, b, size);
    forall i | 0 <= i < size ensures '/' !in t[i] && '+' !in t[i] && '#' !in t[i] {
      if i < FixedLevels(a) {
        assert LevelAllowed(a, i);
      }
      if i < FixedLevels(b) {
        assert LevelAllowed(b, i);
      }
    }
  }

  function MergeSize(a: seq<string>, b: seq<string>): nat {
    var n, m := FixedLevels(a), FixedLevels(b);
    if n == |a| then n else if m == |b| then m else n + m + 2
  }

  lemma MergeMatches(a: seq<string>, b: seq<string>)
    requires OverlapsLevels(a, b)
    ensures MatchesLevels(a, Merge(a, b, MergeSize(a, b))) && MatchesLevels(b, Merge(a, b, MergeSize(a, b)))
  {
  }

  /** The common topic of two overlapping filters. */
  lemma CommonTopic(a: string, b: string) returns (t: string)
    requires WellFormed(a) && WellFormed(b)
    requires Overlaps(a, b) && !OverlapGap(a, b)
    ensures IsTopic(t) && Matches(a, t) && Matches(b, t)
  {
    var aLevels, bLevels := Split(a), Split(b);
    WellFormedLevels(a);
    WellFormedLevels(b);
    var levels := Merge(aLevels, bLevels, MergeSize(aLevels, bLevels));
    MergeMatches(aLevels, bLevels);
    MergePlain(aLevels, bLevels, MergeSize(aLevels, bLevels));
    if levels == [""] {
      EmptyMerge(a, b);
    }
    JoinIsTopic(levels);
    t := Join(levels);
  }

  lemma EmptyMerge(a: string, b: string)
    requires WellFormed(a) && WellFormed(b) && Overlaps(a, b)
    requires Merge(Split(a), Split(b), MergeSize(Split(a), Split(b))) == [""]
    ensures OverlapGap(a, b)
  {
    var aLevels, bLevels := Split(a), Split(b);
    WellFormedLevels(a);
    WellFormedLevels(b);
    var n, m := FixedLevels(aLevels), FixedLevels(bLevels);
    JoinOfSplit(a);
    JoinOfSplit(b);
    GapStrings();
    assert Merge(aLevels, bLevels, 1)[0] == "";
    if n == |aLevels| {
      assert aLevels == [PLUS] && bLevels == ["", HASH];
    } else {
      assert bLevels == [PLUS] && aLevels == ["", HASH];
    }
  }

  lemma SharedImpliesOverlap(a: string, b: string, t: string)
    requires IsTopic(t) && Matches(a, t) && Matches(b, t)
    ensures Overlaps(a, b)
  {
  }

  lemma OverlapGapLevels(t: seq<string>)
    requires t != [""]
    ensures OverlapsLevels([PLUS], ["", HASH])
    ensures !MatchesLevels([PLUS], t) || !MatchesLevels(["", HASH], t)
  {
  }

  lemma OverlapGapEmpty(a: string, b: string)
    requires OverlapGap(a, b)
    ensures Overlaps(a, b) && !ShareTopic(a, b)
  {
    SplitGaps();
    OverlapSymmetric(a, b);
    OverlapGapLevels(["", ""]);
    forall t: string | IsTopic(t) ensures !(Matches(a, t) && Matches(b, t)) {
      TopicNotOneEmptyLevel(t);
      OverlapGapLevels(Split(t));
    }
  }

  /** Overlap of well-formed filters is having a common topic, outside one unordered pair. */
  lemma OverlapExact(a: string, b: string)
    requires WellFormed(a) && WellFormed(b)
    ensures ShareTopic(a, b) <==> Overlaps(a, b) && !OverlapGap(a, b)
    ensures OverlapGap(a, b) ==> Overlaps(a, b)
  {
    if OverlapGap(a, b) {
      OverlapGapEmpty(a, b);
    } else if Overlaps(a, b) {
      var t := CommonTopic(a, b);
    }
    if ShareTopic(a, b) {
      var t :| IsTopic(t) && Matches(a, t) && Matches(b, t);
      SharedImpliesOverlap(a, b, t);
    }
  }

  /** Inclusion itself is not antisymmetric, so coverage is strictly finer than it. */
  lemma InclusionNotAntisymmetric()
    ensures Included("#", "+/#") && Included("+/#", "#") && "#" != "+/#"
  {
  }

  // ---------- Strings nobody validated ----------

  ghost predicate IncludedFree(r: string, a: string) {
    forall t: string | WildcardFree(t) && Matches(r, t) :: Matches(a, t)
  }

  lemma JoinIsWildcardFree(t: seq<string>)
    requires |t| >= 1 && NoSlash(t) && forall i | 0 <= i < |t| :: t[i] != PLUS && t[i] != HASH
    ensures WildcardFree(Join(t)) && Split(Join(t)) == t
  {
    SplitOfJoin(t);
  }

  lemma InstanceWildcardFree(r: seq<string>, x: string, k: nat)
    requires NoSlash(r) && x != PLUS && x != HASH && '/' !in x
    ensures var t := Instance(r, x, k);
            NoSlash(t) && forall i | 0 <= i < |t| :: t[i] != PLUS && t[i] != HASH
  {
  }

  /** Levels without a wildcard that r matches and a does not. */
  lemma EscapingFreeLevels(a: seq<string>, r: seq<string>) returns (t: seq<string>)
    requires |r| >= 1 && NoSlash(r) && !CoversLevels(a, r)
    requires !(Cut(r) == [HASH] && |a| >= 1 && Cut(a) == [PLUS, HASH])
    ensures |t| >= 1 && NoSlash(t) && forall i | 0 <= i < |t| :: t[i] != PLUS && t[i] != HASH
    ensures MatchesLevels(r, t) && !MatchesLevels(a, t)
  {
    var x := Fresh(a);
    var k := if FixedLevels(r) < |r| then |a| + 1 else 0;
    assert '+' in PLUS && '#' in HASH;
    InstanceMatches(r, x, k);
    t := Instance(r, x, k);
    if MatchesLevels(a, t) {
      LongInstanceEscapes(a, r, x, k);
      k := FixedLevels(a) - 1 - FixedLevels(r);
      InstanceMatches(r, x, k);
      t := Instance(r, x, k);
    }
    InstanceWildcardFree(r, x, k);
  }

  /** On arbitrary strings, read level by level, coverage is inclusion with a single gap up to truncation. */
  lemma CoverageExactOnStrings(a: string, r: string)
    ensures CoveredBy(a, r) <==> IncludedFree(r, a) && !(Truncate(a) == "+/#" && Truncate(r) == "#")
    ensures Truncate(a) == "+/#" && Truncate(r) == "#" ==> IncludedFree(r, a)
  {
    SplitOfTruncate(a);
    SplitOfTruncate(r);
    SplitGaps();
    var aCut, rCut := Cut(Split(a)), Cut(Split(r));
    assert Truncate(a) == "+/#" <==> aCut == [PLUS, HASH] by {
      GapStrings();
    }
    assert Truncate(r) == "#" <==> rCut == [HASH] by {
      GapStrings();
    }
    if CoveredBy(a, r) {
      CoveredIncludesFree(a, r);
      GapNotCovered(Split(a), Split(r));
    } else if aCut == [PLUS, HASH] && rCut == [HASH] {
      GapNotCovered(Split(a), Split(r));
    } else {
      var levels := EscapingFreeLevels(Split(a), Split(r));
      JoinIsWildcardFree(levels);
      assert WildcardFree(Join(levels)) && Matches(r, Join(levels)) && !Matches(a, Join(levels));
    }
  }

  lemma CoveredIncludesFree(a: string, r: string)
    requires CoveredBy(a, r)
    ensures IncludedFree(r, a)
  {
    forall t: string | WildcardFree(t) && Matches(r, t) ensures Matches(a, t) {
      AgainstWildcardFree(r, t);
      CoverageTransitive(a, r, t);
      AgainstWildcardFree(a, t);
    }
  }

  lemma GapNotCovered(a: seq<string>, r: seq<string>)
    requires |a| >= 1 && |r| >= 1
    ensures Cut(a) == [PLUS, HASH] && Cut(r) == [HASH] ==>
              !CoversLevels(a, r) && forall t: seq<string> | |t| >= 1 :: MatchesLevels(a, t)
  {
    FixedLevelsOfCut(a);
    FixedLevelsOfCut(r);
    if Cut(a) == [PLUS, HASH] {
      assert FixedLevels(a) == 1 && a[0] == Cut(a)[0];
    }
  }

  /** And overlap is having a common string without a wildcard level, with no gap at all. */
  lemma OverlapExactOnStrings(a: string, b: string)
    ensures Overlaps(a, b) <==> exists t: string :: WildcardFree(t) && Matches(a, t) && Matches(b, t)
  {
    if Overlaps(a, b) {
      var levels := Merge(Split(a), Split(b), MergeSize(Split(a), Split(b)));
      MergeMatches(Split(a), Split(b));
      assert NoSlash(levels) && forall i | 0 <= i < |levels| :: levels[i] != PLUS && levels[i] != HASH;
      JoinIsWildcardFree(levels);
      assert WildcardFree(Join(levels)) && Matches(a, Join(levels)) && Matches(b, Join(levels));
    }
    if t: string :| WildcardFree(t) && Matches(a, t) && Matches(b, t) {
      AgainstWildcardFree(a, t);
      AgainstWildcardFree(b, t);
      OverlapMonotone(a, t, b);
    }
  }
}
