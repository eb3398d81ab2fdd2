/** The index loops of the broker that decide overlap and coverage of two filters.
    FilterExactness says what the two answers mean. */
module TopicLoops {
  import opened Levels
  import opened TopicFilter

  method TopicFiltersOverlap(left: string, right: string) returns (overlap: bool)
    ensures overlap == Overlaps(left, right)
  {
    var a, b := Split(left), Split(right);
    ghost var n, m := FixedLevels(a), FixedLevels(b);
    var i := 0;
    while true
      invariant i <= n && i <= m
      invariant forall j | 0 <= j < i :: Compatible(a[j], b[j])
      decreases |a| - i
    {
      if (i < |a| && a[i] == HASH) || (i < |b| && b[i] == HASH) {
        return true;
      }
      if i == |a| || i == |b| {
        return i == |a| && i == |b|;
      }
      if a[i] != PLUS && b[i] != PLUS && a[i] != b[i] {
        return false;
      }
      i := i + 1;
    }
  }

  method TopicCoveredBy(allowed: string, requested: string) returns (covered: bool)
    ensures covered == CoveredBy(allowed, requested)
  {
    var a, r := Split(allowed), Split(requested);
    ghost var n, m := FixedLevels(a), FixedLevels(r);
    for i := 0 to |a|
      invariant i <= n && i <= m
      invariant forall j | 0 <= j < i :: a[j] == PLUS || a[j] == r[j]
    {
      var part := a[i];
      if part == HASH {
        return true;
      }
      if i >= |r| {
        return false;
      }
      if part == PLUS {
        if r[i] == HASH {
          return false;
        }
        continue;
      }
      if r[i] == PLUS || r[i] == HASH || part != r[i] {
        return false;
      }
    }
    return |a| == |r|;
  }
}
