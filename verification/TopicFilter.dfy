/** MQTT topic filters: what they mean (section 4.7.1 of MQTT Version 3.1.1) and the two
    relations the broker decides on them, level by level. */
module TopicFilter {
  import opened Levels

  const HASH := "#"
  const PLUS := "+"

  // ---------- Meaning ----------

  /** A concrete topic: at least one character and no wildcard character. */
  predicate IsTopic(t: string) {
    t != "" && '+' !in t && '#' !in t
  }

  /** The number of levels before the first "#" level. */
  function FixedLevels(f: seq<string>): (n: nat)
    ensures n <= |f|
    ensures forall i | 0 <= i < n :: f[i] != HASH
    ensures n < |f| ==> f[n] == HASH
  {
    if f == [] || f[0] == HASH then 0 else 1 + FixedLevels(f[1..])
  }

  /** "+" stands for exactly one level, "#" for any number of levels after its parent,
      the parent itself included (4.7.1.2 and 4.7.1.3). */
  predicate MatchesLevels(f: seq<string>, t: seq<string>) {
    var n := FixedLevels(f);
    && (if n < |f| then n <= |t| else n == |t|)
    && forall i | 0 <= i < n :: f[i] == PLUS || f[i] == t[i]
  }

  predicate Matches(f: string, t: string) {
    MatchesLevels(Split(f), Split(t))
  }

  /** The grammar of section 4.7.1, character by character. */
  predicate WellFormed(f: string) {
    && f != ""
    && forall i | 0 <= i < |f| :: CharAllowed(f, i)
  }

  predicate CharAllowed(f: string, i: nat)
    requires i < |f|
  {
    var opensLevel := i == 0 || f[i - 1] == '/';
    && (f[i] == '#' ==> opensLevel && i == |f| - 1)
    && (f[i] == '+' ==> opensLevel && (i == |f| - 1 || f[i + 1] == '/'))
  }

  // ---------- The two relations ----------

  /** Every fixed level of `a` is present in `r` before any "#", and accepts it. */
  predicate CoversLevels(a: seq<string>, r: seq<string>) {
    var n := FixedLevels(a);
    && n <= FixedLevels(r)
    && (n == |a| ==> |r| == n)
    && forall i | 0 <= i < n :: a[i] == PLUS || a[i] == r[i]
  }

  predicate Compatible(x: string, y: string) {
    x == PLUS || y == PLUS || x == y
  }

  /** The two level counts can agree, and the levels fixed on both sides are compatible. */
  predicate OverlapsLevels(a: seq<string>, b: seq<string>) {
    var n, m := FixedLevels(a), FixedLevels(b);
    && (n == |a| ==> m <= n)
    && (m == |b| ==> n <= m)
    && forall i | 0 <= i < n && i < m :: Compatible(a[i], b[i])
  }

  predicate CoveredBy(allowed: string, requested: string) {
    CoversLevels(Split(allowed), Split(requested))
  }

  predicate Overlaps(left: string, right: string) {
    OverlapsLevels(Split(left), Split(right))
  }
}
