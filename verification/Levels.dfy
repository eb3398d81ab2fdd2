/** Topic levels: the pieces of a topic or filter between its '/' separators.
    `Split` models Go's strings.Split(s, "/"), which never returns an empty list. */
module Levels {

  function FirstSlash(s: string): (k: nat)
    requires '/' in s
    ensures k < |s| && s[k] == '/' && '/' !in s[..k]
  {
    if s[0] == '/' then 0 else
      var k := FirstSlash(s[1..]);
      assert s[..k + 1] == [s[0]] + s[1..][..k];
      k + 1
  }

  predicate NoSlash(levels: seq<string>) {
    forall i | 0 <= i < |levels| :: '/' !in levels[i]
  }

  function Split(s: string): (levels: seq<string>)
    ensures |levels| >= 1 && NoSlash(levels)
  {
    if '/' !in s then [s] else
      var k := FirstSlash(s);
      [s[..k]] + Split(s[k + 1..])
  }

  function Join(levels: seq<string>): string
    requires |levels| >= 1
  {
    if |levels| == 1 then levels[0] else levels[0] + "/" + Join(levels[1..])
  }

  lemma JoinOfCons(head: string, levels: seq<string>)
    requires |levels| >= 1
    ensures Join([head] + levels) == head + "/" + Join(levels)
  {
  }

  /** Splitting loses nothing. */
  lemma {:induction false} JoinOfSplit(s: string)
    ensures Join(Split(s)) == s
  {
    if '/' in s {
      var k := FirstSlash(s);
      var head, rest := s[..k], s[k + 1..];
      assert s == head + "/" + rest;
      JoinOfSplit(rest);
      JoinOfCons(head, Split(rest));
      assert Split(s) == [head] + Split(rest);
    }
  }

  lemma FirstSlashAfter(head: string, rest: string)
    requires '/' !in head
    ensures '/' in head + "/" + rest
    ensures FirstSlash(head + "/" + rest) == |head|
  {
    var s := head + "/" + rest;
    assert s[|head|] == '/';
    var k := FirstSlash(s);
    assert forall i | 0 <= i < |head| :: s[i] == head[i];
    assert forall i | 0 <= i < k :: s[..k][i] == s[i];
  }

  lemma SplitOfSlash(head: string, rest: string)
    requires '/' !in head
    ensures Split(head + "/" + rest) == [head] + Split(rest)
  {
    var s := head + "/" + rest;
    FirstSlashAfter(head, rest);
    assert s[..|head|] == head && s[|head| + 1..] == rest;
  }

  /** Any non-empty list of slash-free levels is the split of some string. */
  lemma {:induction false} SplitOfJoin(levels: seq<string>)
    requires |levels| >= 1 && NoSlash(levels)
    ensures Split(Join(levels)) == levels
  {
    if |levels| > 1 {
      SplitOfJoin(levels[1..]);
      SplitOfSlash(levels[0], Join(levels[1..]));
      assert [levels[0]] + levels[1..] == levels;
    }
  }

  /** A character other than '/' occurs in a string exactly when it occurs in one of its levels. */
  lemma {:induction false} CharInJoin(levels: seq<string>, c: char)
    requires |levels| >= 1 && c != '/'
    ensures c in Join(levels) <==> exists i | 0 <= i < |levels| :: c in levels[i]
  {
    if |levels| > 1 {
      CharInJoin(levels[1..], c);
      assert forall i | 1 <= i < |levels| :: levels[i] == levels[1..][i - 1];
    }
  }

  /** Only the one-level string with an empty level is empty. */
  lemma JoinEmpty(levels: seq<string>)
    requires |levels| >= 1
    ensures Join(levels) == "" <==> levels == [""]
  {
  }
}
