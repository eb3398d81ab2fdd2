/** The character grammar of section 4.7.1 and the level-by-level test of validateFilter agree. */
module FilterGrammar {
  import opened Levels
  import opened TopicFilter

  /** A level is "+", or the final "#", or holds no wildcard character. */
  predicate LevelAllowed(levels: seq<string>, i: nat)
    requires i < |levels|
  {
    && ('#' in levels[i] ==> levels[i] == HASH && i == |levels| - 1)
    && ('+' in levels[i] ==> levels[i] == PLUS)
  }

  predicate LevelsAllowed(levels: seq<string>) {
    forall i | 0 <= i < |levels| :: LevelAllowed(levels, i)
  }

  predicate CharsAllowed(f: string) {
    forall i | 0 <= i < |f| :: CharAllowed(f, i)
  }

  /** One level on its own. */
  lemma LastLevelAllowed(f: string)
    requires '/' !in f
    ensures CharsAllowed(f) <==> LevelsAllowed([f])
  {
    if CharsAllowed(f) && ('#' in f || '+' in f) {
      var i :| 0 <= i < |f| && f[i] in {'#', '+'};
      assert CharAllowed(f, i);
      assert f == [f[i]];
    }
    if LevelsAllowed([f]) {
      assert LevelAllowed([f], 0);
      forall i | 0 <= i < |f| ensures CharAllowed(f, i) {}
    }
  }

  /** A level followed by others. */
  predicate InnerLevelAllowed(head: string) {
    '#' !in head && ('+' in head ==> head == PLUS)
  }

  lemma InnerCharsAllowed(head: string, rest: string)
    requires '/' !in head
    ensures (forall i | 0 <= i < |head| :: CharAllowed(head + "/" + rest, i)) <==> InnerLevelAllowed(head)
  {
    var s := head + "/" + rest;
    assert forall i | 0 <= i < |head| :: s[i] == head[i];
    if forall i | 0 <= i < |head| :: CharAllowed(s, i) {
      if '#' in head || '+' in head {
        var i :| 0 <= i < |head| && head[i] in {'#', '+'};
        assert CharAllowed(s, i);
        assert head == [head[i]];
      }
    }
  }

  lemma RestCharsAllowed(head: string, rest: string)
    requires '/' !in head
    ensures (forall i | |head| <= i < |head + "/" + rest| :: CharAllowed(head + "/" + rest, i)) <==> CharsAllowed(rest)
  {
    var s, k := head + "/" + rest, |head| + 1;
    forall i | 0 <= i < |rest| ensures CharAllowed(s, k + i) <==> CharAllowed(rest, i) {
      assert s[k + i] == rest[i];
      assert s[k + i - 1] == if i == 0 then '/' else rest[i - 1];
      assert i + 1 < |rest| ==> s[k + i + 1] == rest[i + 1];
    }
    if CharsAllowed(rest) {
      forall i | |head| <= i < |s| ensures CharAllowed(s, i) {
        if i >= k {
          assert CharAllowed(rest, i - k);
        }
      }
    }
  }

  lemma ConsLevelsAllowed(head: string, rest: seq<string>)
    requires |rest| >= 1
    ensures LevelsAllowed([head] + rest) <==> InnerLevelAllowed(head) && LevelsAllowed(rest)
  {
    var all := [head] + rest;
    forall i | 0 <= i < |rest| ensures LevelAllowed(rest, i) <==> LevelAllowed(all, i + 1) {}
    if InnerLevelAllowed(head) && LevelsAllowed(rest) {
      forall i | 0 <= i < |all| ensures LevelAllowed(all, i) {
        if i > 0 {
          assert LevelAllowed(rest, i - 1);
        }
      }
    }
    if LevelsAllowed(all) {
      assert LevelAllowed(all, 0);
    }
  }

  /** The level test over the split accepts exactly the strings the character grammar accepts. */
  lemma {:induction false} GrammarByLevels(f: string)
    ensures CharsAllowed(f) <==> LevelsAllowed(Split(f))
  {
    if '/' !in f {
      LastLevelAllowed(f);
    } else {
      var k := FirstSlash(f);
      var head, rest := f[..k], f[k + 1..];
      assert f == head + "/" + rest;
      SplitOfSlash(head, rest);
      GrammarByLevels(rest);
      InnerCharsAllowed(head, rest);
      RestCharsAllowed(head, rest);
      ConsLevelsAllowed(head, Split(rest));
      assert CharsAllowed(f) <==>
             (forall i | 0 <= i < |head| :: CharAllowed(f, i)) && (forall i | |head| <= i < |f| :: CharAllowed(f, i));
    }
  }

  /** A topic is a well-formed filter: its levels hold no wildcard. */
  lemma TopicIsFilter(t: string)
    requires IsTopic(t)
    ensures WellFormed(t)
    ensures FixedLevels(Split(t)) == |Split(t)|
    ensures forall i | 0 <= i < |Split(t)| :: Split(t)[i] != PLUS
  {
  }
}
