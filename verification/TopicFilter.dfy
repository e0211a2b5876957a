/**
  Matching of MQTT topic names against topic filters, section 4.7 of MQTT 3.1.1.
*/
module TopicFilter {

  const SEPARATOR: char := '/'
  const ONE_LEVEL: string := "+"
  const MANY_LEVELS: string := "#"

  // ---------------------------------------------------------------------
  // Levels
  // ---------------------------------------------------------------------

  /** The levels of a topic; there is always at least one. */
  function Levels(s: string): (levels: seq<string>)
    ensures |levels| >= 1
  {
    if s == [] then [[]]
    else if s[0] == SEPARATOR then [[]] + Levels(s[1..])
    else
      var rest := Levels(s[1..]);
      [[s[0]] + rest[0]] + rest[1..]
  }

  function Join(levels: seq<string>): string
    requires |levels| >= 1
  {
    if |levels| == 1 then levels[0] else levels[0] + [SEPARATOR] + Join(levels[1..])
  }

  lemma {:induction false} JoinUndoesLevels(s: string)
    ensures Join(Levels(s)) == s
    decreases |s|
  {
    if s != [] {
      var rest := Levels(s[1..]);
      JoinUndoesLevels(s[1..]);
      if s[0] == SEPARATOR {
        assert ([[]] + rest)[1..] == rest;
        assert Join([[]] + rest) == [] + [SEPARATOR] + s[1..];
      } else {
        assert ([[s[0]] + rest[0]] + rest[1..])[1..] == rest[1..];
        assert s == [s[0]] + s[1..];
      }
    }
  }

  // ---------------------------------------------------------------------
  // Matching
  // ---------------------------------------------------------------------

  predicate LevelMatches(filter: string, level: string) {
    filter == ONE_LEVEL || filter == level
  }

  /** The first k levels agree, none of them being the multi-level wildcard. */
  ghost predicate AgreeUpTo(filter: seq<string>, topic: seq<string>, k: nat) {
    && k <= |filter| && k <= |topic|
    && forall i :: 0 <= i < k ==> filter[i] != MANY_LEVELS && LevelMatches(filter[i], topic[i])
  }

  /** All levels agree, or all before a multi-level wildcard, which also stands for no level at all. */
  ghost predicate LevelsMatch(filter: seq<string>, topic: seq<string>) {
    || (|filter| == |topic| && AgreeUpTo(filter, topic, |filter|))
    || exists k :: 0 <= k < |filter| && filter[k] == MANY_LEVELS && AgreeUpTo(filter, topic, k)
  }

  predicate Internal(s: string) {
    s != [] && s[0] == '$'
  }

  /** Wildcards do not reach the server's own topics. */
  ghost predicate Matches(filter: string, topic: string) {
    (Internal(topic) ==> Internal(filter)) && LevelsMatch(Levels(filter), Levels(topic))
  }

  lemma {:induction false} AgreeWithItself(levels: seq<string>, k: nat)
    requires k <= |levels|
    ensures LevelsMatch(levels, levels)
    decreases |levels| - k
    requires AgreeUpTo(levels, levels, k)
  {
    if k < |levels| && levels[k] != MANY_LEVELS {
      AgreeWithItself(levels, k + 1);
    }
  }

  lemma HashMatches(topic: string)
    ensures Matches(MANY_LEVELS, topic) <==> !Internal(topic)
  {
    var f: string := "#";
    assert f[1..] == [];
    assert Levels(f) == [[f[0]] + []] + [];
    assert Levels(f)[0] == "#";
    assert AgreeUpTo(Levels("#"), Levels(topic), 0);
  }

  /** Once a level disagrees, nothing further on helps. */
  lemma Disagree(filter: seq<string>, topic: seq<string>, k: nat)
    requires AgreeUpTo(filter, topic, k) && k < |filter| && filter[k] != MANY_LEVELS
    requires k >= |topic| || !LevelMatches(filter[k], topic[k])
    ensures !LevelsMatch(filter, topic)
  {
  }

  method TopicMatches(filter: string, topic: string) returns (r: bool)
    ensures r <==> Matches(filter, topic)
  {
    if filter == topic {
      AgreeWithItself(Levels(topic), 0);
      return true;
    }
    if filter == MANY_LEVELS {
      HashMatches(topic);
      return !Internal(topic);
    }
    if Internal(topic) && !Internal(filter) {
      return false;
    }
    var filterLevels := Levels(filter);
    var topicLevels := Levels(topic);
    for i := 0 to |filterLevels|
      invariant AgreeUpTo(filterLevels, topicLevels, i)
    {
      if filterLevels[i] == MANY_LEVELS {
        return true;
      }
      if i >= |topicLevels| {
        Disagree(filterLevels, topicLevels, i);
        return false;
      }
      if filterLevels[i] == ONE_LEVEL {
        continue;
      }
      if filterLevels[i] != topicLevels[i] {
        Disagree(filterLevels, topicLevels, i);
        return false;
      }
    }
    return |filterLevels| == |topicLevels|;
  }

  /** A filter without wildcards matches its own topic and no other. */
  lemma PlainFilterMatchesItself(filter: string, topic: string)
    requires forall level <- Levels(filter) :: level != ONE_LEVEL && level != MANY_LEVELS
    ensures Matches(filter, topic) <==> filter == topic
  {
    var f, t := Levels(filter), Levels(topic);
    JoinUndoesLevels(filter);
    JoinUndoesLevels(topic);
    if Matches(filter, topic) {
      assert |f| == |t| && AgreeUpTo(f, t, |f|) by {
        forall k | 0 <= k < |f|
          ensures f[k] != MANY_LEVELS
        {
          assert f[k] in f;
        }
      }
      forall i | 0 <= i < |f|
        ensures f[i] == t[i]
      {
        assert f[i] in f;
      }
      assert f == t;
    }
    if filter == topic {
      AgreeWithItself(t, 0);
    }
  }
}
