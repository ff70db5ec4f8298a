/** SQL LIKE with '%' wildcards, matched greedily from the left (executor/filter.go). */
module Like {

  // ----- what a pattern means -----

  function Wildcards(pattern: string): nat {
    if pattern == "" then 0 else (if pattern[0] == '%' then 1 else 0) + Wildcards(pattern[1..])
  }

  /** The pattern with its wildcards replaced, in order, by the given strings. */
  function Filled(pattern: string, fills: seq<string>): string
    requires |fills| == Wildcards(pattern)
  {
    if pattern == "" then ""
    else if pattern[0] == '%' then fills[0] + Filled(pattern[1..], fills[1..])
    else [pattern[0]] + Filled(pattern[1..], fills)
  }

  /** Some choice of strings for the wildcards turns the pattern into the string. */
  ghost predicate Matches(str: string, pattern: string) {
    exists fills: seq<string> :: |fills| == Wildcards(pattern) && Filled(pattern, fills) == str
  }

  // ----- the pieces between the wildcards -----

  /** strings.Split on the wildcard. */
  function Split(pattern: string): (parts: seq<string>)
    ensures |parts| == Wildcards(pattern) + 1
  {
    if pattern == "" then [""]
    else
      var rest := Split(pattern[1..]);
      if pattern[0] == '%' then [""] + rest else [[pattern[0]] + rest[0]] + rest[1..]
  }

  /** Fills and pieces in turn. */
  function Woven(fills: seq<string>, parts: seq<string>): string
    requires |fills| == |parts|
  {
    if fills == [] then "" else fills[0] + parts[0] + Woven(fills[1..], parts[1..])
  }

  lemma {:induction false} FilledIsWoven(pattern: string, fills: seq<string>)
    requires |fills| == Wildcards(pattern)
    ensures Filled(pattern, fills) == Split(pattern)[0] + Woven(fills, Split(pattern)[1..])
  {
    if pattern != "" {
      var rest := Split(pattern[1..]);
      if pattern[0] == '%' {
        FilledIsWoven(pattern[1..], fills[1..]);
        assert Split(pattern)[1..] == rest;
        assert fills[0] + (rest[0] + Woven(fills[1..], rest[1..])) == fills[0] + rest[0] + Woven(fills[1..], rest[1..]);
      } else {
        FilledIsWoven(pattern[1..], fills);
        assert Split(pattern)[1..] == rest[1..];
      }
    }
  }

  lemma {:induction false} SplitAlone(pattern: string)
    requires Wildcards(pattern) == 0
    ensures Split(pattern) == [pattern]
  {
    if pattern != "" {
      SplitAlone(pattern[1..]);
      assert [pattern[0]] + pattern[1..] == pattern;
    }
  }

  // ----- matching the pieces after the first -----

  ghost predicate OccursAt(s: string, part: string, k: nat) { k + |part| <= |s| && s[k..k + |part|] == part }

  predicate HasSuffix(s: string, part: string) { |part| <= |s| && s[|s| - |part|..] == part }

  /** The pieces occur in order, apart, the last at the end. */
  ghost predicate Ends(s: string, parts: seq<string>)
    requires parts != []
    decreases |parts|
  {
    if |parts| == 1 then HasSuffix(s, parts[0])
    else exists k: nat :: OccursAt(s, parts[0], k) && Ends(s[k + |parts[0]|..], parts[1..])
  }

  lemma {:induction false} EndsGivesFills(s: string, parts: seq<string>) returns (fills: seq<string>)
    requires parts != [] && Ends(s, parts)
    ensures |fills| == |parts| && Woven(fills, parts) == s
    decreases |parts|
  {
    if |parts| == 1 {
      fills := [s[..|s| - |parts[0]|]];
      assert Woven(fills[1..], parts[1..]) == "";
      assert s == fills[0] + parts[0] + "";
    } else {
      var k: nat :| OccursAt(s, parts[0], k) && Ends(s[k + |parts[0]|..], parts[1..]);
      var rest := EndsGivesFills(s[k + |parts[0]|..], parts[1..]);
      fills := [s[..k]] + rest;
      assert fills[1..] == rest;
      assert s == s[..k] + parts[0] + s[k + |parts[0]|..];
    }
  }

  lemma {:induction false} FillsGiveEnds(fills: seq<string>, parts: seq<string>)
    requires |fills| == |parts| > 0
    ensures Ends(Woven(fills, parts), parts)
    decreases |parts|
  {
    var s, rest := Woven(fills, parts), Woven(fills[1..], parts[1..]);
    if |parts| == 1 {
      assert s == fills[0] + parts[0];
    } else {
      FillsGiveEnds(fills[1..], parts[1..]);
      assert s[|fills[0]| + |parts[0]|..] == rest;
      assert OccursAt(s, parts[0], |fills[0]|);
    }
  }

  /** More to choose from in front never hurts. */
  lemma {:induction false} EndsLonger(x: string, s: string, parts: seq<string>)
    requires parts != [] && Ends(s, parts)
    ensures Ends(x + s, parts)
  {
    if |parts| == 1 {
      assert (x + s)[|x + s| - |parts[0]|..] == s[|s| - |parts[0]|..];
    } else {
      var k: nat :| OccursAt(s, parts[0], k) && Ends(s[k + |parts[0]|..], parts[1..]);
      assert (x + s)[|x| + k + |parts[0]|..] == s[k + |parts[0]|..];
      assert (x + s)[|x| + k..|x| + k + |parts[0]|] == s[k..k + |parts[0]|];
      assert OccursAt(x + s, parts[0], |x| + k);
    }
  }

  // ----- the greedy search -----

  /** strings.Index: the leftmost occurrence, or -1. */
  function Index(s: string, part: string): (i: int)
    ensures i == -1 ==> forall k: nat :: !OccursAt(s, part, k)
    ensures i != -1
            ==> 0 <= i <= |s| - |part| && OccursAt(s, part, i) && forall k: nat :: OccursAt(s, part, k) ==> i <= k
  {
    if |s| < |part| then -1
    else if s[..|part|] == part then 0
    else if s == "" then -1
    else
      var i := Index(s[1..], part);
      assert forall k: nat :: k > 0 && OccursAt(s, part, k) ==> OccursAt(s[1..], part, k - 1) by {
        forall k: nat | k > 0 && OccursAt(s, part, k) ensures OccursAt(s[1..], part, k - 1) {
          assert s[1..][k - 1..k - 1 + |part|] == s[k..k + |part|];
        }
      }
      assert i != -1 ==> s[1..][i..i + |part|] == s[i + 1..i + 1 + |part|];
      if i == -1 then -1 else i + 1
  }

  /** Taking the leftmost occurrence loses no match. */
  lemma {:induction false} GreedyLosesNothing(s: string, parts: seq<string>)
    requires |parts| > 1
    ensures var i := Index(s, parts[0]);
            Ends(s, parts) <==> i != -1 && Ends(s[i + |parts[0]|..], parts[1..])
  {
    hide Index;
    var i, p := Index(s, parts[0]), parts[0];
    if Ends(s, parts) {
      var k: nat :| OccursAt(s, p, k) && Ends(s[k + |p|..], parts[1..]);
      EndsLonger(s[i + |p|..k + |p|], s[k + |p|..], parts[1..]);
      assert s[i + |p|..] == s[i + |p|..k + |p|] + s[k + |p|..];
    }
    if i != -1 && Ends(s[i + |p|..], parts[1..]) { assert OccursAt(s, p, i); }
  }

  lemma {:induction false} MatchesIsEnds(str: string, pattern: string)
    requires Wildcards(pattern) > 0
    ensures var parts := Split(pattern);
            Matches(str, pattern) <==> parts[0] <= str && Ends(str[|parts[0]|..], parts[1..])
  {
    var parts := Split(pattern);
    if Matches(str, pattern) {
      var fills :| |fills| == Wildcards(pattern) && Filled(pattern, fills) == str;
      FilledIsWoven(pattern, fills);
      FillsGiveEnds(fills, parts[1..]);
      assert str[|parts[0]|..] == Woven(fills, parts[1..]);
    }
    if parts[0] <= str && Ends(str[|parts[0]|..], parts[1..]) {
      var fills := EndsGivesFills(str[|parts[0]|..], parts[1..]);
      FilledIsWoven(pattern, fills);
      assert Filled(pattern, fills) == str;
    }
  }

  lemma {:induction false} MatchesPlain(str: string, pattern: string)
    requires Wildcards(pattern) == 0
    ensures Matches(str, pattern) <==> str == pattern
  {
    FilledIsWoven(pattern, []);
    SplitAlone(pattern);
    assert Filled(pattern, []) == pattern;
  }

  /** The greedy matcher answers exactly whether the wildcards can be filled. */
  method LikeMatch(str: string, pattern: string) returns (r: bool)
    ensures r <==> Matches(str, pattern)
  {
    hide Index, Split, Wildcards, Matches, OccursAt;
    var parts := Split(pattern);
    if |parts| == 1 {
      MatchesPlain(str, pattern);
      return str == pattern;
    }
    MatchesIsEnds(str, pattern);
    if !(parts[0] <= str) {
      return false;
    }
    var remaining := str[|parts[0]|..];
    var i := 1;
    while i < |parts| - 1
      invariant 1 <= i <= |parts| - 1
      invariant Ends(remaining, parts[i..]) <==> Matches(str, pattern)
    {
      var index := Index(remaining, parts[i]);
      GreedyLosesNothing(remaining, parts[i..]);
      assert parts[i..][1..] == parts[i + 1..];
      if index < 0 {
        return false;
      }
      remaining := remaining[index + |parts[i]|..];
      i := i + 1;
    }
    return HasSuffix(remaining, parts[|parts| - 1]);
  }
}
