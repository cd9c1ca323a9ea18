/** `isRootModule`: a module path is a root-level package occurrence when the
    global regular expression `[\\/]node_modules[\\/]` matches it exactly
    once. A global match scans left to right and resumes after the end of
    each match, so two occurrences that share a separator count once. */
module RootModule {

  const NodeModules: string := "node_modules"

  /** Length of one match: a separator, "node_modules", a separator */
  const MatchLength: nat := 14

  /** The regex character class `[\\/]` accepts either separator. */
  predicate IsSep(c: char) {
    c == '/' || c == '\\'
  }

  /** The pattern matches `s` starting at index `i`. */
  predicate MatchAt(s: string, i: int) {
    0 <= i && i + MatchLength <= |s| && IsSep(s[i]) && s[i + 1..i + 13] == NodeModules && IsSep(s[i + 13])
  }

  /** Number of matches a global scan finds when it starts at index `i`. */
  function CountMatchesFrom(s: string, i: nat): (n: nat)
    requires i <= |s|
    ensures n == 0 <==> forall j :: i <= j ==> !MatchAt(s, j)
    decreases |s| - i
  {
    if i + MatchLength > |s| then 0
    else if MatchAt(s, i) then 1 + CountMatchesFrom(s, i + MatchLength)
    else CountMatchesFrom(s, i + 1)
  }

  /** Leftmost match at or after `i`, or -1: where the scan's first match is. */
  function FirstMatchFrom(s: string, i: nat): (k: int)
    requires i <= |s|
    ensures k >= -1
    ensures k == -1 <==> forall j :: i <= j ==> !MatchAt(s, j)
    ensures k >= 0 ==> i <= k && MatchAt(s, k) && forall j :: i <= j < k ==> !MatchAt(s, j)
    decreases |s| - i
  {
    if i + MatchLength > |s| then -1
    else if MatchAt(s, i) then i
    else FirstMatchFrom(s, i + 1)
  }

  /** `(modulePath.match(re) || []).length === 1` */
  predicate IsRootModule(modulePath: string) {
    CountMatchesFrom(modulePath, 0) == 1
  }

  /** The scan counts exactly one match iff there is a first match and no
      match starts after its end. */
  lemma {:induction false} SingleMatchFrom(s: string, i: nat)
    requires i <= |s|
    ensures CountMatchesFrom(s, i) == 1 <==>
      var k := FirstMatchFrom(s, i);
      k >= 0 && forall j :: k + MatchLength <= j ==> !MatchAt(s, j)
    decreases |s| - i
  {
    if i + MatchLength > |s| {
      assert CountMatchesFrom(s, i) == 0 && FirstMatchFrom(s, i) == -1;
    } else if MatchAt(s, i) {
      assert FirstMatchFrom(s, i) == i;
      assert CountMatchesFrom(s, i) == 1 + CountMatchesFrom(s, i + MatchLength);
    } else {
      assert FirstMatchFrom(s, i) == FirstMatchFrom(s, i + 1);
      assert CountMatchesFrom(s, i) == CountMatchesFrom(s, i + 1);
      SingleMatchFrom(s, i + 1);
    }
  }

  /** A path is a root module iff the pattern matches somewhere and nothing
      matches after the end of the leftmost match. */
  lemma RootIffSingleMatch(p: string)
    ensures IsRootModule(p) <==>
      var k := FirstMatchFrom(p, 0);
      k >= 0 && forall j :: k + MatchLength <= j ==> !MatchAt(p, j)
  {
    SingleMatchFrom(p, 0);
  }

  lemma {:induction false} TwoMatchesFrom(s: string, i: nat, a: nat, b: nat)
    requires i <= a && a + MatchLength <= b
    requires MatchAt(s, a) && MatchAt(s, b)
    ensures CountMatchesFrom(s, i) >= 2
    decreases |s| - i
  {
    if MatchAt(s, i) {
      assert CountMatchesFrom(s, i + MatchLength) != 0;
    } else {
      TwoMatchesFrom(s, i + 1, a, b);
    }
  }

  /** A nested package path, with two separate `node_modules` segments, is
      never a root module. */
  lemma NestedIsNotRoot(p: string, a: nat, b: nat)
    requires a + MatchLength <= b
    requires MatchAt(p, a) && MatchAt(p, b)
    ensures !IsRootModule(p)
  {
    TwoMatchesFrom(p, 0, a, b);
  }

  /** A path with a single `node_modules` segment is a root module. */
  lemma SingleSegmentIsRoot(p: string, k: nat)
    requires MatchAt(p, k)
    requires forall j :: j != k ==> !MatchAt(p, j)
    ensures IsRootModule(p)
  {
    RootIffSingleMatch(p);
    var first := FirstMatchFrom(p, 0);
    assert first != -1 by {
      assert 0 <= k && MatchAt(p, k);
    }
    assert MatchAt(p, first);
    assert first == k;
  }

  /** A match starts with a separator followed by the letter 'n'. */
  lemma MatchHead(s: string, i: int)
    ensures MatchAt(s, i) ==> IsSep(s[i]) && s[i + 1] == 'n'
  {
    if MatchAt(s, i) {
      assert s[i + 1..i + 13][0] == s[i + 1];
    }
  }

  /** A path without a `node_modules` segment is not a root module. */
  lemma NoSegmentIsNotRoot(p: string)
    requires forall j :: !MatchAt(p, j)
    ensures !IsRootModule(p)
  {
  }
}
