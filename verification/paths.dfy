/** String and path primitives of the JavaScript and Node runtime that the
    linker relies on: `String.prototype.indexOf`, `String.prototype.split`,
    the POSIX `path.dirname`, and the part of `path.join` the linker uses.
    Paths use the single separator '/'. */
module Paths {

  type Path = string

  const Sep: char := '/'

  /** `pat` occurs in `s` starting at index `i` */
  predicate OccursAt(s: string, pat: string, i: int) {
    0 <= i && i + |pat| <= |s| && s[i..i + |pat|] == pat
  }

  /** An occurrence starts with the first character of the pattern. */
  lemma OccurrenceHead(s: string, pat: string, i: int)
    requires |pat| > 0
    ensures OccursAt(s, pat, i) ==> s[i] == pat[0]
  {
    if OccursAt(s, pat, i) {
      assert s[i..i + |pat|][0] == s[i];
    }
  }

  /** `s.indexOf(pat, from)`: the leftmost occurrence at or after `from`, or -1 */
  function IndexOfFrom(s: string, pat: string, from: nat): (r: int)
    requires from <= |s|
    ensures r == -1 || (from <= r && OccursAt(s, pat, r))
    ensures r == -1 ==> forall j :: from <= j ==> !OccursAt(s, pat, j)
    ensures r >= 0 ==> forall j :: from <= j < r ==> !OccursAt(s, pat, j)
    decreases |s| - from
  {
    if from + |pat| > |s| then -1
    else if s[from..from + |pat|] == pat then from
    else IndexOfFrom(s, pat, from + 1)
  }

  /** `s.indexOf(pat)`; in particular `s.indexOf(pat) === 0` exactly when
      `pat` is a prefix of `s`. */
  function IndexOf(s: string, pat: string): (r: int)
    ensures r == -1 || OccursAt(s, pat, r)
    ensures r == -1 <==> forall j :: 0 <= j ==> !OccursAt(s, pat, j)
    ensures r >= 0 ==> forall j :: 0 <= j < r ==> !OccursAt(s, pat, j)
    ensures r == 0 <==> pat <= s
  {
    var r := IndexOfFrom(s, pat, 0);
    assert pat <= s <==> OccursAt(s, pat, 0);
    r
  }

  /** Joins non-empty `parts` with separator `c` (the inverse of `Split`) */
  function JoinWith(parts: seq<string>, c: char): string
    requires |parts| >= 1
  {
    if |parts| == 1 then parts[0] else parts[0] + [c] + JoinWith(parts[1..], c)
  }

  /** `s.split(c)`: the maximal separator-free pieces of `s`, in order;
      an empty string splits into one empty piece. */
  function Split(s: string, c: char): (parts: seq<string>)
    ensures |parts| >= 1
    ensures |parts| == 1 <==> c !in s
    ensures forall i :: 0 <= i < |parts| ==> c !in parts[i]
    ensures JoinWith(parts, c) == s
  {
    if |s| == 0 then [""]
    else
      var rest := Split(s[1..], c);
      if s[0] == c then
        assert ([""] + rest)[1..] == rest;
        [""] + rest
      else
        var parts := [[s[0]] + rest[0]] + rest[1..];
        assert parts[1..] == rest[1..];
        assert |rest| > 1 ==> JoinWith(rest, c) == rest[0] + [c] + JoinWith(rest[1..], c);
        assert s == [s[0]] + s[1..];
        parts
  }

  lemma SeparatorAfterPiece(a: string, rest: string, c: char)
    requires c !in a
    ensures (a + [c] + rest)[|a|] == c
    ensures forall j :: 0 <= j < |a| ==> (a + [c] + rest)[j] != c
  {
  }

  /** Joining separator-free pieces is injective. */
  lemma {:induction false} JoinWithUnique(p: seq<string>, q: seq<string>, c: char)
    requires |p| >= 1 && |q| >= 1
    requires forall i :: 0 <= i < |p| ==> c !in p[i]
    requires forall i :: 0 <= i < |q| ==> c !in q[i]
    requires JoinWith(p, c) == JoinWith(q, c)
    ensures p == q
    decreases |p|
  {
    var s := JoinWith(p, c);
    // the first piece ends at the first separator (or at the end)
    if |p| == 1 && |q| == 1 {
    } else if |p| == 1 {
      assert false;
    } else if |q| == 1 {
      assert false;
    } else {
      var a, b := p[0], q[0];
      assert s == a + [c] + JoinWith(p[1..], c);
      assert s == b + [c] + JoinWith(q[1..], c);
      if |a| < |b| {
        SeparatorAfterPiece(a, JoinWith(p[1..], c), c);
        assert false;
      } else if |b| < |a| {
        SeparatorAfterPiece(b, JoinWith(q[1..], c), c);
        assert false;
      } else {
        assert a == s[..|a|] == b;
        assert JoinWith(p[1..], c) == s[|a| + 1..] == JoinWith(q[1..], c);
        JoinWithUnique(p[1..], q[1..], c);
        assert p == [a] + p[1..];
        assert q == [b] + q[1..];
      }
    }
  }

  /** Round trip: splitting a join of separator-free pieces gives them back. */
  lemma SplitJoin(parts: seq<string>, c: char)
    requires |parts| >= 1
    requires forall i :: 0 <= i < |parts| ==> c !in parts[i]
    ensures Split(JoinWith(parts, c), c) == parts
  {
    JoinWithUnique(Split(JoinWith(parts, c), c), parts, c);
  }

  /** The second piece of `s.split(c)` is what lies between the first and
      the second separator, whatever follows the second. */
  lemma SplitSecondPiece(a: string, name: string, rest: string, c: char)
    requires c !in a && c !in name
    requires rest == [] || rest[0] == c
    ensures var parts := Split(a + [c] + name + rest, c);
      |parts| >= 2 && parts[0] == a && parts[1] == name
  {
    var s := a + [c] + name + rest;
    var parts: seq<string>;
    if rest == [] {
      parts := [a, name];
      assert JoinWith(parts, c) == s;
    } else {
      var tail := Split(rest[1..], c);
      parts := [a, name] + tail;
      assert parts[1..] == [name] + tail;
      assert ([name] + tail)[1..] == tail;
      assert rest == [c] + rest[1..];
      assert JoinWith(parts, c) == s;
    }
    JoinWithUnique(Split(s, c), parts, c);
  }

  /** `path.join(a, b)` for a non-empty second argument without `.` or `..`
      pieces: an empty `a` contributes nothing, and exactly one separator is
      put between the two. */
  function JoinPath(a: Path, b: Path): (r: Path)
    ensures b == [] ==> r == a
    ensures a == [] ==> r == b
  {
    if b == [] then a
    else if a == [] then b
    else if a[|a| - 1] == Sep then a + b
    else a + [Sep] + b
  }

  /** A join starts with its first part, ends with its second, and adds at
      most one separator between them. */
  lemma JoinPathParts(a: Path, b: Path)
    ensures var r := JoinPath(a, b);
      && a <= r && |b| <= |r| && r[|r| - |b|..] == b
      && |r| <= |a| + |b| + 1
      && (a != [] && b != [] ==> Sep in r[|a| - 1..|r| - |b| + 1])
  {
    var r := JoinPath(a, b);
    if a != [] && b != [] {
      if a[|a| - 1] == Sep {
        assert r[|a| - 1..|r| - |b| + 1][0] == Sep;
      } else {
        assert r[|a| - 1..|r| - |b| + 1][1] == Sep;
      }
    }
  }

  /** Joining onto an empty path or one that ends in a separator adds no
      separator of its own. */
  lemma JoinPathAfterSep(a: Path, b: Path)
    requires a == [] || a[|a| - 1] == Sep
    ensures JoinPath(a, b) == a + b
  {
    if a == [] {
      assert a + b == b;
    }
  }

  /** The scan of Node's POSIX `path.dirname`, from index `i` down to 1:
      trailing separators are skipped, then the last name, and the index of
      the separator before it is returned (or -1). */
  function DirnameEnd(p: Path, i: int, matchedSlash: bool): (end: int)
    requires i < |p|
    ensures end == -1 || (1 <= end <= i && p[end] == Sep)
    decreases i
  {
    if i < 1 then -1
    else if p[i] == Sep then
      if !matchedSlash then i else DirnameEnd(p, i - 1, true)
    else DirnameEnd(p, i - 1, false)
  }

  /** Node's POSIX `path.dirname`: "." when there is no directory part, the
      root when the path sits directly under it, and otherwise a prefix. */
  function Dirname(p: Path): (r: Path)
    ensures r == "." || (|r| > 0 && r <= p)
  {
    if |p| == 0 then "."
    else
      var end := DirnameEnd(p, |p| - 1, true);
      if end == -1 then (if p[0] == Sep then "/" else ".")
      else if p[0] == Sep && end == 1 then "//"
      else p[..end]
  }

  lemma {:induction false} DirnameEndOfName(p: Path, k: nat, i: int)
    requires 1 <= k <= i < |p|
    requires p[k] == Sep
    requires forall j :: k < j <= i ==> p[j] != Sep
    ensures DirnameEnd(p, i, false) == k
    decreases i
  {
    if i > k {
      DirnameEndOfName(p, k, i - 1);
    }
  }

  /** The directory of `d + "/" + name`, for a name without separators and a
      directory without a trailing separator, is `d`. */
  lemma DirnameOfChild(d: Path, name: string)
    requires |d| > 0 && d[|d| - 1] != Sep
    requires |name| > 0 && Sep !in name
    ensures Dirname(d + [Sep] + name) == d
  {
    var p := d + [Sep] + name;
    assert p[|p| - 1] == name[|name| - 1] != Sep;
    if |name| > 1 {
      forall j | |d| < j <= |p| - 2 ensures p[j] != Sep {
        assert p[j] == name[j - |d| - 1];
      }
      DirnameEndOfName(p, |d|, |p| - 2);
    }
    assert DirnameEnd(p, |p| - 1, true) == |d|;
    assert p[..|d|] == d;
  }
}
