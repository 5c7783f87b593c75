/** server/src/utils/stringMatchers.ts: edit distance, similarity and token overlap. */
module StringMatchers {

  // ---------------------------------------------------------------------------
  // Edit scripts: the independent meaning of the distance
  // ---------------------------------------------------------------------------

  datatype Edit = Insert(at: nat, c: char) | Delete(at: nat) | Substitute(at: nat, c: char)

  predicate Applicable(s: string, e: Edit) {
    if e.Insert? then e.at <= |s| else e.at < |s|
  }

  function Apply(s: string, e: Edit): string
    requires Applicable(s, e)
  {
    match e
    case Insert(at, c) => s[..at] + [c] + s[at..]
    case Delete(at) => s[..at] + s[at + 1..]
    case Substitute(at, c) => s[at := c]
  }

  /** Running the script on `a`, one single-character edit after the other, ends in `b`. */
  ghost predicate Turns(a: string, script: seq<Edit>, b: string)
    decreases |script|
  {
    if script == [] then a == b
    else Applicable(a, script[0]) && Turns(Apply(a, script[0]), script[1..], b)
  }

  // ---------------------------------------------------------------------------
  // The three-way recurrence
  // ---------------------------------------------------------------------------

  function Min(x: nat, y: nat): nat { if x < y then x else y }

  function Max(x: nat, y: nat): nat { if x < y then y else x }

  function Differ(x: char, y: char): nat { if x == y then 0 else 1 }

  /** The textbook recurrence on last characters, with the minimum taken whether or not they match. */
  ghost function Dist(a: string, b: string): nat
    decreases |a| + |b|
  {
    if a == [] then |b|
    else if b == [] then |a|
    else
      var i, j := |a| - 1, |b| - 1;
      Min(Dist(a[..i], b[..j]) + Differ(a[i], b[j]), Min(Dist(a[..i], b) + 1, Dist(a, b[..j]) + 1))
  }

  lemma {:induction false} DistSymmetric(a: string, b: string)
    ensures Dist(a, b) == Dist(b, a)
    decreases |a| + |b|
  {
    if a != [] && b != [] {
      var i, j := |a| - 1, |b| - 1;
      DistSymmetric(a[..i], b[..j]);
      DistSymmetric(a[..i], b);
      DistSymmetric(a, b[..j]);
    }
  }

  lemma {:induction false} DistBounds(a: string, b: string)
    ensures Dist(a, b) <= Max(|a|, |b|)
    ensures |a| <= |b| + Dist(a, b) && |b| <= |a| + Dist(a, b)
    decreases |a| + |b|
  {
    if a != [] && b != [] {
      var a', b' := a[..|a| - 1], b[..|b| - 1];
      DistBounds(a', b');
      DistBounds(a', b);
      DistBounds(a, b');
      DistStep(a, b);
      hide Dist;
    }
  }

  lemma DistStep(a: string, b: string)
    requires a != [] && b != []
    ensures var a', b' := a[..|a| - 1], b[..|b| - 1];
            Dist(a, b) == Min(Dist(a', b') + Differ(a[|a| - 1], b[|b| - 1]), Min(Dist(a', b) + 1, Dist(a, b') + 1))
  {
  }

  /** Neighbouring cells of the matrix differ by at most one. */
  lemma {:induction false} NeighbourCells(a: string, b: string)
    requires a != []
    ensures Dist(a[..|a| - 1], b) <= Dist(a, b) + 1
    ensures Dist(a, b) <= Dist(a[..|a| - 1], b) + 1
    decreases |b|
  {
    if b == [] {
    } else {
      var j := |b| - 1;
      NeighbourCells(a, b[..j]);
    }
  }

  /** On a match the diagonal alone is already the minimum. */
  lemma MatchTakesDiagonal(a: string, b: string)
    requires a != [] && b != [] && a[|a| - 1] == b[|b| - 1]
    ensures Dist(a, b) == Dist(a[..|a| - 1], b[..|b| - 1])
  {
    var a', b' := a[..|a| - 1], b[..|b| - 1];
    NeighbourCells(a, b');
    NeighbourCells(b, a');
    DistSymmetric(b, a');
    DistSymmetric(b', a');
  }

  lemma {:induction false} Triangle(a: string, b: string, c: string)
    ensures Dist(a, c) <= Dist(a, b) + Dist(b, c)
    decreases |a| + |b| + |c|
  {
    if a == [] || b == [] || c == [] {
      DistBounds(a, c);
      DistBounds(a, b);
      DistBounds(b, c);
    } else {
      var a', b', c' := a[..|a| - 1], b[..|b| - 1], c[..|c| - 1];
      if Dist(a, b) == Dist(a', b) + 1 {
        Triangle(a', b, c);
      } else if Dist(b, c) == Dist(b, c') + 1 {
        Triangle(a, b, c');
      } else if Dist(a, b) == Dist(a, b') + 1 {
        if Dist(b, c) == Dist(b', c) + 1 { Triangle(a, b', c); } else { Triangle(a, b', c'); }
      } else {
        if Dist(b, c) == Dist(b', c) + 1 { Triangle(a', b', c); } else { Triangle(a', b', c'); }
      }
    }
  }

  lemma CommonLast(a: string, b: string, c: char)
    ensures Dist(a + [c], b + [c]) == Dist(a, b)
  {
    assert (a + [c])[..|a|] == a && (b + [c])[..|b|] == b;
    MatchTakesDiagonal(a + [c], b + [c]);
  }

  lemma LastApart(a: string, u: string)
    requires u != []
    ensures a + u == (a + u[..|u| - 1]) + [u[|u| - 1]]
  {
  }

  lemma {:induction false} CommonSuffix(a: string, b: string, u: string)
    ensures Dist(a + u, b + u) == Dist(a, b)
    decreases |u|
  {
    if u == [] {
      assert a + u == a && b + u == b;
    } else {
      var init := u[..|u| - 1];
      LastApart(a, u);
      LastApart(b, u);
      CommonSuffix(a, b, init);
      CommonLast(a + init, b + init, u[|u| - 1]);
    }
  }

  lemma SelfDistance(a: string)
    ensures Dist(a, a) == 0
  {
    CommonSuffix([], [], a);
    assert [] + a == a;
  }

  lemma LastEdits(p: string, c: char, e: char)
    ensures Dist(p, p + [e]) <= 1 && Dist(p + [c], p) <= 1 && Dist(p + [c], p + [e]) <= 1
  {
    SelfDistance(p);
    NeighbourCells(p + [c], p);
    NeighbourCells(p + [e], p);
    DistSymmetric(p, p + [e]);
    assert (p + [c])[..|p|] == p && (p + [e])[..|p|] == p;
  }

  /** An edit replaces at most one character by at most one character between a prefix and a suffix. */
  lemma EditAsReplacement(s: string, e: Edit) returns (p: string, x: string, y: string, u: string)
    requires Applicable(s, e)
    ensures s == (p + x) + u && Apply(s, e) == (p + y) + u
    ensures |x| <= 1 && |y| <= 1
  {
    p := s[..e.at];
    match e {
      case Insert(at, c) => x, y, u := [], [c], s[at..];
      case Delete(at) => x, y, u := [s[at]], [], s[at + 1..];
      case Substitute(at, c) => x, y, u := [s[at]], [c], s[at + 1..];
    }
  }

  lemma ReplacementCost(p: string, x: string, y: string)
    requires |x| <= 1 && |y| <= 1
    ensures Dist(p + x, p + y) <= 1
  {
    hide Dist;
    SelfDistance(p);
    assert p + [] == p;
    if x != [] || y != [] {
      var c, e := if x == [] then y[0] else x[0], if y == [] then x[0] else y[0];
      LastEdits(p, c, e);
      assert x == [] || x == [c];
      assert y == [] || y == [e];
    }
  }

  lemma OneEdit(s: string, e: Edit)
    requires Applicable(s, e)
    ensures Dist(s, Apply(s, e)) <= 1
  {
    var p, x, y, u := EditAsReplacement(s, e);
    ReplacementCost(p, x, y);
    CommonSuffix(p + x, p + y, u);
  }

  /** No script is shorter than the distance. */
  lemma {:induction false} NoShorterScript(a: string, script: seq<Edit>, b: string)
    requires Turns(a, script, b)
    ensures Dist(a, b) <= |script|
    decreases |script|
  {
    if script == [] {
      SelfDistance(a);
    } else {
      var next := Apply(a, script[0]);
      NoShorterScript(next, script[1..], b);
      OneEdit(a, script[0]);
      Triangle(a, next, b);
    }
  }

  lemma {:induction false} TurnsThen(a: string, first: seq<Edit>, b: string, second: seq<Edit>, c: string)
    requires Turns(a, first, b) && Turns(b, second, c)
    ensures Turns(a, first + second, c)
    decreases |first|
  {
    if first == [] {
      assert first + second == second;
    } else {
      TurnsThen(Apply(a, first[0]), first[1..], b, second, c);
      assert (first + second)[1..] == first[1..] + second;
    }
  }

  lemma {:induction false} TurnsBefore(a: string, script: seq<Edit>, b: string, u: string)
    requires Turns(a, script, b)
    ensures Turns(a + u, script, b + u)
    decreases |script|
  {
    if script != [] {
      EditBefore(a, script[0], u);
      TurnsBefore(Apply(a, script[0]), script[1..], b, u);
    }
  }

  lemma EditBefore(a: string, e: Edit, u: string)
    requires Applicable(a, e)
    ensures Applicable(a + u, e) && Apply(a + u, e) == Apply(a, e) + u
  {
    match e {
      case Insert(at, c) =>
        assert (a + u)[at..] == a[at..] + u;
      case Delete(at) =>
        assert (a + u)[at + 1..] == a[at + 1..] + u;
      case Substitute(at, c) =>
    }
  }

  lemma OneStep(a: string, e: Edit, b: string)
    requires Applicable(a, e) && Apply(a, e) == b
    ensures Turns(a, [e], b)
  {
    assert [e][1..] == [];
  }

  /** Some script attains the distance. */
  lemma {:induction false} ShortestScript(a: string, b: string) returns (script: seq<Edit>)
    ensures Turns(a, script, b) && |script| == Dist(a, b)
    decreases |a| + |b|
  {
    var i, j := |a| - 1, |b| - 1;
    if a == [] && b == [] {
      script := [];
    } else if a != [] && Dist(a, b) == Dist(a[..i], b) + 1 {
      script := ShortestScript(a[..i], b);
      script := DeleteFirst(a, script, b);
    } else if b != [] && Dist(a, b) == Dist(a, b[..j]) + 1 {
      script := ShortestScript(a, b[..j]);
      script := InsertLast(a, script, b);
    } else {
      script := ShortestScript(a[..i], b[..j]);
      script := SubstituteLast(a, script, b);
    }
  }

  lemma DeleteFirst(a: string, script: seq<Edit>, b: string) returns (longer: seq<Edit>)
    requires a != [] && Turns(a[..|a| - 1], script, b)
    ensures Turns(a, longer, b) && |longer| == |script| + 1
  {
    longer := [Delete(|a| - 1)] + script;
    assert Apply(a, Delete(|a| - 1)) == a[..|a| - 1];
    assert longer[1..] == script;
  }

  lemma InsertLast(a: string, script: seq<Edit>, b: string) returns (longer: seq<Edit>)
    requires b != [] && Turns(a, script, b[..|b| - 1])
    ensures Turns(a, longer, b) && |longer| == |script| + 1
  {
    var j := |b| - 1;
    OneStep(b[..j], Insert(j, b[j]), b);
    TurnsThen(a, script, b[..j], [Insert(j, b[j])], b);
    longer := script + [Insert(j, b[j])];
  }

  lemma SubstituteLast(a: string, script: seq<Edit>, b: string) returns (longer: seq<Edit>)
    requires a != [] && b != [] && Turns(a[..|a| - 1], script, b[..|b| - 1])
    ensures Turns(a, longer, b) && |longer| == |script| + Differ(a[|a| - 1], b[|b| - 1])
  {
    hide Turns;
    var x, p, j := a[|a| - 1], b[..|b| - 1], |b| - 1;
    TurnsBefore(a[..|a| - 1], script, p, [x]);
    assert a == a[..|a| - 1] + [x];
    longer := script;
    if x == b[j] {
      assert b == p + [x];
    } else {
      ReplaceLast(p, x, b);
      TurnsThen(a, script, p + [x], [Substitute(j, b[j])], b);
      longer := script + [Substitute(j, b[j])];
    }
  }

  lemma ReplaceLast(p: string, x: char, b: string)
    requires b != [] && p == b[..|b| - 1]
    ensures Turns(p + [x], [Substitute(|b| - 1, b[|b| - 1])], b)
  {
    hide Turns;
    assert Apply(p + [x], Substitute(|b| - 1, b[|b| - 1])) == b;
    OneStep(p + [x], Substitute(|b| - 1, b[|b| - 1]), b);
  }

  /** The distance is a metric. */
  lemma DistIsMetric(a: string, b: string, c: string)
    ensures Dist(a, b) == 0 <==> a == b
    ensures Dist(a, b) == Dist(b, a)
    ensures Dist(a, c) <= Dist(a, b) + Dist(b, c)
  {
    SelfDistance(a);
    var script := ShortestScript(a, b);
    DistSymmetric(a, b);
    Triangle(a, b, c);
  }

  /** `d` is the length of the shortest edit script from `a` to `b`. */
  ghost predicate ShortestLength(a: string, b: string, d: nat) {
    && (exists script :: Turns(a, script, b) && |script| == d)
    && (forall script :: Turns(a, script, b) ==> d <= |script|)
  }

  lemma DistIsShortest(a: string, b: string)
    ensures ShortestLength(a, b, Dist(a, b))
  {
    var script := ShortestScript(a, b);
    forall script | Turns(a, script, b) ensures Dist(a, b) <= |script| {
      NoShorterScript(a, script, b);
    }
  }

  /** What belongs in `matrix[i][j]`. */
  ghost function Cell(a: string, b: string, i: nat, j: nat): nat
    requires i <= |b| && j <= |a|
  {
    Dist(a[..j], b[..i])
  }

  lemma CellStep(a: string, b: string, i: nat, j: nat)
    requires 1 <= i <= |b| && 1 <= j <= |a|
    ensures Cell(a, b, i, j) ==
            if b[i - 1] == a[j - 1] then Cell(a, b, i - 1, j - 1)
            else Min(Cell(a, b, i - 1, j - 1) + 1, Min(Cell(a, b, i, j - 1) + 1, Cell(a, b, i - 1, j) + 1))
  {
    var p, q := a[..j], b[..i];
    assert p[..j - 1] == a[..j - 1] && q[..i - 1] == b[..i - 1];
    if b[i - 1] == a[j - 1] {
      MatchTakesDiagonal(p, q);
    }
  }

  method LevenshteinDistance(a: string, b: string) returns (d: nat)
    ensures d == Dist(a, b)
    ensures ShortestLength(a, b, d)
  {
    var matrix := new nat[|b| + 1, |a| + 1];
    for i := 0 to |b| + 1
      invariant forall k :: 0 <= k < i ==> matrix[k, 0] == Cell(a, b, k, 0)
    {
      matrix[i, 0] := i;
    }
    for j := 0 to |a| + 1
      invariant forall k :: 0 <= k <= |b| ==> matrix[k, 0] == Cell(a, b, k, 0)
      invariant forall l :: 0 <= l < j ==> matrix[0, l] == Cell(a, b, 0, l)
    {
      matrix[0, j] := j;
    }
    for i := 1 to |b| + 1
      invariant forall k :: i <= k <= |b| ==> matrix[k, 0] == Cell(a, b, k, 0)
      invariant forall k, l :: 0 <= k < i && 0 <= l <= |a| ==> matrix[k, l] == Cell(a, b, k, l)
    {
      for j := 1 to |a| + 1
        invariant forall k :: i <= k <= |b| ==> matrix[k, 0] == Cell(a, b, k, 0)
        invariant forall k, l :: 0 <= k < i && 0 <= l <= |a| ==> matrix[k, l] == Cell(a, b, k, l)
        invariant forall l :: 0 <= l < j ==> matrix[i, l] == Cell(a, b, i, l)
      {
        CellStep(a, b, i, j);
        if b[i - 1] == a[j - 1] {
          matrix[i, j] := matrix[i - 1, j - 1];
        } else {
          matrix[i, j] := Min(matrix[i - 1, j - 1] + 1, Min(matrix[i, j - 1] + 1, matrix[i - 1, j] + 1));
        }
      }
    }
    d := matrix[|b|, |a|];
    assert a[..|a|] == a && b[..|b|] == b;
    DistIsShortest(a, b);
  }

  // ---------------------------------------------------------------------------
  // Similarity
  // ---------------------------------------------------------------------------

  /** One minus the distance relative to the longer string. */
  ghost function Similarity(a: string, b: string): real {
    if a == [] && b == [] then 1.0 else 1.0 - Dist(a, b) as real / Max(|a|, |b|) as real
  }

  lemma SimilarityShortcuts(a: string, b: string)
    ensures a == b ==> Similarity(a, b) == 1.0
    ensures a != b && (a == [] || b == []) ==> Similarity(a, b) == 0.0
  {
    SelfDistance(a);
    if a != b && (a == [] || b == []) {
      RatioInUnit(Dist(a, b), Max(|a|, |b|));
    }
  }

  method CalculateSimilarity(a: string, b: string) returns (r: real)
    ensures r == Similarity(a, b)
  {
    SimilarityShortcuts(a, b);
    if a == b {
      return 1.0;
    }
    if |a| == 0 || |b| == 0 {
      return 0.0;
    }
    var distance := LevenshteinDistance(a, b);
    r := 1.0 - distance as real / Max(|a|, |b|) as real;
  }

  lemma RatioInUnit(n: nat, d: nat)
    requires n <= d && d > 0
    ensures 0.0 <= n as real / d as real <= 1.0
    ensures n as real / d as real == 0.0 <==> n == 0
    ensures n as real / d as real == 1.0 <==> n == d
  {
  }

  /** Similarity is a symmetric ratio that is 1 for equal strings only. */
  lemma SimilarityIsRatio(a: string, b: string)
    ensures 0.0 <= Similarity(a, b) <= 1.0
    ensures Similarity(a, b) == 1.0 <==> a == b
    ensures Similarity(a, b) == Similarity(b, a)
  {
    DistIsMetric(a, b, a);
    DistBounds(a, b);
    if a != [] || b != [] {
      RatioInUnit(Dist(a, b), Max(|a|, |b|));
    }
  }

  lemma ShortestIsDist(a: string, b: string, d: nat)
    requires ShortestLength(a, b, d)
    ensures d == Dist(a, b)
  {
    hide Dist, Turns;
    var shortest := ShortestScript(a, b);
    var script :| Turns(a, script, b) && |script| == d;
    NoShorterScript(a, script, b);
  }

  lemma SimilarityOfDistance(a: string, b: string, d: nat, longer: nat)
    requires a != b && d == Dist(a, b) && longer == if |a| < |b| then |b| else |a|
    ensures Similarity(a, b) * longer as real == longer as real - d as real
  {
    hide Dist;
    assert longer == Max(|a|, |b|);
    var part := d as real / longer as real;
    PartOfWhole(part, d as real, longer as real);
    assert Similarity(a, b) == 1.0 - part;
    hide *;
    assert (1.0 - part) * longer as real == longer as real - part * longer as real;
  }

  /** One minus the length of the shortest edit script relative to the length of the longer text. */
  lemma SimilarityInScripts(a: string, b: string, d: nat, longer: nat)
    requires ShortestLength(a, b, d) && a != b && longer == if |a| < |b| then |b| else |a|
    ensures Similarity(a, b) * longer as real == longer as real - d as real
  {
    hide *;
    ShortestIsDist(a, b, d);
    SimilarityOfDistance(a, b, d, longer);
  }

  lemma PartOfWhole(part: real, n: real, whole: real)
    requires whole > 0.0 && part == n / whole
    ensures part * whole == n
  {
  }

  // ---------------------------------------------------------------------------
  // Token overlap
  // ---------------------------------------------------------------------------

  lemma SeeToken(set1: set<string>, set2: set<string>, rest: set<string>, token: string)
    requires token in rest && rest <= set1
    ensures |(set1 - (rest - {token})) * set2| == |(set1 - rest) * set2| + if token in set2 then 1 else 0
  {
    var seen := (set1 - rest) * set2;
    assert (set1 - (rest - {token})) * set2 == if token in set2 then seen + {token} else seen;
  }

  method CalculateTokenOverlap(tokens1: seq<string>, tokens2: seq<string>) returns (r: real)
    ensures r == TokenOverlap(set t | t in tokens1, set t | t in tokens2)
  {
    if |tokens1| == 0 || |tokens2| == 0 {
      return 0.0;
    }
    var set1 := set t | t in tokens1;
    var set2 := set t | t in tokens2;
    assert tokens1[0] in set1 && tokens2[0] in set2;
    var overlap: nat := 0;
    var rest := set1;
    while rest != {}
      invariant rest <= set1
      invariant overlap == |(set1 - rest) * set2|
      decreases |rest|
    {
      var token :| token in rest;
      SeeToken(set1, set2, rest, token);
      if token in set2 {
        overlap := overlap + 1;
      }
      rest := rest - {token};
    }
    assert set1 - rest == set1;
    r := overlap as real / Min(|set1|, |set2|) as real;
  }

  ghost function TokenOverlap(set1: set<string>, set2: set<string>): real {
    if set1 == {} || set2 == {} then 0.0 else |set1 * set2| as real / Min(|set1|, |set2|) as real
  }

  lemma SubsetBySize<T>(a: set<T>, b: set<T>)
    requires a <= b
    ensures |a| <= |b| && (|a| == |b| ==> a == b)
  {
    assert b == a + (b - a);
    assert |b| == |a| + |b - a|;
  }

  lemma DisjointByCount<T>(a: set<T>, b: set<T>)
    ensures a !! b <==> |a * b| == 0
  {
    if t :| t in a && t in b {
      assert t in a * b;
    } else {
      assert a * b == {};
    }
  }

  /** The overlap is a symmetric ratio: 0 for disjoint token sets only, 1 exactly when one of them holds the other. */
  lemma OverlapIsRatio(set1: set<string>, set2: set<string>)
    requires set1 != {} && set2 != {}
    ensures 0.0 <= TokenOverlap(set1, set2) <= 1.0
    ensures TokenOverlap(set1, set2) == 0.0 <==> set1 !! set2
    ensures TokenOverlap(set1, set2) == 1.0 <==> set1 <= set2 || set2 <= set1
    ensures TokenOverlap(set1, set2) == TokenOverlap(set2, set1)
  {
    var both := set1 * set2;
    SubsetBySize(both, set1);
    SubsetBySize(both, set2);
    assert set2 * set1 == both;
    DisjointByCount(set1, set2);
    RatioInUnit(|both|, Min(|set1|, |set2|));
    if set1 <= set2 {
      assert both == set1;
      SubsetBySize(set1, set2);
    } else if set2 <= set1 {
      assert both == set2;
      SubsetBySize(set2, set1);
    } else {
      assert both != set1 && both != set2;
    }
  }

  /** The overlap is the number of common tokens relative to the number of tokens of the smaller set. */
  lemma OverlapInCounts(set1: set<string>, set2: set<string>)
    requires set1 != {} && set2 != {}
    ensures TokenOverlap(set1, set2) * (if |set1| < |set2| then |set1| else |set2|) as real == |set1 * set2| as real
  {
    PartOfWhole(TokenOverlap(set1, set2), |set1 * set2| as real, Min(|set1|, |set2|) as real);
  }
}
