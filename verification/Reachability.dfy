/** Directed graphs as sets of arcs: walks, reachability, and the worklist search shared by client and server. */
module Reachability {

  type Arcs = set<(string, string)>

  /** Consecutive nodes of `p` are joined by arcs. */
  ghost predicate Walk(arcs: Arcs, p: seq<string>) {
    p != [] && forall i :: 0 <= i < |p| - 1 ==> (p[i], p[i + 1]) in arcs
  }

  ghost predicate Connects(arcs: Arcs, p: seq<string>, a: string, b: string) {
    Walk(arcs, p) && p[0] == a && p[|p| - 1] == b
  }

  ghost predicate Reaches(arcs: Arcs, a: string, b: string) {
    exists p :: Connects(arcs, p, a, b)
  }

  /** No arc leaves `s`. */
  ghost predicate Closed(arcs: Arcs, s: set<string>) {
    forall a, b :: (a, b) in arcs && a in s ==> b in s
  }

  function Reversed(arcs: Arcs): Arcs {
    set a | a in arcs :: (a.1, a.0)
  }

  lemma ReachesSelf(arcs: Arcs, a: string)
    ensures Reaches(arcs, a, a)
  {
    assert Connects(arcs, [a], a, a);
  }

  lemma ReachesStep(arcs: Arcs, a: string, b: string, c: string)
    requires Reaches(arcs, a, b) && (b, c) in arcs
    ensures Reaches(arcs, a, c)
  {
    var p :| Connects(arcs, p, a, b);
    assert Connects(arcs, p + [c], a, c);
  }

  lemma ReachesTransitive(arcs: Arcs, a: string, b: string, c: string)
    requires Reaches(arcs, a, b) && Reaches(arcs, b, c)
    ensures Reaches(arcs, a, c)
  {
    var p :| Connects(arcs, p, a, b);
    var q :| Connects(arcs, q, b, c);
    var r := p + q[1..];
    forall i | 0 <= i < |r| - 1 ensures (r[i], r[i + 1]) in arcs {
      if i >= |p| - 1 {
        assert r[i] == q[i - |p| + 1] && r[i + 1] == q[i - |p| + 2];
      }
    }
    assert Connects(arcs, r, a, c);
  }

  /** A closed set holds whatever its members reach. */
  lemma {:induction false} ClosedHoldsReachable(arcs: Arcs, s: set<string>, p: seq<string>)
    requires Closed(arcs, s) && Walk(arcs, p) && p[0] in s
    ensures forall i :: 0 <= i < |p| ==> p[i] in s
  {
    if |p| > 1 {
      assert (p[0], p[1]) in arcs;
      ClosedHoldsReachable(arcs, s, p[1..]);
    }
  }

  lemma Mirrored(p: seq<string>) returns (q: seq<string>)
    ensures |q| == |p| && forall i :: 0 <= i < |p| ==> q[i] == p[|p| - 1 - i]
  {
    q := seq(|p|, i requires 0 <= i < |p| => p[|p| - 1 - i]);
  }

  /** Reaching in the reversed graph is being reached. */
  lemma ReachesReversed(arcs: Arcs, a: string, b: string)
    ensures Reaches(Reversed(arcs), a, b) <==> Reaches(arcs, b, a)
  {
    if p :| Connects(Reversed(arcs), p, a, b) {
      var q := Mirrored(p);
      assert Connects(arcs, q, b, a);
    }
    if p :| Connects(arcs, p, b, a) {
      var q := Mirrored(p);
      assert Connects(Reversed(arcs), q, a, b);
    }
  }

  /** `s` is exactly what `a` reaches. */
  ghost predicate IsReachableSet(arcs: Arcs, a: string, s: set<string>) {
    forall x :: x in s <==> Reaches(arcs, a, x)
  }

  /** A closed set around the start, all of it reachable, is the reachable set. */
  lemma ClosedAndReachable(arcs: Arcs, a: string, s: set<string>)
    requires a in s && Closed(arcs, s) && forall x :: x in s ==> Reaches(arcs, a, x)
    ensures IsReachableSet(arcs, a, s)
  {
    forall x | Reaches(arcs, a, x) ensures x in s {
      var p :| Connects(arcs, p, a, x);
      ClosedHoldsReachable(arcs, s, p);
    }
  }

  /** The reachable set is the least closed set around the start. */
  lemma ReachableIsLeastClosed(arcs: Arcs, a: string, s: set<string>)
    requires IsReachableSet(arcs, a, s)
    ensures a in s && Closed(arcs, s)
    ensures forall t: set<string> :: a in t && Closed(arcs, t) ==> s <= t
  {
    ReachesSelf(arcs, a);
    forall x, y | (x, y) in arcs && x in s ensures y in s {
      ReachesStep(arcs, a, x, y);
    }
    forall t: set<string> | a in t && Closed(arcs, t) ensures s <= t {
      forall x | x in s ensures x in t {
        var p :| Connects(arcs, p, a, x);
        ClosedHoldsReachable(arcs, t, p);
      }
    }
  }

  // ---------------------------------------------------------------------------
  // Worklist search
  // ---------------------------------------------------------------------------

  /** Between visits: everything seen is reachable, and what leaves the visited nodes is visited or waiting. */
  ghost predicate Searching(arcs: Arcs, start: string, visited: set<string>, waiting: set<string>) {
    && start in visited + waiting
    && (forall x :: x in visited + waiting ==> Reaches(arcs, start, x))
    && (forall a, b :: (a, b) in arcs && a in visited ==> b in visited + waiting)
  }

  lemma SearchStarts(arcs: Arcs, start: string)
    ensures Searching(arcs, start, {}, {start})
  {
    ReachesSelf(arcs, start);
  }

  /** Visiting waiting nodes and putting the heads of their arcs, where not visited, among those that wait. */
  lemma SearchAdvances(
    arcs: Arcs, start: string, visited: set<string>, waiting: set<string>, now: set<string>, next: set<string>)
    requires Searching(arcs, start, visited, waiting) && now <= waiting
    requires waiting - now <= next + visited + now
    requires forall b :: b in next ==> b in waiting || exists a :: a in now && (a, b) in arcs
    requires forall a, b :: (a, b) in arcs && a in now && b !in visited + now ==> b in next
    ensures Searching(arcs, start, visited + now, next)
  {
    forall b | b in next && b !in waiting ensures Reaches(arcs, start, b) {
      var a :| a in now && (a, b) in arcs;
      ReachesStep(arcs, start, a, b);
    }
    forall b | b in waiting ensures b in visited + now + next {
      assert b in now || b in waiting - now;
    }
    forall a, b | (a, b) in arcs && a in visited + now ensures b in visited + now + next {
      if a in visited {
        assert b in visited + waiting;
      }
    }
  }

  lemma SearchEnds(arcs: Arcs, start: string, visited: set<string>)
    requires Searching(arcs, start, visited, {})
    ensures IsReachableSet(arcs, start, visited)
  {
    ClosedAndReachable(arcs, start, visited);
  }
}
