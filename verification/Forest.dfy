/** Parent-pointer graphs: every node has at most one parent.  Chats, prompt
    histories and folders are all stored this way. */
module Forest {

  /** Following `n` parent pointers from `y` leads to `x`. */
  ghost predicate Climb<T>(par: map<T, T>, y: T, x: T, n: nat) {
    if n == 0 then y == x else y in par && Climb(par, par[y], x, n - 1)
  }

  /** `x` is a proper ancestor of `y`. */
  ghost predicate Ancestor<T>(par: map<T, T>, x: T, y: T) {
    exists n: nat :: n > 0 && Climb(par, y, x, n)
  }

  ghost predicate Acyclic<T(!new)>(par: map<T, T>) {
    forall x :: !Ancestor(par, x, x)
  }

  lemma {:induction false} ClimbConcat<T>(par: map<T, T>, a: T, b: T, c: T, n: nat, m: nat)
    requires Climb(par, a, b, n) && Climb(par, b, c, m)
    ensures Climb(par, a, c, n + m)
  {
    if n > 0 {
      ClimbConcat(par, par[a], b, c, n - 1, m);
    }
  }

  lemma {:induction false} ClimbRest<T>(par: map<T, T>, a: T, b: T, c: T, n: nat, m: nat)
    requires Climb(par, a, b, n) && Climb(par, a, c, n + m)
    ensures Climb(par, b, c, m)
  {
    if n > 0 {
      ClimbRest(par, par[a], b, c, n - 1, m);
    }
  }

  /** A non-empty climb ends with one parent step. */
  lemma {:induction false} ClimbLast<T>(par: map<T, T>, y: T, x: T, n: nat) returns (c: T)
    requires n > 0 && Climb(par, y, x, n)
    ensures c in par && par[c] == x && Climb(par, y, c, n - 1)
  {
    if n == 1 {
      c := y;
    } else {
      c := ClimbLast(par, par[y], x, n - 1);
    }
  }

  lemma AncestorTransitive<T>(par: map<T, T>, x: T, y: T, z: T)
    requires Ancestor(par, x, y) && Ancestor(par, y, z)
    ensures Ancestor(par, x, z)
  {
    var n: nat :| n > 0 && Climb(par, y, x, n);
    var m: nat :| m > 0 && Climb(par, z, y, m);
    ClimbConcat(par, z, y, x, m, n);
  }

  lemma ParentIsAncestor<T>(par: map<T, T>, y: T)
    requires y in par
    ensures Ancestor(par, par[y], y)
  {
    assert Climb(par, par[y], par[y], 0);
    assert Climb(par, y, par[y], 1);
  }

  /** The ancestors of `y` are its parent and the ancestors of its parent. */
  lemma AncestorStep<T>(par: map<T, T>, x: T, y: T)
    ensures Ancestor(par, x, y) <==> y in par && (par[y] == x || Ancestor(par, x, par[y]))
  {
    if Ancestor(par, x, y) {
      var n: nat :| n > 0 && Climb(par, y, x, n);
      assert Climb(par, par[y], x, n - 1);
    }
    if y in par {
      ParentIsAncestor(par, y);
      if Ancestor(par, x, par[y]) {
        AncestorTransitive(par, x, par[y], y);
      }
    }
  }

  // ------------------------------------------------------ changing one pointer

  /** Two graphs that differ only at `c` have the same climbs up to the first
      visit of `c`. */
  lemma {:induction false} FirstHit<T>(par: map<T, T>, par': map<T, T>, c: T, y: T, n: nat) returns (k: nat)
    requires forall z :: z != c ==> (z in par <==> z in par') && (z in par ==> par[z] == par'[z])
    requires Climb(par, y, c, n)
    ensures k <= n && Climb(par', y, c, k)
  {
    if y == c {
      k := 0;
    } else {
      k := FirstHit(par, par', c, par[y], n - 1);
      k := k + 1;
    }
  }

  /** A climb in one graph is a climb in the other, or passes `c`. */
  lemma {:induction false} SameOrThrough<T>(par: map<T, T>, par': map<T, T>, c: T, y: T, x: T, n: nat) returns (k: nat)
    requires forall z :: z != c ==> (z in par <==> z in par') && (z in par ==> par[z] == par'[z])
    requires Climb(par, y, x, n)
    ensures Climb(par', y, x, n) || (k <= n && Climb(par, y, c, k) && Climb(par, c, x, n - k))
  {
    if n == 0 {
      k := 0;
    } else if y == c {
      k := 0;
    } else {
      k := SameOrThrough(par, par', c, par[y], x, n - 1);
      k := k + 1;
    }
  }

  /** Setting the parent of `c` to `p` keeps the forest acyclic exactly when `p`
      is neither `c` nor below `c`. */
  lemma SetParent<T(!new)>(par: map<T, T>, c: T, p: T)
    requires Acyclic(par)
    ensures Acyclic(par[c := p]) <==> p != c && !Ancestor(par, c, p)
  {
    var par' := par[c := p];
    if p == c {
      assert Climb(par', c, c, 0);
      assert Climb(par', c, c, 1);
      assert Ancestor(par', c, c);
    } else if Ancestor(par, c, p) {
      var n: nat :| n > 0 && Climb(par, p, c, n);
      var k := FirstHit(par, par', c, p, n);
      assert par'[c] == p;
      assert Climb(par', c, c, k + 1);
      assert Ancestor(par', c, c);
    } else {
      forall x ensures !Ancestor(par', x, x) {
        if Ancestor(par', x, x) {
          var n: nat :| n > 0 && Climb(par', x, x, n);
          var k := SameOrThrough(par', par, c, x, x, n);
          if Climb(par, x, x, n) {
            assert Ancestor(par, x, x);
          } else {
            ClimbConcat(par', c, x, c, n - k, k);
            var j := FirstHit(par', par, c, p, n - 1);
          }
        }
      }
    }
  }

  /** A node nobody points at stays off every other node's climb. */
  lemma AddLeaf<T(!new)>(par: map<T, T>, c: T, p: T)
    requires Acyclic(par)
    requires c !in par.Values && p != c
    ensures Acyclic(par[c := p])
  {
    if Ancestor(par, c, p) {
      var n: nat :| n > 0 && Climb(par, p, c, n);
      var d := ClimbLast(par, p, c, n);
      assert false;
    }
    SetParent(par, c, p);
  }

  /** Setting the parent of an unreferenced node changes nobody else's ancestors. */
  lemma LeafKeepsAncestry<T>(par: map<T, T>, par': map<T, T>, c: T, x: T, y: T)
    requires forall z :: z != c ==> (z in par <==> z in par') && (z in par ==> par[z] == par'[z])
    requires c !in par.Values && c !in par'.Values && y != c
    ensures Ancestor(par, x, y) <==> Ancestor(par', x, y)
  {
    if Ancestor(par, x, y) {
      var n: nat :| n > 0 && Climb(par, y, x, n);
      LeafClimb(par, par', c, x, y, n);
    }
    if Ancestor(par', x, y) {
      var n: nat :| n > 0 && Climb(par', y, x, n);
      LeafClimb(par', par, c, x, y, n);
    }
  }

  lemma {:induction false} LeafClimb<T>(par: map<T, T>, par': map<T, T>, c: T, x: T, y: T, n: nat)
    requires forall z :: z != c ==> (z in par <==> z in par') && (z in par ==> par[z] == par'[z])
    requires c !in par.Values && y != c && Climb(par, y, x, n)
    ensures Climb(par', y, x, n)
  {
    if n > 0 {
      LeafClimb(par, par', c, x, par[y], n - 1);
    }
  }

  // -------------------------------------------------------------- descendants

  ghost function Descendants<T>(par: map<T, T>, x: T): set<T> {
    set y | y in par && Ancestor(par, x, y)
  }

  lemma InDescendants<T>(par: map<T, T>, x: T, y: T)
    ensures y in Descendants(par, x) <==> Ancestor(par, x, y)
  {
    AncestorStep(par, x, y);
  }

  /** Below a child there is strictly less than below its parent, so recursing
      into children terminates. */
  lemma ChildHasFewer<T(!new)>(par: map<T, T>, c: T)
    requires Acyclic(par) && c in par
    ensures c in Descendants(par, par[c])
    ensures Descendants(par, c) < Descendants(par, par[c])
    ensures |Descendants(par, c)| < |Descendants(par, par[c])|
  {
    ParentIsAncestor(par, c);
    forall y | y in Descendants(par, c) ensures y in Descendants(par, par[c]) {
      AncestorTransitive(par, par[c], c, y);
    }
    assert c !in Descendants(par, c);
    SubsetSize(Descendants(par, c), Descendants(par, par[c]) - {c});
  }

  lemma {:induction false} SubsetSize<T>(a: set<T>, b: set<T>)
    requires a <= b
    ensures |a| <= |b|
    ensures a != b ==> |a| < |b|
  {
    if a != {} {
      var x :| x in a;
      SubsetSize(a - {x}, b - {x});
      assert a != b ==> a - {x} != b - {x};
    } else if b != {} {
      assert |b| > 0;
    }
  }

  /** Subtrees of two different children of the same node do not meet. */
  lemma SiblingsDisjoint<T(!new)>(par: map<T, T>, c: T, d: T, y: T)
    requires Acyclic(par) && c in par && d in par && par[c] == par[d] && c != d
    requires y == c || Ancestor(par, c, y)
    ensures y != d && !Ancestor(par, d, y)
  {
    if y == d || Ancestor(par, d, y) {
      assert Climb(par, y, y, 0);
      var n: nat :| Climb(par, y, c, n);
      var m: nat :| Climb(par, y, d, m);
      if n < m {
        NestedSiblingsCycle(par, c, d, y, n, m);
      } else {
        NestedSiblingsCycle(par, d, c, y, m, n);
      }
    }
  }

  /** If one child of a node is above another child, the node is above itself. */
  lemma NestedSiblingsCycle<T>(par: map<T, T>, c: T, d: T, y: T, n: nat, m: nat)
    requires c in par && d in par && par[c] == par[d] && c != d
    requires n <= m && Climb(par, y, c, n) && Climb(par, y, d, m)
    ensures Ancestor(par, par[c], par[c])
  {
    ClimbRest(par, y, c, d, n, m - n);
    var k := m - n;
    assert k > 0;
    assert Climb(par, par[c], d, k - 1);
    assert Climb(par, par[d], par[d], 0);
    assert Climb(par, d, par[d], 1);
    ClimbConcat(par, par[c], d, par[d], k - 1, 1);
  }

  /** Taking away nodes that are not below `x` (and `x` itself stays) leaves the
      descendants of `x` alone. */
  lemma RemovalKeepsSubtree<T>(par: map<T, T>, gone: set<T>, x: T)
    requires gone !! Descendants(par, x)
    ensures Descendants(par - gone, x) == Descendants(par, x)
  {
    var par' := par - gone;
    forall y ensures Ancestor(par', x, y) <==> Ancestor(par, x, y) {
      if Ancestor(par', x, y) {
        var n: nat :| n > 0 && Climb(par', y, x, n);
        SubgraphClimb(par', par, y, x, n);
      }
      if Ancestor(par, x, y) {
        var n: nat :| n > 0 && Climb(par, y, x, n);
        ClimbInSubtree(par, gone, x, y, n);
      }
    }
    forall y ensures y in Descendants(par', x) <==> y in Descendants(par, x) {
      InDescendants(par, x, y);
      InDescendants(par', x, y);
    }
  }

  lemma {:induction false} SubgraphClimb<T>(sub: map<T, T>, par: map<T, T>, y: T, x: T, n: nat)
    requires forall z :: z in sub ==> z in par && par[z] == sub[z]
    requires Climb(sub, y, x, n)
    ensures Climb(par, y, x, n)
  {
    if n > 0 {
      SubgraphClimb(sub, par, sub[y], x, n - 1);
    }
  }

  lemma {:induction false} ClimbInSubtree<T>(par: map<T, T>, gone: set<T>, x: T, y: T, n: nat)
    requires gone !! Descendants(par, x) && Climb(par, y, x, n)
    ensures Climb(par - gone, y, x, n)
  {
    if n > 0 {
      assert Ancestor(par, x, y);
      assert y in Descendants(par, x);
      ClimbInSubtree(par, gone, x, par[y], n - 1);
    }
  }

  lemma SubgraphAcyclic<T(!new)>(sub: map<T, T>, par: map<T, T>)
    requires forall z :: z in sub ==> z in par && par[z] == sub[z]
    requires Acyclic(par)
    ensures Acyclic(sub)
  {
    forall x ensures !Ancestor(sub, x, x) {
      if Ancestor(sub, x, x) {
        var n: nat :| n > 0 && Climb(sub, x, x, n);
        SubgraphClimb(sub, par, x, x, n);
        assert Ancestor(par, x, x);
      }
    }
  }

  // ------------------------------------------------------------- path to root

  /** Nodes that `x` leads to; the measure of climbing. */
  ghost function Above<T>(par: map<T, T>, y: T): set<T> {
    set x | x in par.Values && Ancestor(par, x, y)
  }

  lemma ParentHasFewerAbove<T(!new)>(par: map<T, T>, y: T)
    requires Acyclic(par) && y in par
    ensures |Above(par, par[y])| < |Above(par, y)|
  {
    ParentIsAncestor(par, y);
    assert par[y] in par.Values;
    forall x | x in Above(par, par[y]) ensures x in Above(par, y) {
      AncestorTransitive(par, x, par[y], y);
    }
    assert par[y] !in Above(par, par[y]);
    SubsetSize(Above(par, par[y]), Above(par, y));
  }

  /** The nodes of `present` met when climbing from `y`, root first.  The climb
      stops at a node without a parent or just below a missing one. */
  ghost function RootPath<T(!new)>(par: map<T, T>, present: set<T>, y: T): (path: seq<T>)
    requires Acyclic(par)
    decreases |Above(par, y)|
  {
    if y !in present then []
    else if y !in par then [y]
    else
      ParentHasFewerAbove(par, y);
      RootPath(par, present, par[y]) + [y]
  }
}
