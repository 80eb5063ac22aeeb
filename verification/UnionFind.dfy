/** Union-find with path halving over an array of parents, every link pointing to a lower index. */
module UnionFind {

  /** A parent table: each index points to itself or below. */
  ghost predicate Forest(p: seq<nat>) {
    forall i | 0 <= i < |p| :: p[i] <= i
  }

  ghost function Root(p: seq<nat>, i: nat): (r: nat)
    requires Forest(p) && i < |p|
    ensures r <= i && p[r] == r
  {
    if p[i] == i then i else Root(p, p[i])
  }

  lemma {:induction false} RootOfRoot(p: seq<nat>, i: nat)
    requires Forest(p) && i < |p|
    ensures Root(p, Root(p, i)) == Root(p, i)
    ensures Root(p, p[i]) == Root(p, i)
  {
  }

  /** Pointing a node at its grandparent changes no root. */
  lemma {:induction false} HalvingKeepsRoots(p: seq<nat>, x: nat, i: nat)
    requires Forest(p) && x < |p| && i < |p|
    ensures Forest(p[x := p[p[x]]])
    ensures Root(p[x := p[p[x]]], i) == Root(p, i)
    decreases i
  {
    var q := p[x := p[p[x]]];
    if q[i] != i {
      HalvingKeepsRoots(p, x, q[i]);
      if i == x {
        RootOfRoot(p, i);
        RootOfRoot(p, p[i]);
      }
    } else if i == x {
      assert p[p[i]] == i;
    }
  }

  /** Linking the higher root under the lower one merges their two classes and no other. */
  lemma {:induction false} LinkMerges(p: seq<nat>, lo: nat, hi: nat, i: nat)
    requires Forest(p) && lo < hi < |p| && i < |p| && p[lo] == lo && p[hi] == hi
    ensures Forest(p[hi := lo])
    ensures Root(p[hi := lo], i) == if Root(p, i) == hi then lo else Root(p, i)
    decreases i
  {
    var q := p[hi := lo];
    if i == hi {
      assert Root(q, lo) == lo;
    } else if q[i] != i {
      LinkMerges(p, lo, hi, q[i]);
    }
  }

  ghost predicate SameRoots(p: seq<nat>, q: seq<nat>) {
    && |p| == |q| && Forest(p) && Forest(q)
    && forall i: nat | i < |p| :: Root(p, i) == Root(q, i)
  }

  /** `dsu_find`: the root, halving the path behind it; no index changes its root. */
  method Find(parent: array<nat>, x0: nat) returns (x: nat)
    requires Forest(parent[..]) && x0 < parent.Length
    modifies parent
    ensures SameRoots(old(parent[..]), parent[..])
    ensures x == Root(old(parent[..]), x0)
  {
    x := x0;
    while parent[x] != x
      invariant x < parent.Length
      invariant SameRoots(old(parent[..]), parent[..])
      invariant Root(parent[..], x) == Root(old(parent[..]), x0)
      decreases x
    {
      ghost var before := parent[..];
      parent[x] := parent[parent[x]];
      assert parent[..] == before[x := before[before[x]]];
      forall i: nat | i < |before|
        ensures Root(parent[..], i) == Root(before, i)
      {
        HalvingKeepsRoots(before, x, i);
      }
      HalvingKeepsRoots(before, x, x);
      RootOfRoot(parent[..], x);
      x := parent[x];
    }
  }

  // ---- the classes are the components ----------------------------------------

  type Edges = set<(nat, nat)>

  predicate Touch(edges: Edges, a: nat, b: nat) {
    (a, b) in edges || (b, a) in edges
  }

  ghost predicate Path(edges: Edges, s: seq<nat>) {
    s != [] && forall k | 0 <= k < |s| - 1 :: Touch(edges, s[k], s[k + 1])
  }

  ghost predicate Connected(edges: Edges, a: nat, b: nat) {
    exists s :: Path(edges, s) && s[0] == a && s[|s| - 1] == b
  }

  lemma Reflexive(edges: Edges, a: nat)
    ensures Connected(edges, a, a)
  {
    assert Path(edges, [a]);
  }

  lemma Transitive(edges: Edges, a: nat, b: nat, c: nat)
    requires Connected(edges, a, b) && Connected(edges, b, c)
    ensures Connected(edges, a, c)
  {
    var s :| Path(edges, s) && s[0] == a && s[|s| - 1] == b;
    var t :| Path(edges, t) && t[0] == b && t[|t| - 1] == c;
    var u := s + t[1..];
    forall k | 0 <= k < |u| - 1
      ensures Touch(edges, u[k], u[k + 1])
    {
      if k >= |s| - 1 {
        assert u[k] == t[k - |s| + 1] && u[k + 1] == t[k - |s| + 2];
      }
    }
    assert Path(edges, u);
  }

  lemma Symmetric(edges: Edges, a: nat, b: nat)
    requires Connected(edges, a, b)
    ensures Connected(edges, b, a)
  {
    var s :| Path(edges, s) && s[0] == a && s[|s| - 1] == b;
    var r := seq(|s|, k requires 0 <= k < |s| => s[|s| - 1 - k]);
    forall k | 0 <= k < |r| - 1
      ensures Touch(edges, r[k], r[k + 1])
    {
      assert Touch(edges, s[|s| - 2 - k], s[|s| - 1 - k]);
    }
    assert Path(edges, r);
  }

  lemma Monotone(edges: Edges, more: Edges, a: nat, b: nat)
    requires edges <= more && Connected(edges, a, b)
    ensures Connected(more, a, b)
  {
    var s :| Path(edges, s) && s[0] == a && s[|s| - 1] == b;
    assert Path(more, s);
  }

  /** The table's classes are the components of the edges seen so far. */
  ghost predicate Represents(p: seq<nat>, edges: Edges) {
    && Forest(p)
    && (forall e | e in edges :: e.0 < |p| && e.1 < |p| && Root(p, e.0) == Root(p, e.1))
    && (forall i: nat | i < |p| :: Connected(edges, i, Root(p, i)))
  }

  lemma {:induction false} PathKeepsRoot(p: seq<nat>, edges: Edges, s: seq<nat>)
    requires Represents(p, edges) && Path(edges, s) && s[0] < |p|
    ensures s[|s| - 1] < |p| && Root(p, s[|s| - 1]) == Root(p, s[0])
  {
    if |s| > 1 {
      var init := s[..|s| - 1];
      assert Path(edges, init);
      PathKeepsRoot(p, edges, init);
      assert Touch(edges, s[|s| - 2], s[|s| - 1]);
    }
  }

  /** Two indices have one root exactly when they are connected; the root is the component's least index. */
  lemma RootsAreComponents(p: seq<nat>, edges: Edges, a: nat, b: nat)
    requires Represents(p, edges) && a < |p| && b < |p|
    ensures Root(p, a) == Root(p, b) <==> Connected(edges, a, b)
    ensures Connected(edges, a, b) ==> Root(p, a) <= b
  {
    if Root(p, a) == Root(p, b) {
      Symmetric(edges, b, Root(p, b));
      Transitive(edges, a, Root(p, a), b);
    }
    if Connected(edges, a, b) {
      var s :| Path(edges, s) && s[0] == a && s[|s| - 1] == b;
      PathKeepsRoot(p, edges, s);
    }
  }

  lemma NoEdges(p: seq<nat>)
    requires forall i | 0 <= i < |p| :: p[i] == i
    ensures Represents(p, {})
  {
    forall i: nat | i < |p|
      ensures Connected({}, i, Root(p, i))
    {
      Reflexive({}, i);
    }
  }

  lemma SameRootsRepresent(p: seq<nat>, q: seq<nat>, edges: Edges)
    requires Represents(p, edges) && SameRoots(p, q)
    ensures Represents(q, edges)
  {
  }

  lemma EdgeInside(p: seq<nat>, edges: Edges, a: nat, b: nat)
    requires Represents(p, edges) && a < |p| && b < |p| && Root(p, a) == Root(p, b)
    ensures Represents(p, edges + {(a, b)})
  {
    forall i: nat | i < |p|
      ensures Connected(edges + {(a, b)}, i, Root(p, i))
    {
      Monotone(edges, edges + {(a, b)}, i, Root(p, i));
    }
  }

  /** What is connected to the ends of an edge is connected. */
  lemma Bridge(edges: Edges, a: nat, x: nat, b: nat, y: nat)
    requires Connected(edges, a, x) && Touch(edges, a, b) && Connected(edges, b, y)
    ensures Connected(edges, x, y)
  {
    Symmetric(edges, a, x);
    EdgeConnects(edges, a, b);
    Transitive(edges, x, a, b);
    Transitive(edges, x, b, y);
  }

  lemma EdgeConnects(edges: Edges, a: nat, b: nat)
    requires Touch(edges, a, b)
    ensures Connected(edges, a, b)
  {
    assert Path(edges, [a, b]);
  }

  lemma RootsTouch(p: seq<nat>, edges: Edges, a: nat, b: nat)
    requires Represents(p, edges) && a < |p| && b < |p|
    ensures Connected(edges + {(a, b)}, Root(p, a), Root(p, b))
  {
    var more, ra, rb := edges + {(a, b)}, Root(p, a), Root(p, b);
    Monotone(edges, more, a, ra);
    Monotone(edges, more, b, rb);
    Bridge(more, a, ra, b, rb);
  }

  lemma EdgeAcross(p: seq<nat>, edges: Edges, a: nat, b: nat, lo: nat, hi: nat)
    requires Represents(p, edges) && a < |p| && b < |p| && lo < hi < |p|
    requires (lo == Root(p, a) && hi == Root(p, b)) || (lo == Root(p, b) && hi == Root(p, a))
    ensures Represents(p[hi := lo], edges + {(a, b)})
  {
    var q, more := p[hi := lo], edges + {(a, b)};
    LinkMerges(p, lo, hi, a);
    forall e | e in more
      ensures e.0 < |q| && e.1 < |q| && Root(q, e.0) == Root(q, e.1)
    {
      LinkMerges(p, lo, hi, e.0);
      LinkMerges(p, lo, hi, e.1);
    }
    RootsTouch(p, edges, a, b);
    Symmetric(more, Root(p, a), Root(p, b));
    forall i: nat | i < |q|
      ensures Connected(more, i, Root(q, i))
    {
      LinkMerges(p, lo, hi, i);
      Monotone(edges, more, i, Root(p, i));
      if Root(p, i) == hi {
        Transitive(more, i, hi, lo);
      }
    }
  }

  /** One edge of the pass: find both ends, and link the higher root under the lower. */
  method Union(parent: array<nat>, ghost edges: Edges, i: nat, j: nat)
    requires i < parent.Length && j < parent.Length && Represents(parent[..], edges)
    modifies parent
    ensures Represents(parent[..], edges + {(i, j)})
  {
    ghost var p0 := parent[..];
    var ri := Find(parent, i);
    SameRootsRepresent(p0, parent[..], edges);
    ghost var p1 := parent[..];
    var rj := Find(parent, j);
    SameRootsRepresent(p1, parent[..], edges);
    ghost var p := parent[..];
    if ri != rj {
      var lo, hi := if ri < rj then ri else rj, if ri < rj then rj else ri;
      EdgeAcross(p, edges, i, j, lo, hi);
      parent[hi] := lo;
      assert parent[..] == p[hi := lo];
    } else {
      EdgeInside(p, edges, i, j);
    }
  }
}
