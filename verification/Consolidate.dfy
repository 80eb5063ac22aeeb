/** Near-duplicate clustering of the live active capsules, by shared vocabulary. */
module Consolidate {
  import opened Tables
  import opened UnionFind
  import opened Words

  const DEDUP_HINT_MIN_SCORE := 0.5
  const DEDUP_HINT_MIN_TOKENS := 4

  datatype Tier = Active | Archived | Quarantined

  /** A capsule as the consolidation rules read it; times are counted from one fixed origin. */
  datatype Record = Record(
    id: string,
    content: string,
    tainted: bool,
    imported: bool,
    validTo: Option<int>,
    createdAt: int,
    recalls: nat,
    superseded: bool,
    tier: Tier,
    pinned: bool,
    supersessionArchive: bool)

  datatype Proposal = Proposal(ids: seq<string>, score: real)

  datatype Edge = Edge(i: nat, j: nat, score: real)

  /** The runs of letters and digits of a lower-cased text, in order. */
  type Tokenizer = string -> seq<Word>

  function FullTokens(tokens: Tokenizer, text: string): set<Word> {
    set w | w in tokens(text)
  }

  function LongTokens(tokens: Tokenizer, text: string): set<Word> {
    set w | w in tokens(text) && |w| >= 3
  }

  predicate Distinct<T(==)>(s: seq<T>) {
    forall i, j | 0 <= i < j < |s| :: s[i] != s[j]
  }

  lemma {:induction false} DistinctCounts<T>(s: seq<T>)
    requires Distinct(s)
    ensures |s| == |set x | x in s|
  {
    if s != [] {
      var init, last := s[..|s| - 1], s[|s| - 1];
      DistinctCounts(init);
      assert (set x | x in s) == (set x | x in init) + {last};
    }
  }

  /** Each long token once, in order of first appearance. */
  method SignificantTokens(tokens: Tokenizer, text: string) returns (out: seq<Word>)
    ensures |out| == |LongTokens(tokens, text)|
    ensures Distinct(out) && (set w | w in out) == LongTokens(tokens, text)
  {
    var found := tokens(text);
    out := [];
    var seen: set<Word> := {};
    for k := 0 to |found|
      invariant seen == (set w | w in out) && Distinct(out)
      invariant seen == set w | w in found[..k] && |w| >= 3
    {
      TakeOneMore(found, k);
      if |found[k]| >= 3 && found[k] !in seen {
        seen := seen + {found[k]};
        out := out + [found[k]];
      }
    }
    assert found[..|found|] == found;
    DistinctCounts(out);
  }

  function Containment(a: set<Word>, b: set<Word>): (c: real)
    ensures 0.0 <= c <= 1.0
    ensures c == 1.0 <==> a == b != {}
  {
    var larger := if |a| < |b| then |b| else |a|;
    if larger == 0 then 0.0
    else
      SharedIsSmaller(a, b);
      Ratio(|a * b|, larger);
      |a * b| as real / larger as real
  }

  lemma Ratio(n: nat, m: nat)
    requires n <= m && m > 0
    ensures 0.0 <= n as real / m as real <= 1.0
    ensures n as real / m as real == 1.0 <==> n == m
  {
    var q := n as real / m as real;
    assert q * m as real == n as real;
    assert q <= 1.0 by {
      assert n as real <= m as real;
    }
  }

  lemma SharedIsSmaller(a: set<Word>, b: set<Word>)
    ensures |a * b| <= |a| && |a * b| <= |b|
    ensures |a * b| == |a| == |b| <==> a == b
  {
    assert a == a * b + (a - b) && b == a * b + (b - a);
    assert |a| == |a * b| + |a - b| && |b| == |a * b| + |b - a|;
    if |a * b| == |a| == |b| {
      assert a - b == {} && b - a == {};
    }
  }

  /** Python's `round`: to the nearest integer, a half to the even one. */
  function HalfEven(x: real): (n: int)
    ensures n as real - 0.5 <= x <= n as real + 0.5
    ensures (x == n as real - 0.5 || x == n as real + 0.5) ==> n % 2 == 0
  {
    var low := x.Floor;
    var rest := x - low as real;
    if rest < 0.5 || (rest == 0.5 && low % 2 == 0) then low else low + 1
  }

  function ReportedScore(raw: real): (score: real)
    ensures score < 1.0
    ensures if raw < 0.995 then raw - 0.005 <= score <= raw + 0.005 else score == 0.99
    ensures raw >= DEDUP_HINT_MIN_SCORE ==> score >= DEDUP_HINT_MIN_SCORE
  {
    var rounded := HalfEven(raw * 100.0) as real / 100.0;
    if rounded >= 1.0 then 0.99 else rounded
  }

  function PairScore(tokens: Tokenizer, r: Record, s: Record): (score: real)
    ensures score == 1.0 <==> r.content == s.content
  {
    if r.content == s.content then 1.0
    else ReportedScore(Containment(FullTokens(tokens, r.content), FullTokens(tokens, s.content)))
  }

  predicate Eligible(tokens: Tokenizer, r: Record) {
    |LongTokens(tokens, r.content)| >= DEDUP_HINT_MIN_TOKENS
  }

  predicate Similar(tokens: Tokenizer, r: Record, s: Record) {
    && r.tainted == s.tainted && Eligible(tokens, r) && Eligible(tokens, s)
    && Containment(FullTokens(tokens, r.content), FullTokens(tokens, s.content)) >= DEDUP_HINT_MIN_SCORE
  }

  /** Two eligible records of one taint and identical content are always similar. */
  lemma TwinsAreSimilar(tokens: Tokenizer, r: Record, s: Record)
    requires Eligible(tokens, r) && r.tainted == s.tainted && r.content == s.content
    ensures Similar(tokens, r, s)
  {
    var full := FullTokens(tokens, r.content);
    assert LongTokens(tokens, r.content) <= full;
    assert Pick(LongTokens(tokens, r.content)) in full;
  }

  predicate Pooled(r: Record) {
    r.tier == Active && !r.superseded
  }

  function Pool(ordered: seq<Record>): (pool: seq<Record>) {
    if ordered == [] then []
    else if Pooled(ordered[0]) then [ordered[0]] + Pool(ordered[1..])
    else Pool(ordered[1..])
  }

  ghost function SimilarPairs(tokens: Tokenizer, pool: seq<Record>): Edges {
    set a: nat, b: nat | a < b < |pool| && Similar(tokens, pool[a], pool[b]) :: (a, b)
  }

  /** One connected component of the similarity relation, least index first. */
  ghost predicate IsComponent(edges: Edges, n: nat, members: seq<nat>) {
    && |members| >= 2 && StrictlyAscending(members)
    && (forall i | 0 <= i < |members| :: members[i] < n)
    && forall b: nat :: b in members <==> b < n && Connected(edges, members[0], b)
  }

  /** The best edge of a component. */
  ghost predicate IsBest(tokens: Tokenizer, pool: seq<Record>, members: seq<nat>, score: real) {
    && (exists a, b :: a in members && b in members && (a, b) in SimilarPairs(tokens, pool)
                       && score == PairScore(tokens, pool[a], pool[b]))
    && (forall a, b :: a in members && b in members && (a, b) in SimilarPairs(tokens, pool)
                       ==> PairScore(tokens, pool[a], pool[b]) <= score)
  }

  /** The edges found are exactly the pairs of `pairs`, each with its score. */
  ghost predicate Listed(tokens: Tokenizer, pool: seq<Record>, edges: seq<Edge>, pairs: Edges) {
    && (forall e | e in edges :: e.i < e.j < |pool| && (e.i, e.j) in pairs
                                 && e.score == PairScore(tokens, pool[e.i], pool[e.j]))
    && (forall p | p in pairs :: exists e :: e in edges && e.i == p.0 && e.j == p.1)
  }

  /** The pairs the double loop passed before `(i, j)`. */
  ghost function Before(pairs: Edges, i: nat, j: nat): Edges {
    set q | q in pairs && (q.0 < i || (q.0 == i && q.1 < j))
  }

  ghost function PairsBefore(tokens: Tokenizer, pool: seq<Record>, i: nat, j: nat): Edges {
    Before(SimilarPairs(tokens, pool), i, j)
  }

  lemma BeforeNext(pairs: Edges, i: nat, j: nat)
    ensures Before(pairs, i, j + 1) == Before(pairs, i, j) + if (i, j) in pairs then {(i, j)} else {}
  {
  }

  lemma BeforeRow(pairs: Edges, n: nat, i: nat)
    requires forall q | q in pairs :: q.0 < q.1 < n
    ensures Before(pairs, i, i + 1) == Before(pairs, i, 0)
    ensures Before(pairs, i, n) == Before(pairs, i + 1, 0)
    ensures Before(pairs, 0, 0) == {}
    ensures Before(pairs, n, 0) == pairs
  {
  }

  lemma SimilarIsPair(tokens: Tokenizer, pool: seq<Record>, i: nat, j: nat)
    requires i < j < |pool|
    ensures (i, j) in SimilarPairs(tokens, pool) <==> Similar(tokens, pool[i], pool[j])
  {
  }

  lemma NextPair(tokens: Tokenizer, pool: seq<Record>, i: nat, j: nat)
    requires i < j < |pool|
    ensures PairsBefore(tokens, pool, i, j + 1)
         == PairsBefore(tokens, pool, i, j) + if Similar(tokens, pool[i], pool[j]) then {(i, j)} else {}
  {
    SimilarIsPair(tokens, pool, i, j);
    BeforeNext(SimilarPairs(tokens, pool), i, j);
  }

  lemma NextRow(tokens: Tokenizer, pool: seq<Record>, i: nat)
    requires i < |pool|
    ensures PairsBefore(tokens, pool, i, i + 1) == PairsBefore(tokens, pool, i, 0)
    ensures PairsBefore(tokens, pool, i, |pool|) == PairsBefore(tokens, pool, i + 1, 0)
  {
    BeforeRow(SimilarPairs(tokens, pool), |pool|, i);
  }

  lemma Rows(tokens: Tokenizer, pool: seq<Record>)
    ensures PairsBefore(tokens, pool, 0, 0) == {}
    ensures PairsBefore(tokens, pool, |pool|, 0) == SimilarPairs(tokens, pool)
  {
    BeforeRow(SimilarPairs(tokens, pool), |pool|, 0);
  }

  method SignificantLens(tokens: Tokenizer, pool: seq<Record>) returns (lens: seq<nat>)
    ensures |lens| == |pool|
    ensures forall k | 0 <= k < |pool| :: lens[k] == |LongTokens(tokens, pool[k].content)|
  {
    lens := [];
    for k := 0 to |pool|
      invariant |lens| == k
      invariant forall m | 0 <= m < k :: lens[m] == |LongTokens(tokens, pool[m].content)|
    {
      var significant := SignificantTokens(tokens, pool[k].content);
      lens := lens + [|significant|];
    }
  }

  /** One turn of the double loop: the pair joins the edges and the forest exactly when it is similar. */
  method LinkPair(tokens: Tokenizer, pool: seq<Record>, lens: seq<nat>, parent: array<nat>, edges: seq<Edge>,
                  ghost pairs: Edges, i: nat, j: nat)
    returns (more: seq<Edge>)
    requires i < j < |pool| == |lens| == parent.Length
    requires forall k | 0 <= k < |pool| :: lens[k] == |LongTokens(tokens, pool[k].content)|
    requires Represents(parent[..], pairs) && Listed(tokens, pool, edges, pairs)
    modifies parent
    ensures var now := pairs + if Similar(tokens, pool[i], pool[j]) then {(i, j)} else {};
            Represents(parent[..], now) && Listed(tokens, pool, more, now)
  {
    more := edges;
    assert pairs + {} == pairs;
    if pool[i].tainted != pool[j].tainted {
      return;
    }
    if lens[i] < DEDUP_HINT_MIN_TOKENS || lens[j] < DEDUP_HINT_MIN_TOKENS {
      return;
    }
    var raw := Containment(FullTokens(tokens, pool[i].content), FullTokens(tokens, pool[j].content));
    if raw >= DEDUP_HINT_MIN_SCORE {
      assert Similar(tokens, pool[i], pool[j]);
      ListOneMore(tokens, pool, edges, pairs, i, j);
      var reported := if pool[i].content == pool[j].content then 1.0 else ReportedScore(raw);
      more := edges + [Edge(i, j, reported)];
      Union(parent, pairs, i, j);
    }
  }

  /** The forest and the edges after the pairs before `(i, j)`. */
  ghost predicate Linking(tokens: Tokenizer, pool: seq<Record>, p: seq<nat>, edges: seq<Edge>, i: nat, j: nat) {
    Represents(p, PairsBefore(tokens, pool, i, j)) && Listed(tokens, pool, edges, PairsBefore(tokens, pool, i, j))
  }

  method LinkNext(tokens: Tokenizer, pool: seq<Record>, lens: seq<nat>, parent: array<nat>, edges: seq<Edge>, i: nat,
                  j: nat)
    returns (more: seq<Edge>)
    requires i < j < |pool| == |lens| == parent.Length
    requires forall k | 0 <= k < |pool| :: lens[k] == |LongTokens(tokens, pool[k].content)|
    requires Linking(tokens, pool, parent[..], edges, i, j)
    modifies parent
    ensures Linking(tokens, pool, parent[..], more, i, j + 1)
  {
    more := LinkPair(tokens, pool, lens, parent, edges, PairsBefore(tokens, pool, i, j), i, j);
    PairPasses(tokens, pool, parent[..], more, i, j);
  }

  method LinkRow(tokens: Tokenizer, pool: seq<Record>, lens: seq<nat>, parent: array<nat>, edges: seq<Edge>, i: nat)
    returns (more: seq<Edge>)
    requires i < |pool| == |lens| == parent.Length
    requires forall k | 0 <= k < |pool| :: lens[k] == |LongTokens(tokens, pool[k].content)|
    requires Linking(tokens, pool, parent[..], edges, i, 0)
    modifies parent
    ensures Linking(tokens, pool, parent[..], more, i + 1, 0)
  {
    more := edges;
    RowBegins(tokens, pool, parent[..], more, i);
    for j := i + 1 to |pool|
      invariant Linking(tokens, pool, parent[..], more, i, j)
    {
      more := LinkNext(tokens, pool, lens, parent, more, i, j);
    }
    RowEnds(tokens, pool, parent[..], more, i);
  }

  lemma RowBegins(tokens: Tokenizer, pool: seq<Record>, p: seq<nat>, edges: seq<Edge>, i: nat)
    requires i < |pool| && Linking(tokens, pool, p, edges, i, 0)
    ensures Linking(tokens, pool, p, edges, i, i + 1)
  {
    NextRow(tokens, pool, i);
  }

  lemma PairPasses(tokens: Tokenizer, pool: seq<Record>, p: seq<nat>, edges: seq<Edge>, i: nat, j: nat)
    requires i < j < |pool|
    requires var now := PairsBefore(tokens, pool, i, j) + if Similar(tokens, pool[i], pool[j]) then {(i, j)} else {};
             Represents(p, now) && Listed(tokens, pool, edges, now)
    ensures Linking(tokens, pool, p, edges, i, j + 1)
  {
    NextPair(tokens, pool, i, j);
  }

  lemma RowEnds(tokens: Tokenizer, pool: seq<Record>, p: seq<nat>, edges: seq<Edge>, i: nat)
    requires i < |pool| && Linking(tokens, pool, p, edges, i, |pool|)
    ensures Linking(tokens, pool, p, edges, i + 1, 0)
  {
    NextRow(tokens, pool, i);
  }

  method LinkSimilar(tokens: Tokenizer, pool: seq<Record>) returns (parent: array<nat>, edges: seq<Edge>)
    ensures fresh(parent) && parent.Length == |pool|
    ensures Represents(parent[..], SimilarPairs(tokens, pool))
    ensures Listed(tokens, pool, edges, SimilarPairs(tokens, pool))
  {
    var lens := SignificantLens(tokens, pool);
    parent := new nat[|pool|](i => i);
    edges := [];
    NoEdges(parent[..]);
    Rows(tokens, pool);
    for i := 0 to |pool|
      invariant Linking(tokens, pool, parent[..], edges, i, 0)
    {
      edges := LinkRow(tokens, pool, lens, parent, edges, i);
    }
  }

  lemma ListOneMore(tokens: Tokenizer, pool: seq<Record>, edges: seq<Edge>, pairs: Edges, i: nat, j: nat)
    requires Listed(tokens, pool, edges, pairs) && i < j < |pool|
    ensures Listed(tokens, pool, edges + [Edge(i, j, PairScore(tokens, pool[i], pool[j]))], pairs + {(i, j)})
  {
    var edge := Edge(i, j, PairScore(tokens, pool[i], pool[j]));
    var more := edges + [edge];
    assert edge in more;
    forall p | p in pairs + {(i, j)}
      ensures exists e :: e in more && e.i == p.0 && e.j == p.1
    {
      if p in pairs {
        var e :| e in edges && e.i == p.0 && e.j == p.1;
        assert e in more;
      }
    }
  }

  ghost function Roots(p: seq<nat>): (roots: seq<nat>)
    requires Forest(p)
    ensures |roots| == |p| && forall i | 0 <= i < |p| :: roots[i] == Root(p, i)
  {
    seq(|p|, i requires 0 <= i < |p| => Root(p, i))
  }

  /** The indices of the class `r` below `n`, least first. */
  ghost predicate IsClass(roots: seq<nat>, n: nat, r: nat, members: seq<nat>)
    requires n <= |roots|
  {
    && members != [] && StrictlyAscending(members)
    && forall b: nat :: b in members <==> b < n && roots[b] == r
  }

  ghost predicate Grouped(roots: seq<nat>, n: nat, clusters: map<nat, seq<nat>>)
    requires n <= |roots|
  {
    && (forall b | 0 <= b < n :: roots[b] in clusters)
    && (forall r | r in clusters :: IsClass(roots, n, r, clusters[r]))
  }

  lemma ClassOneMore(roots: seq<nat>, k: nat, r: nat, members: seq<nat>)
    requires k < |roots| && IsClass(roots, k, r, members)
    ensures if roots[k] == r then IsClass(roots, k + 1, r, members + [k]) else IsClass(roots, k + 1, r, members)
  {
    forall i | 0 <= i < |members|
      ensures members[i] < k
    {
      assert members[i] in members;
    }
  }

  lemma GroupOneMore(roots: seq<nat>, k: nat, clusters: map<nat, seq<nat>>)
    requires k < |roots| && Grouped(roots, k, clusters)
    ensures var r := roots[k];
            Grouped(roots, k + 1, clusters[r := (if r in clusters then clusters[r] else []) + [k]])
  {
    var r := roots[k];
    var more := clusters[r := (if r in clusters then clusters[r] else []) + [k]];
    forall q | q in more
      ensures IsClass(roots, k + 1, q, more[q])
    {
      if q in clusters {
        ClassOneMore(roots, k, q, clusters[q]);
      } else {
        assert more[q] == [k];
      }
    }
  }

  method Clusters(parent: array<nat>) returns (clusters: map<nat, seq<nat>>)
    requires Forest(parent[..])
    modifies parent
    ensures SameRoots(old(parent[..]), parent[..])
    ensures Grouped(Roots(old(parent[..])), parent.Length, clusters)
  {
    clusters := map[];
    ghost var p := parent[..];
    for k := 0 to parent.Length
      invariant SameRoots(p, parent[..])
      invariant Grouped(Roots(p), k, clusters)
    {
      GroupOneMore(Roots(p), k, clusters);
      var root := Find(parent, k);
      clusters := clusters[root := (if root in clusters then clusters[root] else []) + [k]];
    }
  }

  /** `best` maps each class that has an edge to the greatest score among its edges. */
  ghost predicate Topped(roots: seq<nat>, edges: seq<Edge>, best: map<nat, real>)
    requires forall e | e in edges :: e.i < |roots|
  {
    && (forall e | e in edges :: roots[e.i] in best && e.score <= best[roots[e.i]])
    && (forall r | r in best :: Attained(roots, edges, r, best[r]))
  }

  ghost predicate Attained(roots: seq<nat>, edges: seq<Edge>, r: nat, score: real)
    requires forall e | e in edges :: e.i < |roots|
  {
    exists e :: e in edges && roots[e.i] == r && e.score == score
  }

  lemma TopOneMore(roots: seq<nat>, edges: seq<Edge>, best: map<nat, real>, edge: Edge)
    requires (forall e | e in edges :: e.i < |roots|) && edge.i < |roots| && edge.score > 0.0
    requires Topped(roots, edges, best)
    ensures var r := roots[edge.i]; var was := if r in best then best[r] else 0.0;
            Topped(roots, edges + [edge], best[r := if was < edge.score then edge.score else was])
  {
    var r := roots[edge.i];
    var was := if r in best then best[r] else 0.0;
    var now := best[r := if was < edge.score then edge.score else was];
    assert edge in edges + [edge];
    forall q | q in now
      ensures Attained(roots, edges + [edge], q, now[q])
    {
      if q in best && now[q] == best[q] {
        var e :| e in edges && roots[e.i] == q && e.score == best[q];
        assert e in edges + [edge];
      }
    }
  }

  method BestScores(parent: array<nat>, edges: seq<Edge>) returns (best: map<nat, real>)
    requires Forest(parent[..]) && forall e | e in edges :: e.i < parent.Length && e.score > 0.0
    modifies parent
    ensures SameRoots(old(parent[..]), parent[..])
    ensures Topped(Roots(old(parent[..])), edges, best)
  {
    best := map[];
    ghost var p := parent[..];
    for k := 0 to |edges|
      invariant SameRoots(p, parent[..])
      invariant Topped(Roots(p), edges[..k], best)
    {
      TakeOneMore(edges, k);
      TopOneMore(Roots(p), edges[..k], best, edges[k]);
      var root := Find(parent, edges[k].i);
      var was := if root in best then best[root] else 0.0;
      best := best[root := if was < edges[k].score then edges[k].score else was];
    }
    assert edges[..|edges|] == edges;
  }

  ghost function Ids(pool: seq<Record>, members: seq<nat>): (ids: seq<string>)
    requires forall i | 0 <= i < |members| :: members[i] < |pool|
    ensures |ids| == |members| && forall i | 0 <= i < |ids| :: ids[i] == pool[members[i]].id
  {
    seq(|members|, i requires 0 <= i < |members| => pool[members[i]].id)
  }

  ghost predicate IsProposal(tokens: Tokenizer, pool: seq<Record>, members: seq<nat>, proposal: Proposal) {
    && IsComponent(SimilarPairs(tokens, pool), |pool|, members)
    && proposal.ids == Ids(pool, members)
    && IsBest(tokens, pool, members, proposal.score)
  }

  ghost predicate AreProposals(tokens: Tokenizer, pool: seq<Record>, clusters: seq<seq<nat>>, proposals: seq<Proposal>)
  {
    && |clusters| == |proposals|
    && forall k | 0 <= k < |clusters| :: IsProposal(tokens, pool, clusters[k], proposals[k])
  }

  ghost predicate InOrder(clusters: seq<seq<nat>>) {
    && (forall k | 0 <= k < |clusters| :: clusters[k] != [])
    && (forall k, l | 0 <= k < l < |clusters| :: clusters[k][0] < clusters[l][0])
  }

  ghost predicate Covered(clusters: seq<seq<nat>>, a: nat) {
    exists k :: 0 <= k < |clusters| && a in clusters[k]
  }

  /** The proposals are exactly the components of two or more, each once, least member first. */
  ghost predicate IsReport(tokens: Tokenizer, pool: seq<Record>, clusters: seq<seq<nat>>, proposals: seq<Proposal>) {
    && AreProposals(tokens, pool, clusters, proposals)
    && InOrder(clusters)
    && (forall p | p in SimilarPairs(tokens, pool) :: Covered(clusters, p.0))
  }

  lemma ClassIsComponent(p: seq<nat>, edges: Edges, r: nat, members: seq<nat>)
    requires Represents(p, edges) && IsClass(Roots(p), |p|, r, members)
    ensures members[0] == r
    ensures |members| >= 2 ==> IsComponent(edges, |p|, members)
  {
    assert members[0] in members;
    assert r in members by {
      RootOfRoot(p, members[0]);
    }
    var k :| 0 <= k < |members| && members[k] == r;
    assert r <= members[0];
    forall i | 0 <= i < |members|
      ensures members[i] < |p|
    {
      assert members[i] in members;
    }
    forall b: nat
      ensures b in members <==> b < |p| && Connected(edges, r, b)
    {
      if b < |p| {
        RootsAreComponents(p, edges, r, b);
      } else if Connected(edges, r, b) {
        var s :| Path(edges, s) && s[0] == r && s[|s| - 1] == b;
        PathKeepsRoot(p, edges, s);
      }
    }
  }

  /** A component of two or more holds an edge, and both its ends. */
  lemma ComponentHasEdge(tokens: Tokenizer, pool: seq<Record>, members: seq<nat>)
    requires IsComponent(SimilarPairs(tokens, pool), |pool|, members)
    ensures exists p :: p in SimilarPairs(tokens, pool) && p.0 in members && p.1 in members
  {
    var edges := SimilarPairs(tokens, pool);
    assert members[1] in members;
    var s :| Path(edges, s) && s[0] == members[0] && s[|s| - 1] == members[1];
    assert Touch(edges, s[0], s[1]);
    assert members[0] in members;
    assert Path(edges, [s[0], s[1]]);
    assert s[1] in members;
  }

  lemma EndsTogether(edges: Edges, n: nat, members: seq<nat>, a: nat, b: nat)
    requires IsComponent(edges, n, members) && a in members && b < n && Touch(edges, a, b)
    ensures b in members
  {
    assert Path(edges, [a, b]);
    Transitive(edges, members[0], a, b);
  }

  /** The first pair of a class puts its root among the scored, and the best score is one of its edges'. */
  lemma TopOfClass(tokens: Tokenizer, pool: seq<Record>, pairs: Edges, roots: seq<nat>, edges: seq<Edge>,
                   best: map<nat, real>, q: (nat, nat))
    returns (top: Edge)
    requires |roots| == |pool| && Listed(tokens, pool, edges, pairs) && Topped(roots, edges, best)
    requires q in pairs && q.0 < |roots|
    ensures roots[q.0] in best && top in edges && top.score == best[roots[q.0]]
    ensures top.i < |roots| && roots[top.i] == roots[q.0]
  {
    var first :| first in edges && first.i == q.0 && first.j == q.1;
    var r := roots[first.i];
    assert Attained(roots, edges, r, best[r]);
    top :| top in edges && roots[top.i] == r && top.score == best[r];
  }

  lemma NoneIsBetter(tokens: Tokenizer, pool: seq<Record>, pairs: Edges, roots: seq<nat>, edges: seq<Edge>,
                     best: map<nat, real>, q: (nat, nat))
    requires |roots| == |pool| && Listed(tokens, pool, edges, pairs) && Topped(roots, edges, best)
    requires q in pairs && q.0 < |roots| && q.1 < |roots| && roots[q.0] in best
    ensures PairScore(tokens, pool[q.0], pool[q.1]) <= best[roots[q.0]]
  {
    var e :| e in edges && e.i == q.0 && e.j == q.1;
  }

  lemma BestOfClass(tokens: Tokenizer, pool: seq<Record>, p: seq<nat>, edges: seq<Edge>, best: map<nat, real>, r: nat,
                    members: seq<nat>)
    requires |p| == |pool| && Represents(p, SimilarPairs(tokens, pool))
    requires Listed(tokens, pool, edges, SimilarPairs(tokens, pool)) && Topped(Roots(p), edges, best)
    requires IsClass(Roots(p), |p|, r, members) && |members| >= 2
    ensures IsComponent(SimilarPairs(tokens, pool), |pool|, members)
    ensures r in best && IsBest(tokens, pool, members, best[r])
  {
    var pairs := SimilarPairs(tokens, pool);
    ClassIsComponent(p, pairs, r, members);
    ComponentHasEdge(tokens, pool, members);
    var q :| q in pairs && q.0 in members && q.1 in members;
    var top := TopOfClass(tokens, pool, pairs, Roots(p), edges, best, q);
    EdgeOfClass(tokens, pool, edges, Roots(p), r, members, top);
    forall a, b | a in members && b in members && (a, b) in pairs
      ensures PairScore(tokens, pool[a], pool[b]) <= best[r]
    {
      NoneIsBetter(tokens, pool, pairs, Roots(p), edges, best, (a, b));
    }
  }

  lemma EdgeOfClass(tokens: Tokenizer, pool: seq<Record>, edges: seq<Edge>, roots: seq<nat>, r: nat, members: seq<nat>,
                    top: Edge)
    requires |roots| == |pool| && Listed(tokens, pool, edges, SimilarPairs(tokens, pool)) && top in edges
    requires IsClass(roots, |roots|, r, members) && IsComponent(SimilarPairs(tokens, pool), |pool|, members)
        && roots[top.i] == r
    ensures top.i in members && top.j in members && (top.i, top.j) in SimilarPairs(tokens, pool)
    ensures top.score == PairScore(tokens, pool[top.i], pool[top.j])
  {
    EndsTogether(SimilarPairs(tokens, pool), |pool|, members, top.i, top.j);
  }

  /** `near_duplicate_proposals`. */
  method NearDuplicateProposals(tokens: Tokenizer, ordered: seq<Record>)
    returns (proposals: seq<Proposal>)
    ensures exists clusters :: IsReport(tokens, Pool(ordered), clusters, proposals)
  {
    var pool := Pool(ordered);
    ghost var pairs := SimilarPairs(tokens, pool);
    var parent, edges := LinkSimilar(tokens, pool);
    ghost var p := parent[..];
    var groups := Clusters(parent);
    SameRootsRepresent(p, parent[..], pairs);
    assert Roots(p) == Roots(parent[..]);
    forall e | e in edges
      ensures e.score > 0.0
    {
      assert (e.i, e.j) in pairs;
    }
    var best := BestScores(parent, edges);
    ghost var clusters;
    proposals, clusters := Report(tokens, pool, p, edges, groups, best);
  }

  /** What the clusters reported owe to the classes `done`, those with the roots passed so far. */
  ghost predicate Reported(groups: map<nat, seq<nat>>, done: seq<nat>, clusters: seq<seq<nat>>) {
    && InOrder(clusters)
    && (forall m | 0 <= m < |clusters| :: clusters[m][0] in done)
    && (forall r | r in done && r in groups && |groups[r]| >= 2 :: groups[r] in clusters)
  }

  lemma ReportOneMore(groups: map<nat, seq<nat>>, done: seq<nat>, clusters: seq<seq<nat>>, root: nat)
    requires Reported(groups, done, clusters)
    requires forall r | r in done :: r < root
    requires root in groups && groups[root] != [] && groups[root][0] == root
    ensures |groups[root]| >= 2 ==> Reported(groups, done + [root], clusters + [groups[root]])
    ensures |groups[root]| < 2 ==> Reported(groups, done + [root], clusters)
  {
  }

  lemma ProposeOneMore(tokens: Tokenizer, pool: seq<Record>, clusters: seq<seq<nat>>, proposals: seq<Proposal>,
                       members: seq<nat>, proposal: Proposal)
    requires AreProposals(tokens, pool, clusters, proposals) && IsProposal(tokens, pool, members, proposal)
    ensures AreProposals(tokens, pool, clusters + [members], proposals + [proposal])
  {
    forall k | 0 <= k < |clusters| + 1
      ensures IsProposal(tokens, pool, (clusters + [members])[k], (proposals + [proposal])[k])
    {
      if k < |clusters| {
        assert IsProposal(tokens, pool, clusters[k], proposals[k]);
      }
    }
  }

  lemma TwoMembers(members: seq<nat>, a: nat, b: nat)
    requires a in members && b in members && a != b
    ensures |members| >= 2
  {
    var i :| 0 <= i < |members| && members[i] == a;
    var j :| 0 <= j < |members| && members[j] == b;
  }

  /** The class of a linked pair is reported. */
  lemma PairReported(p: seq<nat>, pairs: Edges, groups: map<nat, seq<nat>>, done: seq<nat>, clusters: seq<seq<nat>>,
                     q: (nat, nat))
    requires Represents(p, pairs) && q in pairs && q.0 != q.1
    requires Grouped(Roots(p), |p|, groups) && Reported(groups, done, clusters) && forall r | r in groups :: r in done
    ensures Covered(clusters, q.0)
  {
    var members := groups[Roots(p)[q.0]];
    TwoMembers(members, q.0, q.1);
    assert members in clusters;
    var m :| 0 <= m < |clusters| && clusters[m] == members;
    assert q.0 in clusters[m];
  }

  lemma EveryPairReported(tokens: Tokenizer, pool: seq<Record>, p: seq<nat>, edges: seq<Edge>, 
                          groups: map<nat, seq<nat>>,
                          best: map<nat, real>, done: seq<nat>, clusters: seq<seq<nat>>, proposals: seq<Proposal>)
    requires Clustered(tokens, pool, p, edges, groups, best)
    requires AreProposals(tokens, pool, clusters, proposals) && Reported(groups, done, clusters)
    requires forall r | r in groups :: r in done
    ensures IsReport(tokens, pool, clusters, proposals)
  {
    forall q | q in SimilarPairs(tokens, pool)
      ensures Covered(clusters, q.0)
    {
      assert q.0 != q.1;
      PairReported(p, SimilarPairs(tokens, pool), groups, done, clusters, q);
    }
  }

  /** What the pass over the pairs leaves for the report. */
  ghost predicate Clustered(tokens: Tokenizer, pool: seq<Record>, p: seq<nat>, edges: seq<Edge>,
                            groups: map<nat, seq<nat>>, best: map<nat, real>)
  {
    && |p| == |pool| && Represents(p, SimilarPairs(tokens, pool))
    && Listed(tokens, pool, edges, SimilarPairs(tokens, pool))
    && Grouped(Roots(p), |p|, groups) && Topped(Roots(p), edges, best)
  }

  method Propose(tokens: Tokenizer, pool: seq<Record>, ghost p: seq<nat>, ghost edges: seq<Edge>,
                 groups: map<nat, seq<nat>>, best: map<nat, real>, root: nat)
    returns (proposal: Proposal)
    requires Clustered(tokens, pool, p, edges, groups, best)
    requires root in groups && |groups[root]| >= 2
    ensures IsProposal(tokens, pool, groups[root], proposal)
  {
    BestOfClass(tokens, pool, p, edges, best, root, groups[root]);
    var ids := IdsOf(pool, groups[root]);
    proposal := Proposal(ids, if root in best then best[root] else 0.0);
  }

  method IdsOf(pool: seq<Record>, members: seq<nat>) returns (ids: seq<string>)
    requires forall i | 0 <= i < |members| :: members[i] < |pool|
    ensures ids == Ids(pool, members)
  {
    ids := seq(|members|, i requires 0 <= i < |members| => pool[members[i]].id);
  }

  lemma RootIsFirst(tokens: Tokenizer, pool: seq<Record>, p: seq<nat>, edges: seq<Edge>,
                    groups: map<nat, seq<nat>>, best: map<nat, real>, root: nat)
    requires Clustered(tokens, pool, p, edges, groups, best) && root in groups
    ensures groups[root] != [] && groups[root][0] == root
  {
    ClassIsComponent(p, SimilarPairs(tokens, pool), root, groups[root]);
  }

  /** The report after the classes whose roots are `done`. */
  ghost predicate Reporting(tokens: Tokenizer, pool: seq<Record>, groups: map<nat, seq<nat>>, done: seq<nat>,
                            clusters: seq<seq<nat>>, proposals: seq<Proposal>)
  {
    AreProposals(tokens, pool, clusters, proposals) && Reported(groups, done, clusters)
  }

  method ReportClass(tokens: Tokenizer, pool: seq<Record>, ghost p: seq<nat>, ghost edges: seq<Edge>,
                     groups: map<nat, seq<nat>>, best: map<nat, real>, ghost done: seq<nat>, root: nat,
                     proposals: seq<Proposal>, ghost clusters: seq<seq<nat>>)
    returns (more: seq<Proposal>, ghost found: seq<seq<nat>>)
    requires Clustered(tokens, pool, p, edges, groups, best) && root in groups
    requires Reporting(tokens, pool, groups, done, clusters, proposals) && forall r | r in done :: r < root
    ensures Reporting(tokens, pool, groups, done + [root], found, more)
  {
    more, found := proposals, clusters;
    RootIsFirst(tokens, pool, p, edges, groups, best, root);
    ReportOneMore(groups, done, clusters, root);
    if |groups[root]| >= 2 {
      var proposal := Propose(tokens, pool, p, edges, groups, best, root);
      ProposeOneMore(tokens, pool, clusters, proposals, groups[root], proposal);
      more := proposals + [proposal];
      found := clusters + [groups[root]];
    }
  }

  /** The last loop: the classes in the order of their roots, the singletons left out. */
  method Report(tokens: Tokenizer, pool: seq<Record>, ghost p: seq<nat>, ghost edges: seq<Edge>,
                groups: map<nat, seq<nat>>, best: map<nat, real>)
    returns (proposals: seq<Proposal>, ghost clusters: seq<seq<nat>>)
    requires Clustered(tokens, pool, p, edges, groups, best)
    ensures IsReport(tokens, pool, clusters, proposals)
  {
    var roots: seq<nat> := Ascending(groups.Keys);
    proposals, clusters := [], [];
    for k := 0 to |roots|
      invariant Reporting(tokens, pool, groups, roots[..k], clusters, proposals)
    {
      assert roots[k] in roots;
      TakeOneMore(roots, k);
      proposals, clusters :=
        ReportClass(tokens, pool, p, edges, groups, best, roots[..k], roots[k], proposals, clusters);
    }
    assert roots[..|roots|] == roots;
    EveryPairReported(tokens, pool, p, edges, groups, best, roots, clusters, proposals);
  }

  // ---- what a report promises ------------------------------------------------

  lemma {:induction false} TaintIsShared(tokens: Tokenizer, pool: seq<Record>, s: seq<nat>)
    requires Path(SimilarPairs(tokens, pool), s) && s[0] < |pool|
    ensures s[|s| - 1] < |pool|
    ensures pool[s[0]].tainted == pool[s[|s| - 1]].tainted
    ensures |s| > 1 ==> Eligible(tokens, pool[s[|s| - 1]])
  {
    if |s| > 1 {
      var init := s[..|s| - 1];
      assert Path(SimilarPairs(tokens, pool), init);
      TaintIsShared(tokens, pool, init);
      assert Touch(SimilarPairs(tokens, pool), s[|s| - 2], s[|s| - 1]);
    }
  }

  /** A proposal never mixes taint, and every member is long enough to compare. */
  lemma OneTaint(tokens: Tokenizer, pool: seq<Record>, members: seq<nat>, a: nat, b: nat)
    requires IsComponent(SimilarPairs(tokens, pool), |pool|, members) && a in members && b in members
    ensures a < |pool| && b < |pool| && pool[a].tainted == pool[b].tainted
    ensures a != b ==> Eligible(tokens, pool[a]) && Eligible(tokens, pool[b])
  {
    var edges := SimilarPairs(tokens, pool);
    Symmetric(edges, members[0], a);
    Transitive(edges, a, members[0], b);
    Symmetric(edges, a, b);
    var s :| Path(edges, s) && s[0] == a && s[|s| - 1] == b;
    TaintIsShared(tokens, pool, s);
    var t :| Path(edges, t) && t[0] == b && t[|t| - 1] == a;
    TaintIsShared(tokens, pool, t);
  }

  /** A proposal's score is 1.0 exactly when two of its members hold the very same text. */
  lemma PerfectScoreIsTwins(tokens: Tokenizer, pool: seq<Record>, members: seq<nat>, score: real)
    requires IsComponent(SimilarPairs(tokens, pool), |pool|, members) && IsBest(tokens, pool, members, score)
    ensures score <= 1.0
    ensures score == 1.0 <==>
            exists a, b :: a in members && b in members && a < b < |pool| && pool[a].content == pool[b].content
  {
    var c, d :| c in members && d in members && (c, d) in SimilarPairs(tokens, pool)
                && score == PairScore(tokens, pool[c], pool[d]);
    if a, b :| a in members && b in members && a < b < |pool| && pool[a].content == pool[b].content {
      OneTaint(tokens, pool, members, a, b);
      TwinsAreSimilar(tokens, pool[a], pool[b]);
      assert (a, b) in SimilarPairs(tokens, pool);
    }
  }

  lemma Inside(edges: Edges, n: nat, members: seq<nat>, a: nat, b: nat)
    requires IsComponent(edges, n, members) && a in members
    ensures b in members <==> b < n && Connected(edges, a, b)
  {
    Symmetric(edges, members[0], a);
    if b in members {
      Transitive(edges, a, members[0], b);
    } else if Connected(edges, a, b) {
      Transitive(edges, members[0], a, b);
    }
  }

  lemma LeastIsFirst(members: seq<nat>, m: nat)
    requires StrictlyAscending(members) && m in members
    ensures members[0] <= m
  {
  }

  /** Two members of the report share a proposal exactly when they are connected. */
  lemma OneProposalEach(tokens: Tokenizer, pool: seq<Record>, clusters: seq<seq<nat>>, proposals: seq<Proposal>,
                        k: nat, l: nat, a: nat, b: nat)
    requires IsReport(tokens, pool, clusters, proposals)
    requires k < |clusters| && l < |clusters| && a in clusters[k] && b in clusters[l]
    ensures k == l <==> Connected(SimilarPairs(tokens, pool), a, b)
  {
    var edges, n := SimilarPairs(tokens, pool), |pool|;
    assert IsProposal(tokens, pool, clusters[k], proposals[k]) && IsProposal(tokens, pool, clusters[l], proposals[l]);
    Inside(edges, n, clusters[k], a, b);
    Inside(edges, n, clusters[l], b, b);
    if b in clusters[k] {
      SameMembers(edges, n, clusters[k], clusters[l], b);
      assert clusters[k][0] == clusters[l][0];
    }
  }

  lemma SameMembers(edges: Edges, n: nat, these: seq<nat>, those: seq<nat>, a: nat)
    requires IsComponent(edges, n, these) && IsComponent(edges, n, those) && a in these && a in those
    ensures these[0] == those[0]
  {
    assert these[0] in these && those[0] in those;
    Inside(edges, n, these, a, these[0]);
    Inside(edges, n, those, a, these[0]);
    Inside(edges, n, those, a, those[0]);
    Inside(edges, n, these, a, those[0]);
    LeastIsFirst(these, those[0]);
    LeastIsFirst(those, these[0]);
  }

  lemma ProposedHasPartner(tokens: Tokenizer, pool: seq<Record>, members: seq<nat>, a: nat)
    requires IsComponent(SimilarPairs(tokens, pool), |pool|, members) && a in members
    ensures a < |pool| && exists b: nat :: b < |pool| && b != a && Similar(tokens, pool[a], pool[b])
  {
    var edges := SimilarPairs(tokens, pool);
    var other := if a == members[0] then members[1] else members[0];
    assert other in members;
    Inside(edges, |pool|, members, a, other);
    var s :| Path(edges, s) && s[0] == a && s[|s| - 1] == other;
    assert Touch(edges, s[0], s[1]);
    SimilarIsSymmetric(tokens, pool[a], pool[s[1]]);
  }

  /** A capsule is proposed exactly when it is similar to another live active capsule. */
  lemma ProposedIffSimilar(tokens: Tokenizer, pool: seq<Record>, clusters: seq<seq<nat>>, proposals: seq<Proposal>,
                           a: nat)
    requires IsReport(tokens, pool, clusters, proposals) && a < |pool|
    ensures Covered(clusters, a)
       <==> exists b: nat :: b < |pool| && b != a && Similar(tokens, pool[a], pool[b])
  {
    if Covered(clusters, a) {
      var k :| 0 <= k < |clusters| && a in clusters[k];
      assert IsProposal(tokens, pool, clusters[k], proposals[k]);
      ProposedHasPartner(tokens, pool, clusters[k], a);
    }
    if b: nat :| b < |pool| && b != a && Similar(tokens, pool[a], pool[b]) {
      PartnersAreCovered(tokens, pool, clusters, proposals, a, b);
    }
  }

  lemma PartnersAreCovered(tokens: Tokenizer, pool: seq<Record>, clusters: seq<seq<nat>>, proposals: seq<Proposal>,
                           a: nat, b: nat)
    requires IsReport(tokens, pool, clusters, proposals) && a < |pool| && b < |pool|
    requires a != b && Similar(tokens, pool[a], pool[b])
    ensures Covered(clusters, a)
  {
    var edges := SimilarPairs(tokens, pool);
    if a < b {
      SimilarIsPair(tokens, pool, a, b);
      assert (a, b) in edges && (a, b).0 == a;
    } else {
      SimilarIsSymmetric(tokens, pool[a], pool[b]);
      SimilarIsPair(tokens, pool, b, a);
      assert (b, a) in edges && (b, a).0 == b;
      OtherEndCovered(tokens, pool, clusters, proposals, b, a);
    }
  }

  lemma OtherEndCovered(tokens: Tokenizer, pool: seq<Record>, clusters: seq<seq<nat>>, proposals: seq<Proposal>,
                        a: nat, b: nat)
    requires AreProposals(tokens, pool, clusters, proposals) && Covered(clusters, a)
    requires a < |pool| && b < |pool| && (a, b) in SimilarPairs(tokens, pool)
    ensures Covered(clusters, b)
  {
    var k :| 0 <= k < |clusters| && a in clusters[k];
    ProposalOf(tokens, pool, clusters, proposals, k);
    EndsTogether(SimilarPairs(tokens, pool), |pool|, clusters[k], a, b);
  }

  lemma ProposalOf(tokens: Tokenizer, pool: seq<Record>, clusters: seq<seq<nat>>, proposals: seq<Proposal>, k: nat)
    requires AreProposals(tokens, pool, clusters, proposals) && k < |clusters|
    ensures IsComponent(SimilarPairs(tokens, pool), |pool|, clusters[k])
    ensures proposals[k].ids == Ids(pool, clusters[k])
  {
    assert IsProposal(tokens, pool, clusters[k], proposals[k]);
  }

  lemma SameIdSameIndex(pool: seq<Record>, these: seq<nat>, those: seq<nat>, i: nat, j: nat)
    requires forall a, b | 0 <= a < b < |pool| :: pool[a].id != pool[b].id
    requires forall k | 0 <= k < |these| :: these[k] < |pool|
    requires forall k | 0 <= k < |those| :: those[k] < |pool|
    requires i < |these| && j < |those| && Ids(pool, these)[i] == Ids(pool, those)[j]
    ensures these[i] == those[j]
  {
  }

  lemma AscendingOnce(members: seq<nat>, i: nat, j: nat)
    requires StrictlyAscending(members) && i < |members| && j < |members| && members[i] == members[j]
    ensures i == j
  {
  }

  lemma SharedMember(tokens: Tokenizer, pool: seq<Record>, clusters: seq<seq<nat>>, proposals: seq<Proposal>, k: nat,
                     l: nat, a: nat)
    requires IsReport(tokens, pool, clusters, proposals) && k < |clusters| && l < |clusters|
    requires a in clusters[k] && a in clusters[l]
    ensures k == l
  {
    Reflexive(SimilarPairs(tokens, pool), a);
    OneProposalEach(tokens, pool, clusters, proposals, k, l, a, a);
  }

  lemma SameIndexTwice(tokens: Tokenizer, pool: seq<Record>, clusters: seq<seq<nat>>, proposals: seq<Proposal>, k: nat,
                       i: nat, l: nat, j: nat)
    requires IsReport(tokens, pool, clusters, proposals) && k < |clusters| && l < |clusters|
    requires i < |clusters[k]| && j < |clusters[l]| && clusters[k][i] == clusters[l][j]
    ensures k == l && i == j
  {
    ProposalOf(tokens, pool, clusters, proposals, k);
    assert clusters[k][i] in clusters[k] && clusters[l][j] in clusters[l];
    SharedMember(tokens, pool, clusters, proposals, k, l, clusters[k][i]);
    AscendingOnce(clusters[k], i, j);
  }

  /** Where the records carry distinct ids, no id is in two proposals or twice in one. */
  lemma NoIdTwice(tokens: Tokenizer, pool: seq<Record>, clusters: seq<seq<nat>>, proposals: seq<Proposal>, k: nat,
                  i: nat, l: nat, j: nat)
    requires forall a, b | 0 <= a < b < |pool| :: pool[a].id != pool[b].id
    requires IsReport(tokens, pool, clusters, proposals) && k < |proposals| && l < |proposals|
    requires i < |proposals[k].ids| && j < |proposals[l].ids|
    requires proposals[k].ids[i] == proposals[l].ids[j]
    ensures k == l && i == j
  {
    ProposalOf(tokens, pool, clusters, proposals, k);
    ProposalOf(tokens, pool, clusters, proposals, l);
    SameIdSameIndex(pool, clusters[k], clusters[l], i, j);
    SameIndexTwice(tokens, pool, clusters, proposals, k, i, l, j);
  }

  lemma SimilarIsSymmetric(tokens: Tokenizer, r: Record, s: Record)
    ensures Similar(tokens, r, s) <==> Similar(tokens, s, r)
  {
    var a, b := FullTokens(tokens, r.content), FullTokens(tokens, s.content);
    assert a * b == b * a;
  }
}
