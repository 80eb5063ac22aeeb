/** What a group of context candidates is, told by the hits that came to it. */
module GroupsByHit {
  import opened Groups
  import opened Words

  /** Places written one way: a git address names one place, another only at one revision where the lines meet. */
  lemma SamePlaceIff(left: Provenance, right: Provenance)
    requires Spans(left) ==> left.startLine.value <= left.endLine.value
    requires Spans(right) ==> right.startLine.value <= right.endLine.value
    ensures SameLocation(left, right) <==>
      && left.address == right.address
      && (|| (left.provider == "git" && right.provider == "git")
          || (left.revision.Some? && left.revision == right.revision && CommonLine(left, right)))
  {
    if Spans(left) && Spans(right) {
      var line := if left.startLine.value < right.startLine.value then right.startLine.value else left.startLine.value;
      assert CommonLine(left, right) <== OnLine(left, line) && OnLine(right, line);
    }
  }

  predicate OnLine(p: Provenance, line: int) {
    p.startLine.Some? && p.endLine.Some? && p.startLine.value <= line <= p.endLine.value
  }

  ghost predicate CommonLine(p: Provenance, q: Provenance) {
    exists line :: OnLine(p, line) && OnLine(q, line)
  }

  /** A hit reaches the group of its own text, and one found elsewhere each group that holds a place of its. */
  ghost predicate Reaches(hit: Hit, grouped: Grouped, g: string)
    requires g in grouped
  {
    || g == hit.key
    || (!hit.Memory? && exists p, q :: p in grouped[g].provenance && q in Provenances(hit) && SameLocation(p, q))
  }

  /** A group stays as it is exactly if the hit does not reach it; one reached goes, into the group of the least key. */
  lemma OnlyReachedMerge(grouped: Grouped, hit: Hit, g: string)
    requires ValidHit(hit) && g in grouped
    ensures !Reaches(hit, grouped, g) ==> g in Insert(grouped, hit) && Insert(grouped, hit)[g] == grouped[g]
    ensures Reaches(hit, grouped, g) && g in Insert(grouped, hit) ==>
      g == if hit.Memory? then hit.key else MergeKeys(grouped, hit.key, Provenances(hit))[0]
  {
    if !hit.Memory? {
      assert Touches(grouped[g].provenance, Provenances(hit)) <==>
        exists p, q :: p in grouped[g].provenance && q in Provenances(hit) && SameLocation(p, q) by {
        TouchesIff(grouped[g].provenance, Provenances(hit));
      }
      var first := MergeKeys(grouped, hit.key, Provenances(hit))[0];
      assert first in MergeKeys(grouped, hit.key, Provenances(hit));
    }
  }

  lemma TouchesIff(stored: seq<Provenance>, incoming: seq<Provenance>)
    ensures Touches(stored, incoming) <==> exists p, q :: p in stored && q in incoming && SameLocation(p, q)
  {
    if p, q :| p in stored && q in incoming && SameLocation(p, q) {
      var i :| 0 <= i < |stored| && stored[i] == p;
      var j :| 0 <= j < |incoming| && incoming[j] == q;
      assert SameLocation(stored[i], incoming[j]);
    }
  }

  /** New places go to the end, in order, each once. */
  lemma ExtendsInOrder(held: seq<Provenance>, more: seq<Provenance>, p: Provenance)
    ensures Extend(held, []) == held
    ensures Extend(held, more + [p]) == Extend(held, more) + if p in held || p in more then [] else [p]
  {
    assert (more + [p])[..|more|] == more;
    assert p in Extend(held, more) <==> p in ProvSet(Extend(held, more));
    assert p in ProvSet(held) + ProvSet(more) <==> p in held || p in more;
  }

  /** No place stands twice. */
  lemma DistinctIff(provs: seq<Provenance>)
    ensures Distinct(provs) <==> |ProvSet(provs)| == |provs|
  {
    if Distinct(provs) {
      DistinctCounts(provs);
    } else {
      var i, j :| 0 <= i < j < |provs| && provs[i] == provs[j];
      var rest := provs[..j] + provs[j + 1..];
      assert ProvSet(rest) == ProvSet(provs) by {
        Without(provs, i, j);
      }
      AtMost(rest);
    }
  }

  lemma Without(provs: seq<Provenance>, i: nat, j: nat)
    requires i < j < |provs| && provs[i] == provs[j]
    ensures ProvSet(provs[..j] + provs[j + 1..]) == ProvSet(provs)
  {
    var rest := provs[..j] + provs[j + 1..];
    forall p | p in provs
      ensures p in rest
    {
      var k :| 0 <= k < |provs| && provs[k] == p;
      var m := if k == j then i else k;
      assert provs[m] == p && m != j;
      assert rest[if m < j then m else m - 1] == p;
    }
  }

  lemma {:induction false} DistinctCounts(provs: seq<Provenance>)
    requires Distinct(provs)
    ensures |ProvSet(provs)| == |provs|
  {
    if provs != [] {
      var init, last := provs[..|provs| - 1], provs[|provs| - 1];
      DistinctCounts(init);
      assert ProvSet(provs) == ProvSet(init) + {last};
    }
  }

  lemma {:induction false} AtMost(provs: seq<Provenance>)
    ensures |ProvSet(provs)| <= |provs|
  {
    if provs != [] {
      var init, last := provs[..|provs| - 1], provs[|provs| - 1];
      AtMost(init);
      assert ProvSet(provs) == ProvSet(init) + {last};
    }
  }

  // ---- what a hit brings ---------------------------------------------------------

  function ProvidersOf(hit: Hit): set<string> {
    match hit
    case Memory(_, _, _, _, _, _) => {"memory"}
    case Corpus(_, _, occurrences, _) => set p | p in occurrences :: p.provider
    case Adapter(_, _, src, _, _) => {src}
  }

  function PlacesBy(hit: Hit): set<Provenance> {
    match hit
    case Memory(_, _, _, anchor, _, _) => {Provenance("memory", anchor, None, None, None)}
    case Corpus(_, _, occurrences, _) => set p | p in occurrences
    case Adapter(_, _, _, at, _) => {at}
  }

  /** A capsule says itself whether it is tainted; what comes from outside is. */
  predicate Taints(hit: Hit) {
    hit.Memory? ==> hit.tainted
  }

  /** `1 / (60 + rank)`, summed. */
  ghost function Weighs(hits: seq<Hit>, members: set<nat>): real
    requires forall k | k in members :: k < |hits|
  {
    if members == {} then 0.0
    else var k :| k in members; Weight(hits[k].rank) + Weighs(hits, members - {k})
  }

  /** A candidate is what these hits make together. */
  ghost predicate Made(c: Candidate, hits: seq<Hit>, members: set<nat>) {
    && (forall k | k in members :: k < |hits|)
    && c.score == Weighs(hits, members)
    && (forall p :: p in c.providers <==> exists k :: k in members && p in ProvidersOf(hits[k]))
    && (forall p :: p in c.provenance <==> exists k :: k in members && p in PlacesBy(hits[k]))
    && (c.tainted <==> exists k :: k in members && Taints(hits[k]))
  }

  lemma {:induction false} WeighsWithout(hits: seq<Hit>, members: set<nat>, k: nat)
    requires k in members && forall m | m in members :: m < |hits|
    ensures Weighs(hits, members) == Weight(hits[k].rank) + Weighs(hits, members - {k})
    decreases members
  {
    var m :| m in members && Weighs(hits, members) == Weight(hits[m].rank) + Weighs(hits, members - {m});
    if m != k {
      WeighsWithout(hits, members - {m}, k);
      WeighsWithout(hits, members - {k}, m);
      assert members - {m} - {k} == members - {k} - {m};
    }
  }

  lemma {:induction false} WeighsTogether(hits: seq<Hit>, a: set<nat>, b: set<nat>)
    requires a !! b && (forall m | m in a :: m < |hits|) && forall m | m in b :: m < |hits|
    ensures Weighs(hits, a + b) == Weighs(hits, a) + Weighs(hits, b)
    decreases b
  {
    if b == {} {
      assert a + b == a;
    } else {
      var k: nat :| k in b;
      WeighsWithout(hits, b, k);
      WeighsWithout(hits, a + b, k);
      WeighsTogether(hits, a, b - {k});
      assert a + b - {k} == a + (b - {k});
    }
  }

  lemma {:induction false} WeighsStill(hits: seq<Hit>, more: Hit, members: set<nat>)
    requires forall m | m in members :: m < |hits|
    ensures Weighs(hits + [more], members) == Weighs(hits, members)
    decreases members
  {
    if members != {} {
      var k :| k in members;
      WeighsStill(hits, more, members - {k});
      WeighsWithout(hits, members, k);
      WeighsWithout(hits + [more], members, k);
    }
  }

  lemma WeighsOne(hits: seq<Hit>, k: nat)
    requires k < |hits|
    ensures Weighs(hits, {k}) == Weight(hits[k].rank)
  {
    WeighsWithout(hits, {k}, k);
    assert {k} - {k} == {};
  }

  lemma MadeStill(c: Candidate, hits: seq<Hit>, members: set<nat>, more: Hit)
    requires Made(c, hits, members)
    ensures Made(c, hits + [more], members)
  {
    WeighsStill(hits, more, members);
  }

  lemma AbsorbMade(c: Candidate, a: set<nat>, other: Candidate, b: set<nat>, hits: seq<Hit>)
    requires Made(c, hits, a) && Made(other, hits, b) && a !! b
    ensures Made(Absorb(c, other), hits, a + b)
  {
    WeighsTogether(hits, a, b);
    var all := Absorb(c, other);
    forall p
      ensures p in all.provenance <==> p in c.provenance || p in other.provenance
    {
      assert p in all.provenance <==> p in ProvSet(all.provenance);
    }
  }

  lemma AddMade(c: Candidate, hits: seq<Hit>, members: set<nat>, hit: Hit, provider: string, provs: seq<Provenance>)
    requires Made(c, hits, members) && provider in ProvidersOf(hit) && ProvSet(provs) == PlacesBy(hit)
    ensures
      var d := Add(c, hit.who, provider, provs, Taints(hit), hit.rank);
      Made(d.(providers := d.providers + ProvidersOf(hit)), hits + [hit], members + {|hits|})
  {
    var d, all, n := Add(c, hit.who, provider, provs, Taints(hit), hit.rank), hits + [hit], |hits|;
    MadeStill(c, hits, members, hit);
    WeighsTogether(all, members, {n});
    WeighsOne(all, n);
    forall p
      ensures p in d.provenance <==> p in c.provenance || p in PlacesBy(hit)
    {
      assert p in d.provenance <==> p in ProvSet(d.provenance);
    }
  }

  // ---- every run -------------------------------------------------------------------

  type Shares = map<string, set<nat>>

  ghost predicate AllMade(grouped: Grouped, hits: seq<Hit>, shares: Shares) {
    shares.Keys == grouped.Keys && forall g | g in grouped :: Made(grouped[g], hits, shares[g])
  }

  ghost predicate Apart(shares: Shares) {
    forall g, h | g in shares && h in shares && g != h :: shares[g] !! shares[h]
  }

  ghost predicate Homed(shares: Shares, k: nat) {
    exists g :: g in shares && k in shares[g]
  }

  /** Each group is made of its own hits, and each hit is in one group. */
  ghost predicate Shared(grouped: Grouped, hits: seq<Hit>, shares: Shares) {
    AllMade(grouped, hits, shares) && Apart(shares) && forall k: nat | k < |hits| :: Homed(shares, k)
  }

  /** The hits of the groups under these keys. */
  ghost function Under(shares: Shares, keys: set<string>): set<nat> {
    set g, k | g in shares && g in keys && k in shares[g] :: k
  }

  lemma UnderMore(shares: Shares, keys: set<string>, key: string)
    ensures Under(shares, keys + {key}) == Under(shares, keys) + if key in shares then shares[key] else {}
  {
  }

  lemma UnderNone(shares: Shares, key: string)
    ensures Under(shares, {key}) == if key in shares then shares[key] else {}
  {
  }

  lemma UnderKnown(shares: Shares, keys: set<string>, known: set<string>)
    requires forall g | g in shares :: g in keys <==> g in known
    ensures Under(shares, keys) == Under(shares, known)
  {
  }

  lemma UnderApart(shares: Shares, keys: set<string>, key: string)
    requires Apart(shares) && key in shares && key !in keys
    ensures shares[key] !! Under(shares, keys)
  {
  }

  lemma FreshMade(hits: seq<Hit>)
    ensures Made(FRESH, hits, {})
  {
  }

  lemma LookupMade(grouped: Grouped, hits: seq<Hit>, shares: Shares, key: string)
    requires AllMade(grouped, hits, shares)
    ensures Made(Lookup(grouped, key), hits, Under(shares, {key}))
  {
    UnderNone(shares, key);
    FreshMade(hits);
  }

  lemma AbsorbOneMade(grouped: Grouped, hits: seq<Hit>, shares: Shares, before: Candidate, held: set<string>,
                      last: string)
    requires AllMade(grouped, hits, shares) && Apart(shares) && last !in held
    requires Made(before, hits, Under(shares, held))
    ensures Made(if last in grouped then Absorb(before, grouped[last]) else before, hits, Under(shares, held + {last}))
  {
    UnderMore(shares, held, last);
    if last in grouped {
      UnderApart(shares, held, last);
      AbsorbMade(before, Under(shares, held), grouped[last], shares[last], hits);
    } else {
      assert Under(shares, held) + {} == Under(shares, held);
    }
  }

  lemma KeysMore(first: string, keys: seq<string>)
    requires keys != [] && WordSorted(keys) && first !in KeySet(keys)
    ensures
      var init, last := keys[..|keys| - 1], keys[|keys| - 1];
      && WordSorted(init) && first !in KeySet(init) && last !in {first} + KeySet(init)
      && {first} + KeySet(keys) == {first} + KeySet(init) + {last}
  {
    LastIsNew(keys);
  }

  lemma {:induction false} AbsorbAllMade(grouped: Grouped, hits: seq<Hit>, shares: Shares, first: string,
                                         keys: seq<string>)
    requires AllMade(grouped, hits, shares) && Apart(shares) && WordSorted(keys) && first !in KeySet(keys)
    ensures Made(AbsorbAll(Lookup(grouped, first), grouped, keys), hits, Under(shares, {first} + KeySet(keys)))
    decreases |keys|
  {
    if keys == [] {
      LookupMade(grouped, hits, shares, first);
      assert {first} + KeySet(keys) == {first};
    } else {
      var init, last := keys[..|keys| - 1], keys[|keys| - 1];
      KeysMore(first, keys);
      AbsorbAllMade(grouped, hits, shares, first, init);
      AbsorbOneMade(grouped, hits, shares, AbsorbAll(Lookup(grouped, first), grouped, init), {first} + KeySet(init),
        last);
    }
  }

  /** What is taken out is made of the hits of the groups it merges. */
  lemma TakenMade(grouped: Grouped, hits: seq<Hit>, shares: Shares, hash: string, provs: seq<Provenance>)
    requires AllMade(grouped, hits, shares) && Apart(shares)
    ensures Made(Taken(grouped, hash, provs), hits, Under(shares, Matching(grouped, hash, provs)))
  {
    var keys, matching := MergeKeys(grouped, hash, provs), Matching(grouped, hash, provs);
    KeysSplit(grouped, hash, provs);
    AbsorbAllMade(grouped, hits, shares, keys[0], keys[1..]);
    assert {keys[0]} + KeySet(keys[1..]) == matching + {hash};
    UnderKnown(shares, matching + {hash}, matching);
  }

  /** The shares once the groups of some keys gave theirs, and a new hit, to one. */
  ghost function Moved(shares: Shares, gone: set<string>, key: string, k: nat): Shares {
    (shares - gone)[key := Under(shares, gone) + {k}]
  }

  lemma MovedApart(shares: Shares, gone: set<string>, key: string, k: nat)
    requires Apart(shares) && key !in shares - gone && forall g | g in shares :: k !in shares[g]
    ensures Apart(Moved(shares, gone, key, k))
  {
    var now := Moved(shares, gone, key, k);
    forall g | g in shares && g !in gone
      ensures now[key] !! shares[g]
    {
      UnderApart(shares, gone, g);
    }
  }

  lemma MovedHomed(shares: Shares, gone: set<string>, key: string, n: nat, k: nat)
    requires key !in shares - gone && (k == n || Homed(shares, k))
    ensures Homed(Moved(shares, gone, key, n), k)
  {
    var now := Moved(shares, gone, key, n);
    if k == n {
      assert k in now[key];
    } else {
      var g :| g in shares && k in shares[g];
      if g in gone {
        assert k in Under(shares, gone) && k in now[key];
      } else {
        assert k in now[g];
      }
    }
  }

  lemma MovedMade(grouped: Grouped, hits: seq<Hit>, shares: Shares, hit: Hit, gone: set<string>, key: string,
                  c: Candidate)
    requires AllMade(grouped, hits, shares) && Made(c, hits + [hit], Under(shares, gone) + {|hits|})
    ensures AllMade((grouped - gone)[key := c], hits + [hit], Moved(shares, gone, key, |hits|))
  {
    forall g | g in grouped && g !in gone
      ensures Made(grouped[g], hits + [hit], shares[g])
    {
      MadeStill(grouped[g], hits, shares[g], hit);
    }
  }

  /** A group made of the hits of some groups and of a new hit takes their place. */
  lemma SharedStill(grouped: Grouped, hits: seq<Hit>, shares: Shares, hit: Hit, gone: set<string>, key: string,
                    c: Candidate)
    requires Shared(grouped, hits, shares) && key !in grouped - gone
    requires Made(c, hits + [hit], Under(shares, gone) + {|hits|})
    ensures Shared((grouped - gone)[key := c], hits + [hit], Moved(shares, gone, key, |hits|))
  {
    MovedMade(grouped, hits, shares, hit, gone, key, c);
    forall g | g in shares
      ensures |hits| !in shares[g]
    {
      assert Made(grouped[g], hits, shares[g]);
    }
    MovedApart(shares, gone, key, |hits|);
    forall k: nat | k < |hits| + 1
      ensures Homed(Moved(shares, gone, key, |hits|), k)
    {
      MovedHomed(shares, gone, key, |hits|, k);
    }
  }

  lemma FirstKeyIsFree(grouped: Grouped, hash: string, provs: seq<Provenance>)
    ensures MergeKeys(grouped, hash, provs)[0] !in grouped - Matching(grouped, hash, provs)
  {
    assert MergeKeys(grouped, hash, provs)[0] in MergeKeys(grouped, hash, provs);
  }

  /** A new hit on what is taken out of the groups it touches. */
  lemma PlacedShares(grouped: Grouped, hits: seq<Hit>, shares: Shares, hit: Hit, kind: string, provider: string,
                     provs: seq<Provenance>)
    requires Shared(grouped, hits, shares) && provider in ProvidersOf(hit) && ProvSet(provs) == PlacesBy(hit)
    ensures
      var matching := Matching(grouped, hit.key, provs);
      var d := Add(Named(Taken(grouped, hit.key, provs), kind), hit.who, provider, provs, Taints(hit), hit.rank);
      var key := MergeKeys(grouped, hit.key, provs)[0];
      Shared((grouped - matching)[key := d.(providers := d.providers + ProvidersOf(hit))], hits + [hit],
             Moved(shares, matching, key, |hits|))
  {
    var matching, key := Matching(grouped, hit.key, provs), MergeKeys(grouped, hit.key, provs)[0];
    var c := Named(Taken(grouped, hit.key, provs), kind);
    TakenMade(grouped, hits, shares, hit.key, provs);
    assert Made(c, hits, Under(shares, matching));
    AddMade(c, hits, Under(shares, matching), hit, provider, provs);
    FirstKeyIsFree(grouped, hit.key, provs);
    var d := Add(c, hit.who, provider, provs, Taints(hit), hit.rank);
    SharedStill(grouped, hits, shares, hit, matching, key, d.(providers := d.providers + ProvidersOf(hit)));
  }

  lemma KindIsFree(c: Candidate, hits: seq<Hit>, members: set<nat>, kind: string)
    requires Made(c, hits, members)
    ensures Made(c.(kind := Some(kind)), hits, members)
  {
  }

  lemma MemoryMade(c: Candidate, hits: seq<Hit>, members: set<nat>, hit: Hit)
    requires Made(c, hits, members) && hit.Memory?
    ensures Made(Add(c.(kind := Some(hit.kind)), hit.who, "memory", Provenances(hit), hit.tainted, hit.rank),
                 hits + [hit], members + {|hits|})
  {
    KindIsFree(c, hits, members, hit.kind);
    AddMade(c.(kind := Some(hit.kind)), hits, members, hit, "memory", Provenances(hit));
    var d := Add(c.(kind := Some(hit.kind)), hit.who, "memory", Provenances(hit), hit.tainted, hit.rank);
    assert d.(providers := d.providers + ProvidersOf(hit)) == d;
  }

  lemma MemoryShares(grouped: Grouped, hits: seq<Hit>, shares: Shares, hit: Hit)
    requires Shared(grouped, hits, shares) && ValidHit(hit) && hit.Memory?
    ensures Shared(Insert(grouped, hit), hits + [hit], Moved(shares, {hit.key}, hit.key, |hits|))
  {
    var c := Lookup(grouped, hit.key);
    LookupMade(grouped, hits, shares, hit.key);
    MemoryMade(c, hits, Under(shares, {hit.key}), hit);
    var d := Add(c.(kind := Some(hit.kind)), hit.who, "memory", Provenances(hit), hit.tainted, hit.rank);
    SharedStill(grouped, hits, shares, hit, {hit.key}, hit.key, d);
    Replaced(grouped, hit.key, d);
  }

  lemma Replaced(grouped: Grouped, key: string, c: Candidate)
    ensures (grouped - {key})[key := c] == grouped[key := c]
  {
  }

  lemma InsertShares(grouped: Grouped, hits: seq<Hit>, shares: Shares, hit: Hit) returns (now: Shares)
    requires Shared(grouped, hits, shares) && ValidHit(hit)
    ensures Shared(Insert(grouped, hit), hits + [hit], now)
  {
    match hit
    case Memory(key, _, _, _, _, _) =>
      MemoryShares(grouped, hits, shares, hit);
      now := Moved(shares, {key}, key, |hits|);
    case Corpus(key, _, occurrences, _) =>
      assert occurrences[0].provider in Providers(occurrences);
      var primary := LeastWord(Providers(occurrences));
      PlacedShares(grouped, hits, shares, hit, primary, primary, occurrences);
      now := Moved(shares, Matching(grouped, key, occurrences), MergeKeys(grouped, key, occurrences)[0], |hits|);
    case Adapter(key, who, src, at, rank) =>
      PlacedShares(grouped, hits, shares, hit, src, src, [at]);
      var d := Add(Named(Taken(grouped, key, [at]), src), who, src, [at], true, rank);
      assert d.(providers := d.providers + ProvidersOf(hit)) == d;
      now := Moved(shares, Matching(grouped, key, [at]), MergeKeys(grouped, key, [at])[0], |hits|);
  }

  /** Over every run the hits are shared out among the groups, and each group is what its hits make together: the sum of
      their weights, all their providers and places, tainted if one of them is. */
  lemma {:induction false} EveryRunShares(hits: seq<Hit>) returns (shares: Shares)
    requires AllValid(hits)
    ensures Shared(InsertAll(hits), hits, shares)
    decreases |hits|
  {
    shares := map[];
    if hits != [] {
      var init, last := hits[..|hits| - 1], hits[|hits| - 1];
      var before := EveryRunShares(init);
      assert hits == init + [last];
      shares := InsertShares(InsertAll(init), init, before, last);
    }
  }

  // ---- whose face a merged group wears ---------------------------------------------

  /** A group as every insertion leaves it: with an identity and a kind, and a clock exactly if it holds a capsule. */
  ghost predicate Faced(c: Candidate) {
    && c.who.Some? && c.kind.Some?
    && (c.who.value.confidence.Some? <==> "memory" in c.providers)
    && (c.who.value.born.Some? <==> "memory" in c.providers)
  }

  ghost predicate AllFaced(grouped: Grouped) {
    forall g | g in grouped :: Faced(grouped[g])
  }

  /** The first of these keys that names a group, or that names one with a capsule. */
  ghost function FirstIn(grouped: Grouped, keys: seq<string>, capsule: bool): (first: Option<string>)
    ensures first.Some? ==> first.value in grouped
  {
    if keys == [] then None
    else
      var before, last := FirstIn(grouped, keys[..|keys| - 1], capsule), keys[|keys| - 1];
      if before.Some? then before
      else if last in grouped && (capsule ==> "memory" in grouped[last].providers) then Some(last)
      else None
  }

  /** The group whose face a merged one wears: of these keys the first with a capsule, or else the first. */
  ghost function Face(grouped: Grouped, keys: seq<string>): Candidate {
    if FirstIn(grouped, keys, true).Some? then grouped[FirstIn(grouped, keys, true).value]
    else if FirstIn(grouped, keys, false).Some? then grouped[FirstIn(grouped, keys, false).value]
    else FRESH
  }

  /** The face of a candidate that then absorbs the groups of these keys. */
  ghost function FaceAfter(c: Candidate, grouped: Grouped, keys: seq<string>): Candidate {
    if c == FRESH || ("memory" !in c.providers && FirstIn(grouped, keys, true).Some?) then Face(grouped, keys) else c
  }

  ghost predicate SameFace(c: Candidate, d: Candidate) {
    c.who == d.who && c.kind == d.kind && ("memory" in c.providers <==> "memory" in d.providers)
  }

  lemma AbsorbFace(c: Candidate, other: Candidate)
    requires (c == FRESH || Faced(c)) && Faced(other)
    ensures Faced(Absorb(c, other))
    ensures SameFace(Absorb(c, other),
      if c == FRESH || ("memory" !in c.providers && "memory" in other.providers) then other else c)
  {
  }

  lemma {:induction false} AnyIsFirst(grouped: Grouped, keys: seq<string>)
    requires FirstIn(grouped, keys, true).Some?
    ensures FirstIn(grouped, keys, false).Some?
  {
    if FirstIn(grouped, keys[..|keys| - 1], true).Some? {
      AnyIsFirst(grouped, keys[..|keys| - 1]);
    }
  }

  lemma {:induction false} FirstHasCapsule(grouped: Grouped, keys: seq<string>)
    ensures FirstIn(grouped, keys, true).Some? ==>
      "memory" in grouped[FirstIn(grouped, keys, true).value].providers
    ensures FirstIn(grouped, keys, true).None? && FirstIn(grouped, keys, false).Some? ==>
      "memory" !in grouped[FirstIn(grouped, keys, false).value].providers
  {
    if keys != [] {
      FirstHasCapsule(grouped, keys[..|keys| - 1]);
      if FirstIn(grouped, keys[..|keys| - 1], true).Some? {
        AnyIsFirst(grouped, keys[..|keys| - 1]);
      }
    }
  }

  lemma FaceMore(c: Candidate, now: Candidate, grouped: Grouped, init: seq<string>, last: string)
    requires (c == FRESH || Faced(c)) && AllFaced(grouped) && (now == FRESH || Faced(now))
    requires SameFace(now, FaceAfter(c, grouped, init))
    requires last in grouped
    ensures Faced(Absorb(now, grouped[last]))
    ensures SameFace(Absorb(now, grouped[last]), FaceAfter(c, grouped, init + [last]))
  {
    AbsorbFace(now, grouped[last]);
    assert (init + [last])[..|init|] == init;
    FirstHasCapsule(grouped, init);
    FirstHasCapsule(grouped, init + [last]);
    if FirstIn(grouped, init, true).Some? {
      AnyIsFirst(grouped, init);
    }
  }

  lemma {:induction false} AbsorbAllFace(c: Candidate, grouped: Grouped, keys: seq<string>)
    requires (c == FRESH || Faced(c)) && AllFaced(grouped)
    ensures var all := AbsorbAll(c, grouped, keys); all == FRESH || Faced(all)
    ensures SameFace(AbsorbAll(c, grouped, keys), FaceAfter(c, grouped, keys))
    decreases |keys|
  {
    if keys != [] {
      var init, last := keys[..|keys| - 1], keys[|keys| - 1];
      AbsorbAllFace(c, grouped, init);
      assert keys == init + [last];
      if last in grouped {
        FaceMore(c, AbsorbAll(c, grouped, init), grouped, init, last);
      }
    }
  }

  lemma {:induction false} FirstFromHead(grouped: Grouped, keys: seq<string>, capsule: bool)
    requires keys != []
    ensures
      var head := keys[0];
      FirstIn(grouped, keys, capsule) ==
      if head in grouped && (capsule ==> "memory" in grouped[head].providers) then Some(head)
      else FirstIn(grouped, keys[1..], capsule)
    decreases |keys|
  {
    if |keys| > 1 {
      var init := keys[..|keys| - 1];
      FirstFromHead(grouped, init, capsule);
      assert keys[1..][..|keys| - 2] == init[1..];
    }
  }

  /** What is taken out wears the face of the first group it merges that has a capsule, or else of the first. */
  lemma TakenFace(grouped: Grouped, hash: string, provs: seq<Provenance>)
    requires AllFaced(grouped)
    ensures
      var keys, taken := MergeKeys(grouped, hash, provs), Taken(grouped, hash, provs);
      SameFace(taken, Face(grouped, keys)) && (taken == FRESH || Faced(taken))
  {
    var keys := MergeKeys(grouped, hash, provs);
    AbsorbAllFace(Lookup(grouped, keys[0]), grouped, keys[1..]);
    FirstFromHead(grouped, keys, true);
    FirstFromHead(grouped, keys, false);
  }

  /** A capsule gives its group its own kind, and its face unless the group has a capsule's. */
  lemma CapsuleFaces(grouped: Grouped, hit: Hit)
    requires AllFaced(grouped) && ValidHit(hit) && hit.Memory?
    ensures AllFaced(Insert(grouped, hit))
    ensures
      var was, now := Lookup(grouped, hit.key), Insert(grouped, hit)[hit.key];
      now.kind == Some(hit.kind) && now.who == if "memory" in was.providers then was.who else Some(hit.who)
  {
  }

  /** What is found elsewhere gives its face to a group of its own only. */
  lemma FoundFaces(grouped: Grouped, hit: Hit)
    requires AllFaced(grouped) && ValidHit(hit) && !hit.Memory?
    ensures AllFaced(Insert(grouped, hit))
    ensures
      var keys := MergeKeys(grouped, hit.key, Provenances(hit));
      var was, now := Face(grouped, keys), Insert(grouped, hit)[keys[0]];
      if was != FRESH then now.who == was.who && now.kind == was.kind
      else now.who == Some(hit.who) && now.kind == Some(if hit.Adapter? then hit.src else LeastProvider(hit))
  {
    TakenFace(grouped, hit.key, Provenances(hit));
    if hit.Corpus? {
      assert hit.occurrences[0].provider in Providers(hit.occurrences);
    }
  }

  function LeastProvider(hit: Hit): string
    requires ValidHit(hit) && hit.Corpus?
  {
    assert hit.occurrences[0].provider in Providers(hit.occurrences);
    LeastWord(Providers(hit.occurrences))
  }

  /** Over every run each group has a face, and a clock exactly if it holds a capsule. */
  lemma {:induction false} EveryRunFaces(hits: seq<Hit>)
    requires AllValid(hits)
    ensures AllFaced(InsertAll(hits))
    decreases |hits|
  {
    if hits != [] {
      var init, last := hits[..|hits| - 1], hits[|hits| - 1];
      EveryRunFaces(init);
      if last.Memory? {
        CapsuleFaces(InsertAll(init), last);
      } else {
        FoundFaces(InsertAll(init), last);
      }
    }
  }
}
