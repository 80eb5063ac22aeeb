/** Grouping the candidates of a context query: one group a text or a place, merged as hits arrive. */
module Groups {
  import opened Words

  const RRF_K := 60.0

  /** Where a candidate was found. */
  datatype Provenance = Provenance(
    provider: string,
    address: string,
    startLine: Option<int>,
    endLine: Option<int>,
    revision: Option<string>)

  predicate Spans(p: Provenance) {
    p.startLine.Some? && p.endLine.Some?
  }

  /** `same_context_location`. */
  predicate SameLocation(left: Provenance, right: Provenance) {
    if left.provider == "git" && right.provider == "git" && left.address == right.address then true
    else if left.address != right.address || left.revision.None? || left.revision != right.revision then false
    else if Spans(left) && Spans(right) then
      left.startLine.value <= right.endLine.value && right.startLine.value <= left.endLine.value
    else false
  }

  /** What a group serves, all of it from one hit; only a capsule has a confidence and a birth. */
  datatype Identity = Identity(
    id: string,
    handle: Option<string>,
    content: string,
    confidence: Option<real>,
    born: Option<int>)

  datatype Candidate = Candidate(
    who: Option<Identity>,
    kind: Option<string>,
    providers: set<string>,
    provenance: seq<Provenance>,
    tainted: bool,
    score: real)

  const FRESH := Candidate(None, None, {}, [], false, 0.0)

  predicate Distinct(provs: seq<Provenance>) {
    forall i, j | 0 <= i < j < |provs| :: provs[i] != provs[j]
  }

  function ProvSet(provs: seq<Provenance>): set<Provenance> {
    set p | p in provs
  }

  /** Each new provenance once, after those already held. */
  function Extend(held: seq<Provenance>, more: seq<Provenance>): (all: seq<Provenance>)
    ensures ProvSet(all) == ProvSet(held) + ProvSet(more)
    ensures Distinct(held) ==> Distinct(all)
    decreases |more|
  {
    if more == [] then held
    else
      var rest := Extend(held, more[..|more| - 1]);
      var last := more[|more| - 1];
      assert ProvSet(more) == ProvSet(more[..|more| - 1]) + {last};
      assert ProvSet(rest + [last]) == ProvSet(rest) + {last};
      if last in rest then rest else rest + [last]
  }

  /** `1.0 / (RRF_K + rank)`. */
  function Weight(rank: nat): (w: real)
    ensures 0.0 < w && w * (60.0 + rank as real) == 1.0
  {
    1.0 / (RRF_K + rank as real)
  }

  /** `GroupedCandidate.add`. */
  function Add(c: Candidate, who: Identity, provider: string, provs: seq<Provenance>, tainted: bool,
               rank: nat): Candidate
  {
    c.(who := if c.who.None? || (provider == "memory" && "memory" !in c.providers) then Some(who) else c.who,
       providers := c.providers + {provider},
       provenance := Extend(c.provenance, provs),
       tainted := c.tainted || tainted,
       score := c.score + Weight(rank))
  }

  /** Confidence and birth filled from the other where this one has none. */
  function Filled(who: Option<Identity>, other: Option<Identity>): Option<Identity> {
    if who.None? || other.None? then who
    else
      Some(who.value.(
        confidence := if who.value.confidence.None? then other.value.confidence else who.value.confidence,
        born := if who.value.born.None? then other.value.born else who.value.born))
  }

  /** `GroupedCandidate.absorb`. */
  function Absorb(c: Candidate, other: Candidate): Candidate {
    var taken := c.who.None? || ("memory" !in c.providers && "memory" in other.providers);
    Candidate(
      Filled(if taken then other.who else c.who, other.who),
      if taken || c.kind.None? then other.kind else c.kind,
      c.providers + other.providers,
      Extend(c.provenance, other.provenance),
      c.tainted || other.tainted,
      c.score + other.score)
  }

  type Grouped = map<string, Candidate>

  predicate Touches(stored: seq<Provenance>, incoming: seq<Provenance>) {
    exists i, j :: 0 <= i < |stored| && 0 <= j < |incoming| && SameLocation(stored[i], incoming[j])
  }

  function Matching(grouped: Grouped, hash: string, provs: seq<Provenance>): set<string> {
    set h | h in grouped && (h == hash || Touches(grouped[h].provenance, provs))
  }

  /** The keys to merge, least first. */
  function MergeKeys(grouped: Grouped, hash: string, provs: seq<Provenance>): (keys: seq<string>)
    ensures keys != [] && WordSorted(keys)
    ensures forall k :: k in keys <==> k in Matching(grouped, hash, provs) + {hash}
  {
    var keys := SortedWords(Matching(grouped, hash, provs) + {hash});
    assert hash in keys;
    keys
  }

  /** The candidate after absorbing, in order, every group these keys still name. */
  function AbsorbAll(c: Candidate, grouped: Grouped, keys: seq<string>): Candidate {
    if keys == [] then c
    else
      var before := AbsorbAll(c, grouped, keys[..|keys| - 1]);
      var last := keys[|keys| - 1];
      if last in grouped then Absorb(before, grouped[last]) else before
  }

  function Lookup(grouped: Grouped, key: string): Candidate {
    if key in grouped then grouped[key] else FRESH
  }

  /** `take_grouped_candidate`'s candidate: every matching group merged into the one of the least key. */
  function Taken(grouped: Grouped, hash: string, provs: seq<Provenance>): Candidate {
    var keys := MergeKeys(grouped, hash, provs);
    AbsorbAll(Lookup(grouped, keys[0]), grouped, keys[1..])
  }

  // ---- hits ------------------------------------------------------------------

  /** `key` is the hash of the normalized content. */
  datatype Hit =
    | Memory(key: string, who: Identity, kind: string, anchor: string, tainted: bool, rank: nat)
    | Corpus(key: string, who: Identity, occurrences: seq<Provenance>, rank: nat)
    | Adapter(key: string, who: Identity, src: string, at: Provenance, rank: nat)

  function Provenances(hit: Hit): seq<Provenance> {
    match hit
    case Memory(_, _, _, anchor, _, _) => [Provenance("memory", anchor, None, None, None)]
    case Corpus(_, _, occurrences, _) => occurrences
    case Adapter(_, _, _, at, _) => [at]
  }

  function Providers(provs: seq<Provenance>): set<string> {
    set p | p in provs :: p.provider
  }

  /** Only a capsule is found by `memory`, and only a capsule has a confidence and a birth. */
  predicate ValidHit(hit: Hit) {
    match hit
    case Memory(_, who, _, _, _, _) => who.confidence.Some? && who.born.Some?
    case Corpus(_, who, occurrences, _) =>
      occurrences != [] && "memory" !in Providers(occurrences) && who.confidence.None? && who.born.None?
    case Adapter(_, who, src, at, _) =>
      src != "memory" && who.confidence.None? && who.born.None?
  }

  function Named(c: Candidate, kind: string): Candidate {
    if c.kind.None? then c.(kind := Some(kind)) else c
  }

  function Insert(grouped: Grouped, hit: Hit): Grouped
    requires ValidHit(hit)
  {
    match hit
    case Memory(key, who, kind, _, tainted, rank) =>
      var c := Lookup(grouped, key).(kind := Some(kind));
      grouped[key := Add(c, who, "memory", Provenances(hit), tainted, rank)]
    case Corpus(key, who, occurrences, rank) =>
      assert occurrences[0].provider in Providers(occurrences);
      var primary := LeastWord(Providers(occurrences));
      var c := Add(Named(Taken(grouped, key, occurrences), primary), who, primary, occurrences, true, rank);
      var rest := grouped - Matching(grouped, key, occurrences);
      rest[MergeKeys(grouped, key, occurrences)[0] := c.(providers := c.providers + Providers(occurrences))]
    case Adapter(key, who, src, at, rank) =>
      var c := Add(Named(Taken(grouped, key, [at]), src), who, src, [at], true, rank);
      (grouped - Matching(grouped, key, [at]))[MergeKeys(grouped, key, [at])[0] := c]
  }

  // ---- what every insertion keeps --------------------------------------------

  /** No place of one set is a place of the other. */
  ghost predicate Strangers(a: set<Provenance>, b: set<Provenance>) {
    forall p, q | p in a && q in b :: !SameLocation(p, q)
  }

  /** No two groups hold one place, though overlap of places is not transitive. */
  ghost predicate Separate(grouped: Grouped) {
    forall g, h | g in grouped && h in grouped && g != h ::
      Strangers(ProvSet(grouped[g].provenance), ProvSet(grouped[h].provenance))
  }

  ghost predicate NoRepeats(grouped: Grouped) {
    forall g | g in grouped :: Distinct(grouped[g].provenance)
  }

  ghost function AllProvs(grouped: Grouped): set<Provenance> {
    set g, p | g in grouped && p in grouped[g].provenance :: p
  }

  /** The groups' scores together. */
  ghost function Total(grouped: Grouped): real {
    if grouped == map[] then 0.0
    else var g :| g in grouped; grouped[g].score + Total(grouped - {g})
  }

  lemma {:induction false} TotalWithout(grouped: Grouped, key: string)
    requires key in grouped
    ensures Total(grouped) == grouped[key].score + Total(grouped - {key})
    decreases |grouped|
  {
    var g :| g in grouped && Total(grouped) == grouped[g].score + Total(grouped - {g});
    if g != key {
      TotalWithout(grouped - {g}, key);
      TotalWithout(grouped - {key}, g);
      assert grouped - {g} - {key} == grouped - {key} - {g};
    }
  }

  ghost function KeySet(keys: seq<string>): set<string> {
    set k | k in keys
  }

  lemma {:induction false} AbsorbAllScores(c: Candidate, grouped: Grouped, keys: seq<string>)
    requires WordSorted(keys)
    ensures AbsorbAll(c, grouped, keys).score == c.score + Total(grouped) - Total(grouped - KeySet(keys))
    decreases |keys|
  {
    if keys == [] {
      assert grouped - KeySet(keys) == grouped;
    } else {
      var init, last := keys[..|keys| - 1], keys[|keys| - 1];
      LastIsNew(keys);
      AbsorbAllScores(c, grouped, init);
      assert grouped - KeySet(keys) == grouped - KeySet(init) - {last};
      if last in grouped {
        TotalWithout(grouped - KeySet(init), last);
      } else {
        assert grouped - KeySet(keys) == grouped - KeySet(init);
      }
    }
  }

  lemma {:induction false} AbsorbAllPlaces(c: Candidate, grouped: Grouped, keys: seq<string>)
    requires WordSorted(keys)
    ensures ProvSet(AbsorbAll(c, grouped, keys).provenance)
         == ProvSet(c.provenance) + AllProvs(Restrict(grouped, KeySet(keys)))
    ensures Distinct(c.provenance) ==> Distinct(AbsorbAll(c, grouped, keys).provenance)
    decreases |keys|
  {
    if keys == [] {
      assert Restrict(grouped, KeySet(keys)) == map[];
      assert AllProvs(map[]) == {};
    } else {
      var init, last := keys[..|keys| - 1], keys[|keys| - 1];
      LastIsNew(keys);
      AbsorbAllPlaces(c, grouped, init);
      RestrictOneMore(grouped, KeySet(init), last);
    }
  }

  lemma LastIsNew(keys: seq<string>)
    requires keys != [] && WordSorted(keys)
    ensures WordSorted(keys[..|keys| - 1]) && keys[|keys| - 1] !in KeySet(keys[..|keys| - 1])
    ensures KeySet(keys) == KeySet(keys[..|keys| - 1]) + {keys[|keys| - 1]}
  {
    var init, last := keys[..|keys| - 1], keys[|keys| - 1];
    forall k | 0 <= k < |init|
      ensures init[k] != last
    {
      LessIrreflexive(last);
      assert Less(keys[k], keys[|keys| - 1]);
    }
    assert forall k | k in keys :: k in init || k == last;
  }

  ghost function Restrict(grouped: Grouped, keys: set<string>): Grouped {
    map g | g in grouped && g in keys :: grouped[g]
  }

  lemma RestrictOneMore(grouped: Grouped, keys: set<string>, last: string)
    requires last !in keys
    ensures grouped - (keys + {last}) == (grouped - keys) - {last}
    ensures AllProvs(Restrict(grouped, keys + {last}))
         == AllProvs(Restrict(grouped, keys)) + if last in grouped then ProvSet(grouped[last].provenance) else {}
  {
    var a, b := Restrict(grouped, keys + {last}), Restrict(grouped, keys);
    forall p
      ensures p in AllProvs(a) <==> p in AllProvs(b) || (last in grouped && p in grouped[last].provenance)
    {
      if g :| g in a && p in a[g].provenance && g != last {
        assert g in b && p in b[g].provenance;
      }
      if g :| g in b && p in b[g].provenance {
        assert g in a && p in a[g].provenance;
      }
      if last in grouped && p in grouped[last].provenance {
        assert last in a && p in a[last].provenance;
      }
    }
  }

  lemma KeysSplit(grouped: Grouped, hash: string, provs: seq<Provenance>)
    ensures var keys := MergeKeys(grouped, hash, provs);
            && WordSorted(keys[1..]) && keys[0] !in KeySet(keys[1..])
            && KeySet(keys[1..]) + {keys[0]} == Matching(grouped, hash, provs) + {hash}
  {
    var keys := MergeKeys(grouped, hash, provs);
    forall k | 0 <= k < |keys[1..]|
      ensures keys[1..][k] != keys[0]
    {
      LessIrreflexive(keys[0]);
      assert Less(keys[0], keys[k + 1]);
    }
    assert forall k | k in keys :: k == keys[0] || k in keys[1..];
  }

  /** Taking the hash's own key out too changes nothing where no group has it. */
  lemma SameTaken(grouped: Grouped, matching: set<string>, hash: string, first: string, others: set<string>)
    requires others + {first} == matching + {hash} && (hash in grouped ==> hash in matching)
    ensures grouped - matching == grouped - others - {first}
    ensures Restrict(grouped, others + {first}) == Restrict(grouped, matching)
  {
    assert forall g | g in grouped :: g in matching <==> g in others || g == first;
  }

  lemma WithoutFirst(grouped: Grouped, others: set<string>, first: string)
    requires first !in others
    ensures Lookup(grouped, first).score + Total(grouped - others - {first}) == Total(grouped - others)
  {
    if first in grouped {
      TotalWithout(grouped - others, first);
    } else {
      assert grouped - others - {first} == grouped - others;
    }
  }

  /** What is taken out scores what the matching groups scored. */
  lemma TakenScores(grouped: Grouped, hash: string, provs: seq<Provenance>)
    ensures Taken(grouped, hash, provs).score == Total(grouped) - Total(grouped - Matching(grouped, hash, provs))
  {
    var keys := MergeKeys(grouped, hash, provs);
    var first, others := keys[0], KeySet(keys[1..]);
    KeysSplit(grouped, hash, provs);
    AbsorbAllScores(Lookup(grouped, first), grouped, keys[1..]);
    SameTaken(grouped, Matching(grouped, hash, provs), hash, first, others);
    WithoutFirst(grouped, others, first);
  }

  /** It holds the places the matching groups held, each once. */
  lemma TakenHolds(grouped: Grouped, hash: string, provs: seq<Provenance>)
    requires NoRepeats(grouped)
    ensures ProvSet(Taken(grouped, hash, provs).provenance)
        == AllProvs(Restrict(grouped, Matching(grouped, hash, provs)))
    ensures Distinct(Taken(grouped, hash, provs).provenance)
  {
    var keys := MergeKeys(grouped, hash, provs);
    var first, others := keys[0], KeySet(keys[1..]);
    KeysSplit(grouped, hash, provs);
    AbsorbAllPlaces(Lookup(grouped, first), grouped, keys[1..]);
    SameTaken(grouped, Matching(grouped, hash, provs), hash, first, others);
    RestrictOneMore(grouped, others, first);
  }

  lemma TouchesIsNotStrangers(stored: seq<Provenance>, incoming: seq<Provenance>)
    ensures Touches(stored, incoming) <==> !Strangers(ProvSet(stored), ProvSet(incoming))
  {
    if p, q :| p in ProvSet(stored) && q in ProvSet(incoming) && SameLocation(p, q) {
      var i :| 0 <= i < |stored| && stored[i] == p;
      var j :| 0 <= j < |incoming| && incoming[j] == q;
      assert SameLocation(stored[i], incoming[j]);
    }
  }

  lemma StrangersAreSymmetric(a: set<Provenance>, b: set<Provenance>)
    ensures Strangers(a, b) <==> Strangers(b, a)
  {
  }

  /** A group left in place shares no place with the merged one, whichever hit merged it. */
  lemma RestIsStrange(grouped: Grouped, hash: string, provs: seq<Provenance>, g: string)
    requires NoRepeats(grouped) && Separate(grouped) && g in grouped && g !in Matching(grouped, hash, provs)
    ensures Strangers(ProvSet(grouped[g].provenance), ProvSet(Taken(grouped, hash, provs).provenance) + ProvSet(provs))
  {
    TakenHolds(grouped, hash, provs);
    TouchesIsNotStrangers(grouped[g].provenance, provs);
    forall p, q | p in ProvSet(grouped[g].provenance)
        && q in AllProvs(Restrict(grouped, Matching(grouped, hash, provs)))
      ensures !SameLocation(p, q)
    {
      var h :| h in Restrict(grouped, Matching(grouped, hash, provs)) && q in grouped[h].provenance;
      assert Strangers(ProvSet(grouped[g].provenance), ProvSet(grouped[h].provenance));
      assert q in ProvSet(grouped[h].provenance);
    }
  }

  ghost predicate Valid(grouped: Grouped) {
    Separate(grouped) && NoRepeats(grouped)
  }

  /** What an insertion by place does: the group it makes, beside those it leaves. */
  lemma PlacedKeeps(grouped: Grouped, hash: string, provs: seq<Provenance>, c: Candidate, rank: nat)
    requires Valid(grouped)
    requires ProvSet(c.provenance) == ProvSet(Taken(grouped, hash, provs).provenance) + ProvSet(provs)
        && Distinct(c.provenance)
    requires c.score == Taken(grouped, hash, provs).score + Weight(rank)
    ensures var now := (grouped - Matching(grouped, hash, provs))[MergeKeys(grouped, hash, provs)[0] := c];
            && Valid(now) && Total(now) == Total(grouped) + Weight(rank)
            && AllProvs(now) == AllProvs(grouped) + ProvSet(provs)
  {
    var rest, key := grouped - Matching(grouped, hash, provs), MergeKeys(grouped, hash, provs)[0];
    var now := rest[key := c];
    assert key in MergeKeys(grouped, hash, provs);
    assert key !in rest;
    forall g | g in rest
      ensures Strangers(ProvSet(rest[g].provenance), ProvSet(c.provenance))
      ensures Strangers(ProvSet(c.provenance), ProvSet(rest[g].provenance))
    {
      RestIsStrange(grouped, hash, provs, g);
      StrangersAreSymmetric(ProvSet(rest[g].provenance), ProvSet(c.provenance));
    }
    TakenScores(grouped, hash, provs);
    TotalWithout(now, key);
    assert now - {key} == rest;
    TakenHolds(grouped, hash, provs);
    PlacesTogether(grouped, Matching(grouped, hash, provs), key, c);
  }

  lemma PlacesTogether(grouped: Grouped, taken: set<string>, key: string, c: Candidate)
    requires key !in grouped - taken
    ensures AllProvs((grouped - taken)[key := c]) + AllProvs(Restrict(grouped, taken)) 
        == AllProvs(grouped) + ProvSet(c.provenance)
  {
    var now, gone := (grouped - taken)[key := c], Restrict(grouped, taken);
    forall p
      ensures p in AllProvs(now) || p in AllProvs(gone) <==> p in AllProvs(grouped) || p in ProvSet(c.provenance)
    {
      if g :| g in grouped && p in grouped[g].provenance {
        if g in taken {
          assert g in gone && p in gone[g].provenance;
        } else {
          assert g in now && p in now[g].provenance;
        }
      }
      if p in ProvSet(c.provenance) {
        assert key in now && p in now[key].provenance;
      }
    }
  }

  /** A capsule's own anchor is no place: it belongs to no group but by its text. */
  lemma AnchorsAreStrange(anchor: string, q: Provenance)
    ensures !SameLocation(Provenance("memory", anchor, None, None, None), q)
    ensures !SameLocation(q, Provenance("memory", anchor, None, None, None))
  {
  }

  lemma MemoryStaysSeparate(grouped: Grouped, key: string, c: Candidate, anchor: Provenance)
    requires Separate(grouped) && anchor == Provenance("memory", anchor.address, None, None, None)
    requires ProvSet(c.provenance) == ProvSet(Lookup(grouped, key).provenance) + {anchor}
    ensures Separate(grouped[key := c])
  {
    var now := grouped[key := c];
    forall g | g in grouped && g != key
      ensures Strangers(ProvSet(now[g].provenance), ProvSet(c.provenance))
      ensures Strangers(ProvSet(c.provenance), ProvSet(now[g].provenance))
    {
      assert key in grouped ==> Strangers(ProvSet(grouped[g].provenance), ProvSet(grouped[key].provenance));
      forall p | p in ProvSet(grouped[g].provenance)
        ensures !SameLocation(p, anchor)
      {
        AnchorsAreStrange(anchor.address, p);
      }
      StrangersAreSymmetric(ProvSet(now[g].provenance), ProvSet(c.provenance));
    }
  }

  lemma ReplacedTotals(grouped: Grouped, key: string, c: Candidate)
    ensures Total(grouped[key := c]) == Total(grouped) - Lookup(grouped, key).score + c.score
  {
    var now := grouped[key := c];
    TotalWithout(now, key);
    assert now - {key} == grouped - {key};
    if key in grouped {
      TotalWithout(grouped, key);
    } else {
      assert grouped - {key} == grouped;
    }
  }

  lemma ReplacedPlaces(grouped: Grouped, key: string, c: Candidate)
    requires ProvSet(Lookup(grouped, key).provenance) <= ProvSet(c.provenance)
    ensures AllProvs(grouped[key := c]) == AllProvs(grouped) + ProvSet(c.provenance)
  {
    var now := grouped[key := c];
    forall p
      ensures p in AllProvs(now) <==> p in AllProvs(grouped) || p in ProvSet(c.provenance)
    {
      if g :| g in grouped && p in grouped[g].provenance {
        assert p in ProvSet(grouped[g].provenance);
        assert g in now && p in now[g].provenance;
      }
      if p in ProvSet(c.provenance) {
        assert key in now && p in now[key].provenance;
      }
    }
  }

  lemma MemoryKeeps(grouped: Grouped, hit: Hit)
    requires Valid(grouped) && ValidHit(hit) && hit.Memory?
    ensures var now := Insert(grouped, hit);
            && Valid(now) && Total(now) == Total(grouped) + Weight(hit.rank)
            && AllProvs(now) == AllProvs(grouped) + ProvSet(Provenances(hit))
  {
    var anchor := Provenance("memory", hit.anchor, None, None, None);
    var c := Add(Lookup(grouped, hit.key).(kind := Some(hit.kind)), hit.who, "memory", [anchor], hit.tainted, hit.rank);
    assert ProvSet([anchor]) == {anchor};
    MemoryStaysSeparate(grouped, hit.key, c, anchor);
    ReplacedTotals(grouped, hit.key, c);
    ReplacedPlaces(grouped, hit.key, c);
    assert forall p | p in ProvSet(Lookup(grouped, hit.key).provenance) :: p in AllProvs(grouped);
  }

  /** Every hit keeps the groups apart, adds its own weight to their scores, and its places to their places. */
  lemma InsertKeeps(grouped: Grouped, hit: Hit)
    requires Valid(grouped) && ValidHit(hit)
    ensures var now := Insert(grouped, hit);
            && Valid(now) && Total(now) == Total(grouped) + Weight(hit.rank)
            && AllProvs(now) == AllProvs(grouped) + ProvSet(Provenances(hit))
  {
    match hit
    case Memory(_, _, _, _, _, _) =>
      MemoryKeeps(grouped, hit);
    case Corpus(key, who, occurrences, rank) =>
      assert occurrences[0].provider in Providers(occurrences);
      var primary := LeastWord(Providers(occurrences));
      var c := Add(Named(Taken(grouped, key, occurrences), primary), who, primary, occurrences, true, rank);
      TakenHolds(grouped, key, occurrences);
      PlacedKeeps(grouped, key, occurrences, c.(providers := c.providers + Providers(occurrences)), rank);
    case Adapter(key, who, src, at, rank) =>
      TakenHolds(grouped, key, [at]);
      PlacedKeeps(grouped, key, [at], Add(Named(Taken(grouped, key, [at]), src), who, src, [at], true, rank), rank);
  }

  // ---- every run -------------------------------------------------------------

  predicate AllValid(hits: seq<Hit>) {
    forall k | 0 <= k < |hits| :: ValidHit(hits[k])
  }

  function InsertAll(hits: seq<Hit>): Grouped
    requires AllValid(hits)
  {
    if hits == [] then map[] else Insert(InsertAll(hits[..|hits| - 1]), hits[|hits| - 1])
  }

  function Weights(hits: seq<Hit>): real {
    if hits == [] then 0.0 else Weights(hits[..|hits| - 1]) + Weight(hits[|hits| - 1].rank)
  }

  function PlacesOf(hits: seq<Hit>): set<Provenance> {
    if hits == [] then {} else PlacesOf(hits[..|hits| - 1]) + ProvSet(Provenances(hits[|hits| - 1]))
  }

  /** Over every sequence of hits the groups stay apart, and conserve scores and places. */
  lemma {:induction false} EveryRunConserves(hits: seq<Hit>)
    requires AllValid(hits)
    ensures var grouped := InsertAll(hits);
            && Separate(grouped) && NoRepeats(grouped)
            && Total(grouped) == Weights(hits)
            && AllProvs(grouped) == PlacesOf(hits)
  {
    if hits == [] {
      assert AllProvs(map[]) == {};
    } else {
      EveryRunConserves(hits[..|hits| - 1]);
      InsertKeeps(InsertAll(hits[..|hits| - 1]), hits[|hits| - 1]);
    }
  }

  // ---- whose text a group serves ---------------------------------------------

  /** A group serves one hit, whole: a capsule if it holds any. */
  ghost predicate Serves(c: Candidate, hits: set<Hit>) {
    if c.who.None? then c.providers == {}
    else exists h :: h in hits && ValidHit(h) && h.who == c.who.value && (h.Memory? <==> "memory" in c.providers)
  }

  lemma AbsorbServes(c: Candidate, other: Candidate, hits: set<Hit>)
    requires Serves(c, hits) && Serves(other, hits)
    ensures Serves(Absorb(c, other), hits)
  {
    if c.who.Some? {
      var h :| h in hits && ValidHit(h) && h.who == c.who.value && (h.Memory? <==> "memory" in c.providers);
    }
    if other.who.Some? {
      var h :| h in hits && ValidHit(h) && h.who == other.who.value && (h.Memory? <==> "memory" in other.providers);
    }
  }

  lemma {:induction false} AbsorbAllServes(c: Candidate, grouped: Grouped, keys: seq<string>, hits: set<Hit>)
    requires Serves(c, hits) && forall g | g in grouped :: Serves(grouped[g], hits)
    ensures Serves(AbsorbAll(c, grouped, keys), hits)
    decreases |keys|
  {
    if keys != [] {
      AbsorbAllServes(c, grouped, keys[..|keys| - 1], hits);
      var last := keys[|keys| - 1];
      if last in grouped {
        AbsorbServes(AbsorbAll(c, grouped, keys[..|keys| - 1]), grouped[last], hits);
      }
    }
  }

  lemma AddServes(c: Candidate, hit: Hit, provider: string, provs: seq<Provenance>, tainted: bool, rank: nat,
                  hits: set<Hit>)
    requires Serves(c, hits) && hit in hits && ValidHit(hit) && (hit.Memory? <==> provider == "memory")
    ensures Serves(Add(c, hit.who, provider, provs, tainted, rank), hits)
  {
    if c.who.Some? {
      var h :| h in hits && ValidHit(h) && h.who == c.who.value && (h.Memory? <==> "memory" in c.providers);
    }
  }

  lemma InsertServes(grouped: Grouped, hit: Hit, hits: set<Hit>)
    requires ValidHit(hit) && hit in hits && forall g | g in grouped :: Serves(grouped[g], hits)
    ensures forall g | g in Insert(grouped, hit) :: Serves(Insert(grouped, hit)[g], hits)
  {
    match hit
    case Memory(key, who, kind, _, tainted, rank) =>
      AddServes(Lookup(grouped, key).(kind := Some(kind)), hit, "memory", Provenances(hit), tainted, rank, hits);
    case Corpus(key, who, occurrences, rank) =>
      assert occurrences[0].provider in Providers(occurrences);
      var primary := LeastWord(Providers(occurrences));
      var keys := MergeKeys(grouped, key, occurrences);
      AbsorbAllServes(Lookup(grouped, keys[0]), grouped, keys[1..], hits);
      AddServes(Named(Taken(grouped, key, occurrences), primary), hit, primary, occurrences, true, rank, hits);
    case Adapter(key, who, src, at, rank) =>
      var keys := MergeKeys(grouped, key, [at]);
      AbsorbAllServes(Lookup(grouped, keys[0]), grouped, keys[1..], hits);
      AddServes(Named(Taken(grouped, key, [at]), src), hit, src, [at], true, rank, hits);
  }

  /**
   * Over every run a group's id, text, confidence and birth are one hit's, a capsule's where it holds one: merging
   * never gives the id of one capsule the clock of another.
   */
  lemma {:induction false} EveryRunServesOneHit(hits: seq<Hit>, all: set<Hit>)
    requires AllValid(hits) && forall k | 0 <= k < |hits| :: hits[k] in all
    ensures forall g | g in InsertAll(hits) :: Serves(InsertAll(hits)[g], all)
    decreases |hits|
  {
    if hits != [] {
      EveryRunServesOneHit(hits[..|hits| - 1], all);
      InsertServes(InsertAll(hits[..|hits| - 1]), hits[|hits| - 1], all);
    }
  }

  // ---- the dict the context query fills --------------------------------------

  class GroupedCandidates {
    var grouped: Grouped

    constructor ()
      ensures grouped == map[]
    {
      grouped := map[];
    }

    /** The groups a hit belongs to: its text's, and those with a place in common. */
    method MatchingKeys(hash: string, provs: seq<Provenance>) returns (matching: set<string>)
      ensures matching == Matching(grouped, hash, provs)
    {
      matching := {};
      var pending := grouped.Keys;
      while pending != {}
        invariant pending <= grouped.Keys && matching == Matching(grouped, hash, provs) - pending
        decreases |pending|
      {
        var h :| h in pending;
        pending := pending - {h};
        if h == hash || Touches(grouped[h].provenance, provs) {
          matching := matching + {h};
        }
      }
    }

    /** The first key's group, and the others popped and absorbed into it one by one. */
    method PopAll(key: string, others: seq<string>) returns (candidate: Candidate)
      requires WordSorted(others) && key !in KeySet(others)
      modifies this
      ensures candidate == AbsorbAll(Lookup(old(grouped), key), old(grouped), others)
      ensures grouped == old(grouped) - ({key} + KeySet(others))
    {
      ghost var was := grouped;
      candidate := Lookup(grouped, key);
      grouped := grouped - {key};
      for k := 0 to |others|
        invariant candidate == AbsorbAll(Lookup(was, key), was, others[..k])
        invariant grouped == was - ({key} + KeySet(others[..k]))
      {
        PopOneMore(was, key, others, k);
        if others[k] in grouped {
          candidate := Absorb(candidate, grouped[others[k]]);
          grouped := grouped - {others[k]};
        }
      }
      assert others[..|others|] == others;
    }

    /** `take_grouped_candidate`. */
    method TakeGroupedCandidate(hash: string, provs: seq<Provenance>) returns (key: string, candidate: Candidate)
      modifies this
      ensures key == MergeKeys(old(grouped), hash, provs)[0]
      ensures candidate == Taken(old(grouped), hash, provs)
      ensures grouped == old(grouped) - Matching(old(grouped), hash, provs)
    {
      var matching := MatchingKeys(hash, provs);
      var keys := SortedWords(matching + {hash});
      assert hash in keys;
      KeysSplit(grouped, hash, provs);
      key := keys[0];
      candidate := PopAll(key, keys[1..]);
    }

    /** One hit of any lane. */
    method AddHit(hit: Hit)
      requires ValidHit(hit)
      modifies this
      ensures grouped == Insert(old(grouped), hit)
    {
      match hit
      case Memory(key, who, kind, _, tainted, rank) =>
        var cand := Lookup(grouped, key).(kind := Some(kind));
        grouped := grouped[key := Add(cand, who, "memory", Provenances(hit), tainted, rank)];
      case Corpus(key, who, occurrences, rank) =>
        assert occurrences[0].provider in Providers(occurrences);
        var primary := LeastWord(Providers(occurrences));
        var k, cand := TakeGroupedCandidate(key, occurrences);
        cand := Add(Named(cand, primary), who, primary, occurrences, true, rank);
        grouped := grouped[k := cand.(providers := cand.providers + Providers(occurrences))];
      case Adapter(key, who, src, at, rank) =>
        var k, cand := TakeGroupedCandidate(key, [at]);
        grouped := grouped[k := Add(Named(cand, src), who, src, [at], true, rank)];
    }
  }

  lemma PopOneMore(grouped: Grouped, key: string, keys: seq<string>, k: nat)
    requires WordSorted(keys) && key !in KeySet(keys) && k < |keys|
    ensures keys[k] in grouped <==> keys[k] in grouped - ({key} + KeySet(keys[..k]))
    ensures grouped - ({key} + KeySet(keys[..k])) - {keys[k]} == grouped - ({key} + KeySet(keys[..k + 1]))
    ensures keys[k] !in grouped ==> grouped - ({key} + KeySet(keys[..k])) == grouped - ({key} + KeySet(keys[..k + 1]))
    ensures AbsorbAll(Lookup(grouped, key), grouped, keys[..k + 1])
         == var before := AbsorbAll(Lookup(grouped, key), grouped, keys[..k]);
            if keys[k] in grouped then Absorb(before, grouped[keys[k]]) else before
  {
    assert keys[..k + 1][..k] == keys[..k];
    assert WordSorted(keys[..k + 1]);
    LastIsNew(keys[..k + 1]);
    assert keys[k] in KeySet(keys);
  }
}
