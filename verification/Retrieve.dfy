/** What becomes of every candidate of a retrieval: excluded under one name, trimmed, or served. */
module Retrieve {
  import opened Tables
  import opened Words

  /** A loaded candidate that passed its fences: its seq, its length in characters, its relevance. */
  datatype Ranked = Ranked(id: string, seqno: int, chars: nat, score: real)

  // ---- trim_to_budget --------------------------------------------------------

  /** A token for every four characters begun, and at least one. */
  function Cost(item: Ranked): (cost: nat)
    ensures cost == 1 || 4 * (cost - 1) < item.chars
    ensures 1 <= cost && item.chars <= 4 * cost
  {
    if (item.chars + 3) / 4 < 1 then 1 else (item.chars + 3) / 4
  }

  function Used(items: seq<Ranked>): nat {
    if items == [] then 0 else Used(items[..|items| - 1]) + Cost(items[|items| - 1])
  }

  /** The items packed, the items past the limit and the items over the budget, in order. */
  datatype Packing = Packing(top: seq<Ranked>, late: seq<Ranked>, large: seq<Ranked>)

  function PackOne(p: Packing, item: Ranked, limit: int, budget: int): Packing {
    if |p.top| >= limit then p.(late := p.late + [item])
    else if Used(p.top) + Cost(item) > budget then p.(large := p.large + [item])
    else p.(top := p.top + [item])
  }

  function PackAll(items: seq<Ranked>, limit: int, budget: int): Packing {
    if items == [] then Packing([], [], [])
    else PackOne(PackAll(items[..|items| - 1], limit, budget), items[|items| - 1], limit, budget)
  }

  /** The packed items, or the first alone where nothing fits a positive budget. */
  function Served(items: seq<Ranked>, limit: int, budget: int): seq<Ranked> {
    var top := PackAll(items, limit, budget).top;
    if top == [] && items != [] && budget > 0 then [items[0]] else top
  }

  method TrimToBudget(eligible: seq<Ranked>, limit: int, budget: int)
    returns (top: seq<Ranked>, byLimit: int, byBudget: int)
    ensures top == Served(eligible, limit, budget)
    ensures byLimit == |PackAll(eligible, limit, budget).late|
    ensures |top| + byLimit + byBudget == |eligible|
  {
    top, byLimit, byBudget := [], 0, 0;
    var used := 0;
    for k := 0 to |eligible|
      invariant var p := PackAll(eligible[..k], limit, budget);
                top == p.top && byLimit == |p.late| && byBudget == |p.large| && used == Used(top)
      invariant |top| + byLimit + byBudget == k
    {
      var item := eligible[k];
      assert eligible[..k + 1][..k] == eligible[..k];
      if |top| >= limit {
        byLimit := byLimit + 1;
        continue;
      }
      if used + Cost(item) > budget {
        byBudget := byBudget + 1;
        continue;
      }
      used := used + Cost(item);
      assert (top + [item])[..|top|] == top;
      top := top + [item];
    }
    assert eligible[..|eligible|] == eligible;
    if top == [] && eligible != [] && budget > 0 {
      top := [eligible[0]];
      byBudget := byBudget - 1;
    }
  }

  /** `a` is `b` with some items left out. */
  ghost predicate Subsequence(a: seq<Ranked>, b: seq<Ranked>) {
    exists picks: seq<nat> :: Picks(picks, a, b)
  }

  ghost predicate Picks(picks: seq<nat>, a: seq<Ranked>, b: seq<Ranked>) {
    && |picks| == |a|
    && (forall i | 0 <= i < |a| :: picks[i] < |b| && a[i] == b[picks[i]])
    && (forall i, j | 0 <= i < j < |a| :: picks[i] < picks[j])
  }

  lemma SubsequenceGrows(a: seq<Ranked>, b: seq<Ranked>, last: Ranked)
    requires Subsequence(a, b)
    ensures Subsequence(a, b + [last]) && Subsequence(a + [last], b + [last])
  {
    var picks: seq<nat> :| Picks(picks, a, b);
    assert Picks(picks, a, b + [last]);
    assert Picks(picks + [|b|], a + [last], b + [last]);
  }

  lemma {:induction false} PackedIsSubsequence(items: seq<Ranked>, limit: int, budget: int)
    ensures Subsequence(PackAll(items, limit, budget).top, items)
  {
    if items == [] {
      assert Picks([], [], []);
    } else {
      var init, last := items[..|items| - 1], items[|items| - 1];
      PackedIsSubsequence(init, limit, budget);
      SubsequenceGrows(PackAll(init, limit, budget).top, init, last);
      assert items == init + [last];
    }
  }

  lemma {:induction false} PackedWithin(items: seq<Ranked>, limit: int, budget: int)
    ensures var top := PackAll(items, limit, budget).top; top != [] ==> Used(top) <= budget && |top| <= limit
  {
    if items != [] {
      var init, last := items[..|items| - 1], items[|items| - 1];
      PackedWithin(init, limit, budget);
      var top := PackAll(init, limit, budget).top;
      assert (top + [last])[..|top|] == top;
    }
  }

  /** Every item is packed, past the limit, or over the budget, once. */
  ghost predicate Parted(items: seq<Ranked>, p: Packing) {
    multiset(items) == multiset(p.top) + multiset(p.late) + multiset(p.large)
  }

  lemma PartOneMore(items: seq<Ranked>, p: Packing, item: Ranked, limit: int, budget: int)
    requires Parted(items, p)
    ensures Parted(items + [item], PackOne(p, item, limit, budget))
  {
  }

  lemma {:induction false} PackedParts(items: seq<Ranked>, limit: int, budget: int)
    ensures Parted(items, PackAll(items, limit, budget))
  {
    if items != [] {
      var init, last := items[..|items| - 1], items[|items| - 1];
      PackedParts(init, limit, budget);
      PartOneMore(init, PackAll(init, limit, budget), last, limit, budget);
      assert items == init + [last];
    }
  }

  /** Nothing is packed only where no item fits, or the limit lets none in. */
  lemma {:induction false} EmptyMeansNoneFits(items: seq<Ranked>, limit: int, budget: int)
    requires PackAll(items, limit, budget).top == []
    ensures limit <= 0 || forall k | 0 <= k < |items| :: Cost(items[k]) > budget
  {
    if items != [] {
      var init := items[..|items| - 1];
      assert PackAll(init, limit, budget).top == [];
      EmptyMeansNoneFits(init, limit, budget);
      assert forall k | 0 <= k < |init| :: items[k] == init[k];
    }
  }

  /** Where nothing is packed, the items are all in one other place. */
  lemma {:induction false} EmptyIsOnePlace(items: seq<Ranked>, limit: int, budget: int)
    requires PackAll(items, limit, budget).top == []
    ensures PackAll(items, limit, budget) == if limit > 0 then Packing([], [], items) else Packing([], items, [])
  {
    if items != [] {
      var init, last := items[..|items| - 1], items[|items| - 1];
      assert PackAll(init, limit, budget).top == [];
      EmptyIsOnePlace(init, limit, budget);
      assert items == init + [last];
    }
  }

  /**
   * The answer is a subsequence of the ranking within the limit, and within the budget unless nothing fits and
   * the first item is served alone; a positive budget never grounds an empty answer, and a zero one serves nothing.
   */
  lemma ServedFits(items: seq<Ranked>, limit: int, budget: int)
    requires limit >= 1
    ensures var top := Served(items, limit, budget);
            && Subsequence(top, items) && |top| <= limit
            && (Used(top) <= budget || top == []
                || (top == [items[0]] && forall k | 0 <= k < |items| :: Cost(items[k]) > budget))
            && (items != [] && budget > 0 ==> top != [])
            && (budget <= 0 ==> top == [])
  {
    PackedWithin(items, limit, budget);
    PackedIsSubsequence(items, limit, budget);
    var packed := PackAll(items, limit, budget).top;
    if packed == [] {
      EmptyMeansNoneFits(items, limit, budget);
      if items != [] {
        assert Picks([0], [items[0]], items);
      }
    } else {
      assert Used(packed) == Used(packed[..|packed| - 1]) + Cost(packed[|packed| - 1]);
    }
  }

  /** The count trimmed by the budget goes below zero exactly where a limit lets nothing in and the first is served
      anyway. */
  lemma TrimmedIsNegativeIff(items: seq<Ranked>, limit: int, budget: int)
    ensures |items| - |PackAll(items, limit, budget).late| - |Served(items, limit, budget)| < 0
       <==> limit <= 0 && items != [] && budget > 0
  {
    PackedParts(items, limit, budget);
    var p := PackAll(items, limit, budget);
    assert |items| == |p.top| + |p.late| + |p.large| by {
      assert |multiset(items)| == |items|;
      assert |multiset(p.top) + multiset(p.late) + multiset(p.large)| == |p.top| + |p.late| + |p.large|;
    }
    if p.top == [] {
      EmptyIsOnePlace(items, limit, budget);
    }
    if limit <= 0 {
      LimitLetsNothingIn(items, limit, budget);
    }
  }

  lemma {:induction false} LimitLetsNothingIn(items: seq<Ranked>, limit: int, budget: int)
    requires limit <= 0
    ensures PackAll(items, limit, budget).top == [] && PackAll(items, limit, budget).large == []
  {
    if items != [] {
      LimitLetsNothingIn(items[..|items| - 1], limit, budget);
    }
  }

  // ---- the two cuts over eligible candidates ---------------------------------

  /** A cosine as a float holds it: `Unordered` is NaN or minus infinity, which no bar admits. */
  datatype Cosine = Finite(value: real) | PlusInfinity | Unordered

  /** What the lanes say of the pool. */
  datatype Lanes = Lanes(
    termScores: map<string, real>,
    stopOnly: set<string>,
    termFloor: real,
    activeTerms: set<string>,
    sims: map<string, Cosine>,
    vectorRanks: map<string, nat>)

  predicate Measured(lanes: Lanes, item: Ranked) {
    item.id in lanes.sims && lanes.sims[item.id].Finite?
  }

  /** Its own term lane keeps it: a content word matched, or the score cleared a positive floor. */
  predicate TermKeeps(lanes: Lanes, item: Ranked) {
    && item.id in lanes.termScores
    && (item.id !in lanes.stopOnly || (lanes.termFloor > 0.0 && lanes.termScores[item.id] >= lanes.termFloor))
  }

  predicate AboveMargin(lanes: Lanes, floor: real, item: Ranked) {
    || TermKeeps(lanes, item)
    || (Measured(lanes, item) && lanes.sims[item.id].value >= floor)
    || (item.id in lanes.sims && lanes.sims[item.id].PlusInfinity?)
  }

  ghost predicate IsBest(lanes: Lanes, eligible: seq<Ranked>, best: real) {
    && (exists item :: item in eligible && Measured(lanes, item) && lanes.sims[item.id].value == best)
    && (forall item | item in eligible && Measured(lanes, item) :: lanes.sims[item.id].value <= best)
  }

  function Filter(items: seq<Ranked>, keep: Ranked -> bool): seq<Ranked> {
    if items == [] then []
    else Filter(items[..|items| - 1], keep) + if keep(items[|items| - 1]) then [items[|items| - 1]] else []
  }

  lemma {:induction false} FilterHolds(items: seq<Ranked>, keep: Ranked -> bool)
    ensures forall item :: item in Filter(items, keep) <==> item in items && keep(item)
    ensures |Filter(items, keep)| <= |items|
  {
    if items != [] {
      FilterHolds(items[..|items| - 1], keep);
      assert items == items[..|items| - 1] + [items[|items| - 1]];
    }
  }

  /** Without a margin or a measure all stay; else those within the margin of the best, or that their own term lane
      keeps. */
  ghost predicate MarginKept(lanes: Lanes, eligible: seq<Ranked>, margin: Option<real>, floor: real, kept: seq<Ranked>)
  {
    if margin.None? || !(exists item :: item in eligible && Measured(lanes, item)) then kept == eligible
    else
      && IsBest(lanes, eligible, floor + margin.value)
      && kept == Filter(eligible, item => AboveMargin(lanes, floor, item))
  }

  /** `cut_vector_margin`: the best similarity is that of a candidate still in the running. */
  method CutVectorMargin(eligible: seq<Ranked>, lanes: Lanes, margin: Option<real>)
    returns (kept: seq<Ranked>, cut: nat, ghost floor: real)
    ensures |kept| + cut == |eligible| && MarginKept(lanes, eligible, margin, floor, kept)
  {
    var best: Option<real> := None;
    for k := 0 to |eligible|
      invariant best.None? ==> forall item | item in eligible[..k] :: !Measured(lanes, item)
      invariant best.Some? ==> IsBest(lanes, eligible[..k], best.value)
    {
      var item := eligible[k];
      TakeOneMore(eligible, k);
      if Measured(lanes, item) {
        var sim := lanes.sims[item.id].value;
        if best.None? || best.value < sim {
          best := Some(sim);
          assert item in eligible[..k + 1];
        } else {
          var top :| top in eligible[..k] && Measured(lanes, top) && lanes.sims[top.id].value == best.value;
          assert top in eligible[..k + 1];
        }
      } else if best.Some? {
        var top :| top in eligible[..k] && Measured(lanes, top) && lanes.sims[top.id].value == best.value;
        assert top in eligible[..k + 1];
      }
    }
    assert eligible[..|eligible|] == eligible;
    floor := 0.0;
    if margin.None? || best.None? {
      return eligible, 0, floor;
    }
    var bar := best.value - margin.value;
    floor := bar;
    kept := Filter(eligible, item => AboveMargin(lanes, bar, item));
    FilterHolds(eligible, item => AboveMargin(lanes, bar, item));
    cut := |eligible| - |kept|;
  }

  // ---- sorting ---------------------------------------------------------------

  type Earlier = (Ranked, Ranked) -> bool

  /** A strict order in which incomparable items count as equal. */
  ghost predicate Orders(earlier: Earlier) {
    && (forall a, b :: earlier(a, b) ==> !earlier(b, a))
    && (forall a, b, c :: !earlier(b, a) && !earlier(c, b) ==> !earlier(c, a))
  }

  function Place(item: Ranked, items: seq<Ranked>, earlier: Earlier): (k: nat)
    ensures k <= |items| && (k < |items| ==> earlier(item, items[k]))
    ensures forall i | 0 <= i < k :: !earlier(item, items[i])
  {
    if items == [] || earlier(item, items[0]) then 0 else 1 + Place(item, items[1..], earlier)
  }

  /** A stable sort. */
  function Sorted(items: seq<Ranked>, earlier: Earlier): (r: seq<Ranked>)
    ensures |r| == |items|
  {
    if items == [] then []
    else
      var rest, last := Sorted(items[..|items| - 1], earlier), items[|items| - 1];
      var k := Place(last, rest, earlier);
      rest[..k] + [last] + rest[k..]
  }

  ghost predicate InOrder(items: seq<Ranked>, earlier: Earlier) {
    forall i, j | 0 <= i < j < |items| :: !earlier(items[j], items[i])
  }

  lemma PlacedInOrder(rest: seq<Ranked>, last: Ranked, k: nat, earlier: Earlier)
    requires Orders(earlier) && InOrder(rest, earlier) && k == Place(last, rest, earlier)
    ensures InOrder(rest[..k] + [last] + rest[k..], earlier)
  {
    var all := rest[..k] + [last] + rest[k..];
    forall j | k <= j < |rest|
      ensures !earlier(rest[j], last)
    {
      assert earlier(last, rest[k]) && !earlier(rest[k], last);
    }
    forall i, j | 0 <= i < j < |all|
      ensures !earlier(all[j], all[i])
    {
      assert all[i] == if i < k then rest[i] else if i == k then last else rest[i - 1];
      assert all[j] == if j < k then rest[j] else if j == k then last else rest[j - 1];
    }
  }

  lemma {:induction false} SortedSorts(items: seq<Ranked>, earlier: Earlier)
    requires Orders(earlier)
    ensures InOrder(Sorted(items, earlier), earlier)
  {
    if items != [] {
      var init, last := items[..|items| - 1], items[|items| - 1];
      SortedSorts(init, earlier);
      PlacedInOrder(Sorted(init, earlier), last, Place(last, Sorted(init, earlier), earlier), earlier);
    }
  }

  /** Relevance descending, then seq ascending. */
  predicate MoreRelevant(a: Ranked, b: Ranked) {
    a.score > b.score || (a.score == b.score && a.seqno < b.seqno)
  }

  lemma RelevanceOrders()
    ensures Orders(MoreRelevant)
  {
  }

  // ---- the vector cap --------------------------------------------------------

  ghost predicate DistinctIds(items: seq<Ranked>) {
    forall i, j | 0 <= i < j < |items| :: items[i].id != items[j].id
  }

  /** The lane ranks its candidates 1, 2, 3, so no two alike. */
  ghost predicate RanksApart(ranks: map<string, nat>) {
    forall a, b | a in ranks && b in ranks && a != b :: ranks[a] != ranks[b]
  }

  function RankedIds(items: seq<Ranked>, ranks: map<string, nat>): (ids: set<string>)
    ensures ids <= ranks.Keys
  {
    set item | item in items && item.id in ranks :: item.id
  }

  /** The `limit` nearest of these ids. */
  ghost predicate Nearest(keep: set<string>, ids: set<string>, ranks: map<string, nat>, limit: nat)
    requires ids <= ranks.Keys
  {
    && keep <= ids
    && |keep| == (if |ids| < limit then |ids| else limit)
    && forall a, b | a in keep && b in ids - keep :: ranks[a] < ranks[b]
  }

  predicate IsLeast(id: string, ids: set<string>, ranks: map<string, nat>)
    requires ids <= ranks.Keys
  {
    id in ids && forall other | other in ids && other != id :: ranks[id] < ranks[other]
  }

  function Least(ids: set<string>, ranks: map<string, nat>): (id: string)
    requires ids != {} && ids <= ranks.Keys && RanksApart(ranks)
    ensures id in ids && forall other | other in ids && other != id :: ranks[id] < ranks[other]
  {
    LeastExists(ids, ranks);
    var id :| IsLeast(id, ids, ranks);
    id
  }

  lemma LeastOfMore(x: string, m: string, ids: set<string>, ranks: map<string, nat>)
    requires ids <= ranks.Keys && RanksApart(ranks) && x in ids && IsLeast(m, ids - {x}, ranks)
    ensures IsLeast(if ranks[x] < ranks[m] then x else m, ids, ranks)
  {
    forall other | other in ids && other != x
      ensures ranks[m] <= ranks[other]
    {
      assert other in ids - {x};
    }
  }

  lemma {:induction false} LeastExists(ids: set<string>, ranks: map<string, nat>)
    requires ids != {} && ids <= ranks.Keys && RanksApart(ranks)
    ensures exists id :: IsLeast(id, ids, ranks)
    decreases |ids|
  {
    var x :| x in ids;
    if ids == {x} {
      assert IsLeast(x, ids, ranks);
    } else {
      LeastExists(ids - {x}, ranks);
      var m :| IsLeast(m, ids - {x}, ranks);
      LeastOfMore(x, m, ids, ranks);
    }
  }

  /** `sorted(ids, key=rank)[:limit]`, taken one by one. */
  method TakeNearest(ids: set<string>, ranks: map<string, nat>, limit: nat) returns (keep: set<string>)
    requires ids <= ranks.Keys && RanksApart(ranks)
    ensures Nearest(keep, ids, ranks, limit)
  {
    keep := {};
    var left := ids;
    while left != {} && |keep| < limit
      invariant keep <= ids && left == ids - keep && |keep| <= limit && |keep| + |left| == |ids|
      invariant forall a, b | a in keep && b in left :: ranks[a] < ranks[b]
      decreases |left|
    {
      var id := Least(left, ranks);
      keep, left := keep + {id}, left - {id};
    }
  }

  predicate UnderCap(lanes: Lanes, keep: set<string>, item: Ranked) {
    item.id in lanes.activeTerms || item.id in keep
  }

  ghost predicate CapKept(lanes: Lanes, eligible: seq<Ranked>, limit: nat, near: set<string>, kept: seq<Ranked>) {
    && Nearest(near, RankedIds(eligible, lanes.vectorRanks), lanes.vectorRanks, limit)
    && kept == Filter(eligible, item => UnderCap(lanes, near, item))
  }

  /** `cap_vector_lane`: the cap limits only what the vector lane alone brings. */
  method CapVectorLane(eligible: seq<Ranked>, lanes: Lanes, limit: nat)
    returns (kept: seq<Ranked>, capped: nat, ghost keep: set<string>)
    requires RanksApart(lanes.vectorRanks)
    ensures |kept| + capped == |eligible| && CapKept(lanes, eligible, limit, keep, kept)
  {
    var near := TakeNearest(RankedIds(eligible, lanes.vectorRanks), lanes.vectorRanks, limit);
    keep := near;
    kept := Filter(eligible, item => UnderCap(lanes, near, item));
    FilterHolds(eligible, item => UnderCap(lanes, near, item));
    capped := |eligible| - |kept|;
  }

  // ---- the account of every candidate ----------------------------------------

  datatype Drop = Drop(id: string, reason: string)

  function Tally(drops: seq<Drop>, reason: string): nat {
    if drops == [] then 0
    else Tally(drops[..|drops| - 1], reason) + if drops[|drops| - 1].reason == reason then 1 else 0
  }

  lemma {:induction false} TallyAppend(drops: seq<Drop>, more: seq<Drop>, reason: string)
    ensures Tally(drops + more, reason) == Tally(drops, reason) + Tally(more, reason)
  {
    if more == [] {
      assert drops + more == drops;
    } else {
      assert (drops + more)[..|drops + more| - 1] == drops + more[..|more| - 1];
      TallyAppend(drops, more[..|more| - 1], reason);
    }
  }

  function CountOf(exclusions: map<string, nat>, reason: string): nat {
    if reason in exclusions then exclusions[reason] else 0
  }

  function Bumped(exclusions: map<string, nat>, reason: string, n: nat): map<string, nat> {
    exclusions[reason := CountOf(exclusions, reason) + n]
  }

  /** The counters say how many were dropped under each name. */
  ghost predicate Counted(exclusions: map<string, nat>, drops: seq<Drop>) {
    forall reason :: CountOf(exclusions, reason) == Tally(drops, reason)
  }

  function IdsOf(items: seq<Ranked>): seq<string> {
    seq(|items|, i requires 0 <= i < |items| => items[i].id)
  }

  function DropIds(drops: seq<Drop>): seq<string> {
    seq(|drops|, i requires 0 <= i < |drops| => drops[i].id)
  }

  /** Every candidate is still in the running, dropped under a name, or skipped for want of a capsule; once. */
  ghost predicate Accounted(candidates: seq<string>, eligible: seq<Ranked>, drops: seq<Drop>, unloaded: seq<string>) {
    multiset(candidates) == multiset(IdsOf(eligible)) + multiset(DropIds(drops)) + multiset(unloaded)
  }

  lemma CountedOneMore(exclusions: map<string, nat>, drops: seq<Drop>, drop: Drop)
    requires Counted(exclusions, drops)
    ensures Counted(Bumped(exclusions, drop.reason, 1), drops + [drop])
  {
    assert (drops + [drop])[..|drops|] == drops;
  }

  lemma IdsOneMore(items: seq<Ranked>, item: Ranked)
    ensures IdsOf(items + [item]) == IdsOf(items) + [item.id]
  {
  }

  lemma DropsOneMore(drops: seq<Drop>, drop: Drop)
    ensures DropIds(drops + [drop]) == DropIds(drops) + [drop.id]
  {
  }

  /** The verdict of the fences on a loaded capsule. */
  datatype Verdict = Out(reason: string) | In(item: Ranked)

  datatype Fate = Dropped(reason: string) | Unloaded | Eligible(item: Ranked)

  /** What the first loop makes of a candidate. */
  function FateOf(kindExcluded: set<string>, stored: map<string, Verdict>, id: string): (fate: Fate)
    ensures fate.Unloaded? <==> id !in kindExcluded && id !in stored
    ensures fate.Eligible? <==> id !in kindExcluded && id in stored && stored[id].In?
    ensures fate.Eligible? ==> fate.item == stored[id].item
    ensures fate.Dropped? ==> fate.reason == if id in kindExcluded then "kind_excluded" else stored[id].reason
  {
    if id in kindExcluded then Dropped("kind_excluded")
    else if id !in stored then Unloaded
    else match stored[id]
      case Out(reason) => Dropped(reason)
      case In(item) => Eligible(item)
  }

  type Fates = string -> Fate

  /** Each list holds the candidates of its own fate. */
  ghost predicate Fenced(fate: Fates, eligible: seq<Ranked>, drops: seq<Drop>, unloaded: seq<string>) {
    && (forall k | 0 <= k < |eligible| :: fate(eligible[k].id) == Eligible(eligible[k]))
    && (forall k | 0 <= k < |drops| :: fate(drops[k].id) == Dropped(drops[k].reason))
    && (forall k | 0 <= k < |unloaded| :: fate(unloaded[k]) == Unloaded)
  }

  lemma AccountEligible(candidates: seq<string>, eligible: seq<Ranked>, drops: seq<Drop>, unloaded: seq<string>,
                        item: Ranked)
    requires Accounted(candidates, eligible, drops, unloaded)
    ensures Accounted(candidates + [item.id], eligible + [item], drops, unloaded)
  {
    IdsOneMore(eligible, item);
  }

  lemma AccountDrop(candidates: seq<string>, eligible: seq<Ranked>, drops: seq<Drop>, unloaded: seq<string>, drop: Drop)
    requires Accounted(candidates, eligible, drops, unloaded)
    ensures Accounted(candidates + [drop.id], eligible, drops + [drop], unloaded)
  {
    DropsOneMore(drops, drop);
  }

  lemma AccountUnloaded(candidates: seq<string>, eligible: seq<Ranked>, drops: seq<Drop>, unloaded: seq<string>,
                        id: string)
    requires Accounted(candidates, eligible, drops, unloaded)
    ensures Accounted(candidates + [id], eligible, drops, unloaded + [id])
  {
  }

  ghost predicate FencedBy(kindExcluded: set<string>, stored: map<string, Verdict>, eligible: seq<Ranked>,
                           drops: seq<Drop>, unloaded: seq<string>)
  {
    Fenced(id => FateOf(kindExcluded, stored, id), eligible, drops, unloaded)
  }

  /** The loop over the candidates: excluded by kind, not loaded, excluded by a fence, or eligible. */
  method FenceAll(candidates: seq<string>, kindExcluded: set<string>, stored: map<string, Verdict>)
    returns (eligible: seq<Ranked>, exclusions: map<string, nat>)
    requires forall id | id in stored && stored[id].In? :: stored[id].item.id == id
    ensures exists drops, unloaded :: Books(candidates, eligible, exclusions, drops, unloaded)
              && FencedBy(kindExcluded, stored, eligible, drops, unloaded)
  {
    ghost var fate: Fates := id => FateOf(kindExcluded, stored, id);
    ghost var drops: seq<Drop>, unloaded: seq<string> := [], [];
    eligible, exclusions := [], map[];
    for k := 0 to |candidates|
      invariant Accounted(candidates[..k], eligible, drops, unloaded) && Counted(exclusions, drops)
      invariant Fenced(fate, eligible, drops, unloaded)
    {
      var cid := candidates[k];
      TakeOneMore(candidates, k);
      if cid in kindExcluded {
        CountedOneMore(exclusions, drops, Drop(cid, "kind_excluded"));
        AccountDrop(candidates[..k], eligible, drops, unloaded, Drop(cid, "kind_excluded"));
        exclusions, drops := Bumped(exclusions, "kind_excluded", 1), drops + [Drop(cid, "kind_excluded")];
        continue;
      }
      if cid !in stored {
        AccountUnloaded(candidates[..k], eligible, drops, unloaded, cid);
        unloaded := unloaded + [cid];
        continue;
      }
      match stored[cid]
      case Out(reason) =>
        CountedOneMore(exclusions, drops, Drop(cid, reason));
        AccountDrop(candidates[..k], eligible, drops, unloaded, Drop(cid, reason));
        exclusions, drops := Bumped(exclusions, reason, 1), drops + [Drop(cid, reason)];
      case In(item) =>
        assert item.id == cid && fate(cid) == Eligible(item);
        AccountEligible(candidates[..k], eligible, drops, unloaded, item);
        eligible := eligible + [item];
    }
    assert candidates[..|candidates|] == candidates;
    assert Books(candidates, eligible, exclusions, drops, unloaded);
  }

  /** A stage over the eligible: each item kept, or dropped under its reason, in order. */
  function DropsOf(items: seq<Ranked>, keep: Ranked -> bool, reason: Ranked -> string): seq<Drop> {
    if items == [] then []
    else
      var last := items[|items| - 1];
      DropsOf(items[..|items| - 1], keep, reason) + if keep(last) then [] else [Drop(last.id, reason(last))]
  }

  lemma {:induction false} StageAccounts(items: seq<Ranked>, keep: Ranked -> bool, reason: Ranked -> string)
    ensures multiset(IdsOf(items))
         == multiset(IdsOf(Filter(items, keep))) + multiset(DropIds(DropsOf(items, keep, reason)))
    ensures |DropsOf(items, keep, reason)| == |items| - |Filter(items, keep)|
  {
    if items != [] {
      var init, last := items[..|items| - 1], items[|items| - 1];
      StageAccounts(init, keep, reason);
      IdsOneMore(init, last);
      assert items == init + [last];
      if keep(last) {
        IdsOneMore(Filter(init, keep), last);
        assert DropsOf(init, keep, reason) + [] == DropsOf(init, keep, reason);
      } else {
        DropsOneMore(DropsOf(init, keep, reason), Drop(last.id, reason(last)));
        assert Filter(init, keep) + [] == Filter(init, keep);
      }
    }
  }

  lemma StageKeepsAccount(candidates: seq<string>, eligible: seq<Ranked>, drops: seq<Drop>, unloaded: seq<string>,
                          keep: Ranked -> bool, reason: Ranked -> string)
    requires Accounted(candidates, eligible, drops, unloaded)
    ensures Accounted(candidates, Filter(eligible, keep), drops + DropsOf(eligible, keep, reason), unloaded)
  {
    StageAccounts(eligible, keep, reason);
    DropIdsConcat(drops, DropsOf(eligible, keep, reason));
  }

  lemma DropIdsConcat(a: seq<Drop>, b: seq<Drop>)
    ensures DropIds(a + b) == DropIds(a) + DropIds(b)
  {
  }

  /** A stage that counts as it goes: the standing fence, and the margin's loop over what it cut. */
  method CountDropped(items: seq<Ranked>, keep: Ranked -> bool, reason: Ranked -> string, exclusions: map<string, nat>,
                      ghost drops: seq<Drop>)
    returns (counts: map<string, nat>, kept: seq<Ranked>)
    requires Counted(exclusions, drops)
    ensures Counted(counts, drops + DropsOf(items, keep, reason)) && kept == Filter(items, keep)
  {
    counts, kept := exclusions, [];
    assert drops + [] == drops;
    for k := 0 to |items|
      invariant Counted(counts, drops + DropsOf(items[..k], keep, reason)) && kept == Filter(items[..k], keep)
    {
      assert items[..k + 1][..k] == items[..k];
      ghost var before := DropsOf(items[..k], keep, reason);
      if keep(items[k]) {
        assert before + [] == before;
        kept := kept + [items[k]];
      } else {
        ghost var drop := Drop(items[k].id, reason(items[k]));
        CountedOneMore(counts, drops + before, drop);
        assert drops + before + [drop] == drops + (before + [drop]);
        counts := Bumped(counts, reason(items[k]), 1);
      }
    }
    assert items[..|items|] == items;
  }

  /** The pool after its fences, and what came of the others. */
  ghost predicate Books(candidates: seq<string>, eligible: seq<Ranked>, exclusions: map<string, nat>, drops: seq<Drop>,
                        unloaded: seq<string>)
  {
    Accounted(candidates, eligible, drops, unloaded) && Counted(exclusions, drops)
  }

  /** A stage that keeps by `keep` and counts each item it drops under `reason`. */
  method Stage(ghost candidates: seq<string>, eligible: seq<Ranked>, exclusions: map<string, nat>,
               ghost drops: seq<Drop>, ghost unloaded: seq<string>,
               keep: Ranked -> bool, reason: Ranked -> string)
    returns (kept: seq<Ranked>, counts: map<string, nat>, ghost more: seq<Drop>)
    requires Books(candidates, eligible, exclusions, drops, unloaded)
    ensures Books(candidates, kept, counts, more, unloaded)
    ensures kept == Filter(eligible, keep) && more == drops + DropsOf(eligible, keep, reason)
  {
    counts, kept := CountDropped(eligible, keep, reason, exclusions, drops);
    more := drops + DropsOf(eligible, keep, reason);
    StageKeepsAccount(candidates, eligible, drops, unloaded, keep, reason);
  }

  lemma {:induction false} OneReasonTallies(items: seq<Ranked>, keep: Ranked -> bool, name: string, reason: string)
    ensures Tally(DropsOf(items, keep, _ => name), reason)
         == if reason == name then |DropsOf(items, keep, _ => name)| else 0
  {
    if items != [] {
      var init, last := items[..|items| - 1], items[|items| - 1];
      OneReasonTallies(init, keep, name, reason);
      var before := DropsOf(init, keep, _ => name);
      if keep(last) {
        assert before + [] == before;
      } else {
        assert (before + [Drop(last.id, name)])[..|before|] == before;
      }
    }
  }

  /** The cap counts what it cuts in one addition. */
  lemma CapCounts(eligible: seq<Ranked>, exclusions: map<string, nat>, drops: seq<Drop>, keep: Ranked -> bool,
                  name: string, capped: nat)
    requires Counted(exclusions, drops) && capped == |eligible| - |Filter(eligible, keep)|
    ensures Counted(if capped > 0 then Bumped(exclusions, name, capped) else exclusions,
                    drops + DropsOf(eligible, keep, _ => name))
  {
    var more := DropsOf(eligible, keep, _ => name);
    StageAccounts(eligible, keep, _ => name);
    var counts := if capped > 0 then Bumped(exclusions, name, capped) else exclusions;
    forall reason
      ensures CountOf(counts, reason) == Tally(drops + more, reason)
    {
      TallyAppend(drops, more, reason);
      OneReasonTallies(eligible, keep, name, reason);
    }
  }

  lemma {:induction false} NoneDropped(items: seq<Ranked>, keep: Ranked -> bool, reason: Ranked -> string)
    requires forall item | item in items :: keep(item)
    ensures DropsOf(items, keep, reason) == [] && Filter(items, keep) == items
  {
    if items != [] {
      NoneDropped(items[..|items| - 1], keep, reason);
      assert items == items[..|items| - 1] + [items[|items| - 1]];
    }
  }

  function IdSet(items: seq<Ranked>): set<string> {
    set item | item in items :: item.id
  }

  ghost function MarginDrops(lanes: Lanes, pool: seq<Ranked>, kept: seq<Ranked>): seq<Drop> {
    DropsOf(pool, item => Among(IdSet(kept), item), item => MarginReason(lanes, item))
  }

  ghost function LapsedDrops(lapsed: Option<set<string>>, fenced: seq<Ranked>): seq<Drop> {
    if lapsed.None? then [] else DropsOf(fenced, item => !Among(lapsed.value, item), _ => "lapsed")
  }

  /** Without a vector lane nothing is capped. */
  ghost function CapDrops(lanes: Lanes, items: seq<Ranked>, near: set<string>): seq<Drop> {
    if lanes.vectorRanks == map[] then []
    else DropsOf(items, item => UnderCap(lanes, near, item), _ => "vector_k_capped")
  }

  function Standing(lapsed: Option<set<string>>, fenced: seq<Ranked>): seq<Ranked> {
    if lapsed.None? then fenced else Filter(fenced, item => !Among(lapsed.value, item))
  }

  /** The standing fence, where the caller asks for it. */
  method FenceStanding(ghost candidates: seq<string>, fenced: seq<Ranked>, counts: map<string, nat>,
                       ghost dropped: seq<Drop>, ghost unloaded: seq<string>, lapsed: Option<set<string>>)
    returns (standing: seq<Ranked>, exclusions: map<string, nat>, ghost drops: seq<Drop>)
    requires Books(candidates, fenced, counts, dropped, unloaded)
    ensures Books(candidates, standing, exclusions, drops, unloaded)
    ensures standing == Standing(lapsed, fenced) && drops == dropped + LapsedDrops(lapsed, fenced)
  {
    standing, exclusions, drops := fenced, counts, dropped;
    assert dropped + [] == dropped;
    if lapsed.Some? {
      var gone := lapsed.value;
      standing, exclusions, drops :=
        Stage(candidates, fenced, counts, dropped, unloaded, item => !Among(gone, item), _ => "lapsed");
    }
  }

  /** The margin over the candidates still eligible, and its loop over what it cut. */
  method CutMargin(ghost candidates: seq<string>, pool: seq<Ranked>, counts: map<string, nat>,
                   ghost dropped: seq<Drop>, ghost unloaded: seq<string>,
                   lanes: Lanes, margin: Option<real>)
    returns (kept: seq<Ranked>, exclusions: map<string, nat>, ghost drops: seq<Drop>, ghost floor: real)
    requires Books(candidates, pool, counts, dropped, unloaded)
    ensures Books(candidates, kept, exclusions, drops, unloaded)
    ensures MarginKept(lanes, pool, margin, floor, kept) && drops == dropped + MarginDrops(lanes, pool, kept)
  {
    var cut;
    kept, cut, floor := CutVectorMargin(pool, lanes, margin);
    exclusions, drops := counts, dropped;
    if cut > 0 {
      var ids := IdSet(kept);
      var same;
      same, exclusions, drops :=
        Stage(candidates, pool, counts, dropped, unloaded, item => Among(ids, item), item => MarginReason(lanes, item));
      SameKept(lanes, floor, pool, kept);
    } else {
      FilterAll(pool, item => AboveMargin(lanes, floor, item));
      assert kept == pool;
      NoneDropped(pool, item => Among(IdSet(kept), item), item => MarginReason(lanes, item));
      assert dropped + [] == dropped;
    }
  }

  lemma {:induction false} FilterAll(items: seq<Ranked>, keep: Ranked -> bool)
    ensures |Filter(items, keep)| <= |items|
    ensures |Filter(items, keep)| == |items| ==> Filter(items, keep) == items
  {
    if items != [] {
      FilterAll(items[..|items| - 1], keep);
      assert items == items[..|items| - 1] + [items[|items| - 1]];
    }
  }

  /** The cap, after the margin, and its one addition. */
  method CutCap(ghost candidates: seq<string>, pool: seq<Ranked>, counts: map<string, nat>, ghost dropped: seq<Drop>,
                ghost unloaded: seq<string>,
                lanes: Lanes, vectorLimit: nat)
    returns (kept: seq<Ranked>, exclusions: map<string, nat>, ghost drops: seq<Drop>, ghost near: set<string>)
    requires Books(candidates, pool, counts, dropped, unloaded) && RanksApart(lanes.vectorRanks)
    ensures Books(candidates, kept, exclusions, drops, unloaded)
    ensures if lanes.vectorRanks == map[] then kept == pool
            else CapKept(lanes, pool, vectorLimit, near, kept)
    ensures drops == dropped + CapDrops(lanes, pool, near)
  {
    kept, exclusions, drops, near := pool, counts, dropped, {};
    assert dropped + [] == dropped;
    if lanes.vectorRanks != map[] {
      var capped;
      kept, capped, near := CapVectorLane(pool, lanes, vectorLimit);
      CapCounts(pool, exclusions, drops, item => UnderCap(lanes, near, item), "vector_k_capped", capped);
      StageKeepsAccount(candidates, pool, drops, unloaded, item => UnderCap(lanes, near, item), _ => "vector_k_capped");
      if capped > 0 {
        exclusions := Bumped(exclusions, "vector_k_capped", capped);
      }
      drops := drops + CapDrops(lanes, pool, near);
    }
  }

  predicate Among(ids: set<string>, item: Ranked) {
    item.id in ids
  }

  function MarginReason(lanes: Lanes, item: Ranked): string {
    if item.id in lanes.stopOnly then "below_relevance_floor" else "below_vector_margin"
  }

  lemma {:induction false} SameFilter(items: seq<Ranked>, p: Ranked -> bool, q: Ranked -> bool)
    requires forall item | item in items :: p(item) == q(item)
    ensures Filter(items, p) == Filter(items, q)
  {
    if items != [] {
      SameFilter(items[..|items| - 1], p, q);
    }
  }

  /** The margin keeps by id, so the loop that counts what it cut can tell by id what it kept. */
  lemma SameKept(lanes: Lanes, floor: real, items: seq<Ranked>, kept: seq<Ranked>)
    requires kept == Filter(items, item => AboveMargin(lanes, floor, item)) || kept == items
    ensures Filter(items, item => Among(IdSet(kept), item)) == kept
  {
    if kept == items {
      NoneDropped(items, item => Among(IdSet(kept), item), _ => "");
    } else {
      FilterHolds(items, item => AboveMargin(lanes, floor, item));
      forall item | item in items
        ensures Among(IdSet(kept), item) == AboveMargin(lanes, floor, item)
      {
        if Among(IdSet(kept), item) {
          var other :| other in kept && other.id == item.id;
        }
      }
      SameFilter(items, item => Among(IdSet(kept), item), item => AboveMargin(lanes, floor, item));
    }
  }

  function Weigh(item: Ranked, factor: real): (weighed: Ranked)
    ensures weighed.id == item.id && weighed.seqno == item.seqno && weighed.chars == item.chars
    ensures weighed.score == item.score * factor
  {
    item.(score := item.score * factor)
  }

  function Weighed(items: seq<Ranked>, blend: string -> real): (weighed: seq<Ranked>)
    ensures |weighed| == |items|
  {
    seq(|items|, i requires 0 <= i < |items| => Weigh(items[i], blend(items[i].id)))
  }

  /** `params.limit or 10`. */
  function EffectiveLimit(limit: Option<int>): (effective: int)
    ensures limit in {None, Some(0)} ==> effective == 10
    ensures limit !in {None, Some(0)} ==> limit == Some(effective)
  {
    if limit.None? || limit.value == 0 then 10 else limit.value
  }

  lemma IdsOfConcat(a: seq<Ranked>, b: seq<Ranked>)
    ensures IdsOf(a + b) == IdsOf(a) + IdsOf(b)
  {
  }

  /** Sorting changes no item, loses none and repeats none. */
  lemma {:induction false} SortedPermutes(items: seq<Ranked>, earlier: Earlier)
    ensures multiset(Sorted(items, earlier)) == multiset(items)
  {
    if items != [] {
      var init, last := items[..|items| - 1], items[|items| - 1];
      assert items == init + [last];
      SortedPermutes(init, earlier);
      PlacedPermutes(init, Sorted(init, earlier), last, Place(last, Sorted(init, earlier), earlier));
    }
  }

  lemma PlacedPermutes(init: seq<Ranked>, rest: seq<Ranked>, last: Ranked, k: nat)
    requires k <= |rest| && multiset(rest) == multiset(init)
    ensures multiset(rest[..k] + [last] + rest[k..]) == multiset(init + [last])
  {
    assert rest == rest[..k] + rest[k..];
    assert multiset(rest) == multiset(rest[..k]) + multiset(rest[k..]);
  }

  lemma SortedKeepsIds(items: seq<Ranked>, earlier: Earlier)
    ensures multiset(IdsOf(Sorted(items, earlier))) == multiset(IdsOf(items))
  {
    SortedPermutes(items, earlier);
    SameItemsSameIds(Sorted(items, earlier), items);
  }

  /** The pool after each stage: the fences, the standing fence, the margin, the cap. */
  datatype Trail = Trail(fenced: seq<Ranked>, fenceDrops: seq<Drop>, standing: seq<Ranked>, near: seq<Ranked>,
                         closest: set<string>, kept: seq<Ranked>)

  /** Each stage names what it drops. */
  ghost predicate Named(trail: Trail, lapsed: Option<set<string>>, lanes: Lanes, drops: seq<Drop>) {
    drops == trail.fenceDrops + LapsedDrops(lapsed, trail.fenced)
           + MarginDrops(lanes, trail.standing, trail.near) + CapDrops(lanes, trail.near, trail.closest)
  }

  /** Each stage keeps what it should of the stage before, and the matches are the last, weighed and ranked. */
  ghost predicate Followed(trail: Trail, lapsed: Option<set<string>>, lanes: Lanes, margin: Option<real>,
                           vectorLimit: nat,
                           blend: Option<string -> real>, matched: seq<Ranked>)
  {
    && trail.standing == Standing(lapsed, trail.fenced)
    && (exists floor :: MarginKept(lanes, trail.standing, margin, floor, trail.near))
    && (if lanes.vectorRanks == map[] then trail.kept == trail.near
        else CapKept(lanes, trail.near, vectorLimit, trail.closest, trail.kept))
    && matched == Sorted(if blend.None? then trail.kept else Weighed(trail.kept, blend.value), MoreRelevant)
  }

  /**
   * `retrieve`, from the candidates to the served items: every candidate is accounted for, and those that matched
   * are served or trimmed in the order of their relevance.
   */
  method Retrieve(candidates: seq<string>, kindExcluded: set<string>, stored: map<string, Verdict>,
                  lapsed: Option<set<string>>, lanes: Lanes, margin: Option<real>, vectorLimit: nat,
                  blend: Option<string -> real>, limit: Option<int>, budget: int)
    returns (exclusions: map<string, nat>, matched: seq<Ranked>, top: seq<Ranked>, byLimit: int, byBudget: int,
             ghost drops: seq<Drop>, ghost unloaded: seq<string>, ghost trail: Trail, ghost places: Packing)
    requires forall id | id in stored && stored[id].In? :: stored[id].item.id == id
    requires RanksApart(lanes.vectorRanks)
    ensures Books(candidates, matched, exclusions, drops, unloaded)
    ensures Named(trail, lapsed, lanes, drops)
    ensures FencedBy(kindExcluded, stored, trail.fenced, trail.fenceDrops, unloaded)
    ensures Followed(trail, lapsed, lanes, margin, vectorLimit, blend, matched)
    ensures InOrder(matched, MoreRelevant)
    ensures Trimmed(matched, EffectiveLimit(limit), budget, top, byLimit, byBudget, places)
    ensures Distributed(candidates, drops, unloaded, places)
  {
    var fenced, standing, near, kept;
    fenced, exclusions := FenceAll(candidates, kindExcluded, stored);
    drops, unloaded :| Books(candidates, fenced, exclusions, drops, unloaded)
      && FencedBy(kindExcluded, stored, fenced, drops, unloaded);
    ghost var fenceDrops := drops;
    standing, exclusions, drops := FenceStanding(candidates, fenced, exclusions, drops, unloaded, lapsed);
    ghost var floor, nearest;
    near, exclusions, drops, floor := CutMargin(candidates, standing, exclusions, drops, unloaded, lanes, margin);
    kept, exclusions, drops, nearest := CutCap(candidates, near, exclusions, drops, unloaded, lanes, vectorLimit);
    matched := Rank(kept, blend);
    trail := Trail(fenced, fenceDrops, standing, near, nearest, kept);
    top, byLimit, byBudget, places :=
      TrimMatches(candidates, matched, exclusions, drops, unloaded, EffectiveLimit(limit), budget);
  }

  /** What was served, what the two counters say, and where each match ended. */
  ghost predicate Trimmed(matched: seq<Ranked>, limit: int, budget: int, top: seq<Ranked>, byLimit: int, byBudget: int,
                          places: Packing)
  {
    && top == Served(matched, limit, budget) == places.top
    && Parted(matched, places) && |top| + byLimit + byBudget == |matched|
    && (limit >= 1 ==> byLimit == |places.late| && byBudget == |places.large|)
  }

  /** The trimming, and where it leaves every candidate. */
  method TrimMatches(ghost candidates: seq<string>, matched: seq<Ranked>, ghost exclusions: map<string, nat>,
                     ghost drops: seq<Drop>, ghost unloaded: seq<string>, limit: int, budget: int)
    returns (top: seq<Ranked>, byLimit: int, byBudget: int, ghost places: Packing)
    requires Books(candidates, matched, exclusions, drops, unloaded)
    ensures Trimmed(matched, limit, budget, top, byLimit, byBudget, places)
    ensures Distributed(candidates, drops, unloaded, places)
  {
    top, byLimit, byBudget := TrimToBudget(matched, limit, budget);
    places := Places(matched, limit, budget);
    PlacesPart(matched, limit, budget);
    PlacesAreCounted(matched, limit, budget);
    BooksDistribute(candidates, matched, exclusions, drops, unloaded, limit, budget);
  }

  method Rank(kept: seq<Ranked>, blend: Option<string -> real>) returns (matched: seq<Ranked>)
    ensures matched == Sorted(if blend.None? then kept else Weighed(kept, blend.value), MoreRelevant)
    ensures InOrder(matched, MoreRelevant) && multiset(IdsOf(matched)) == multiset(IdsOf(kept))
  {
    var weighed := kept;
    if blend.Some? {
      weighed := Weighed(kept, blend.value);
      assert IdsOf(weighed) == IdsOf(kept);
    }
    RelevanceOrders();
    SortedSorts(weighed, MoreRelevant);
    SortedKeepsIds(weighed, MoreRelevant);
    matched := Sorted(weighed, MoreRelevant);
  }

  // ---- the one place of every candidate --------------------------------------

  /** Whether the first item is served though nothing was packed. */
  predicate FallsBack(items: seq<Ranked>, limit: int, budget: int) {
    PackAll(items, limit, budget).top == [] && items != [] && budget > 0
  }

  /** Where each match ends: served, past the limit, or over the budget. The fallback moves the first to the served. */
  function Places(items: seq<Ranked>, limit: int, budget: int): Packing {
    var p := PackAll(items, limit, budget);
    if !FallsBack(items, limit, budget) then p
    else if limit > 0 then Packing([items[0]], [], items[1..])
    else Packing([items[0]], items[1..], [])
  }

  lemma PlacesPart(items: seq<Ranked>, limit: int, budget: int)
    ensures Parted(items, Places(items, limit, budget))
  {
    PackedParts(items, limit, budget);
    if FallsBack(items, limit, budget) {
      assert items == [items[0]] + items[1..];
    }
  }

  /** The counters count the places, but that a limit which lets nothing in still counts the item served anyway. */
  lemma PlacesAreCounted(items: seq<Ranked>, limit: int, budget: int)
    ensures var places, p := Places(items, limit, budget), PackAll(items, limit, budget);
            var odd := if limit <= 0 && FallsBack(items, limit, budget) then 1 else 0;
            && places.top == Served(items, limit, budget)
            && |places.late| == |p.late| - odd
            && |places.large| == |items| - |p.late| - |places.top| + odd
  {
    PackedParts(items, limit, budget);
    var p := PackAll(items, limit, budget);
    assert |items| == |multiset(items)| == |p.top| + |p.late| + |p.large|;
    if FallsBack(items, limit, budget) {
      EmptyIsOnePlace(items, limit, budget);
    }
  }

  lemma WithoutOne(items: seq<Ranked>, j: nat)
    requires j < |items|
    ensures multiset(items[..j] + items[j + 1..]) == multiset(items) - multiset{items[j]}
    ensures multiset(IdsOf(items)) == multiset(IdsOf(items[..j] + items[j + 1..])) + multiset{items[j].id}
  {
    assert items == items[..j] + [items[j]] + items[j + 1..];
    IdsOfConcat(items[..j] + [items[j]], items[j + 1..]);
    IdsOfConcat(items[..j], [items[j]]);
    IdsOfConcat(items[..j], items[j + 1..]);
    assert IdsOf([items[j]]) == [items[j].id];
  }

  /** Items rearranged keep their ids. */
  lemma {:induction false} SameItemsSameIds(xs: seq<Ranked>, ys: seq<Ranked>)
    requires multiset(xs) == multiset(ys)
    ensures multiset(IdsOf(xs)) == multiset(IdsOf(ys))
    decreases |xs|
  {
    if xs == [] {
      assert |ys| == |multiset(ys)| == 0;
    } else {
      var last := xs[|xs| - 1];
      assert last in multiset(xs);
      var j :| 0 <= j < |ys| && ys[j] == last;
      WithoutOne(xs, |xs| - 1);
      WithoutOne(ys, j);
      SameItemsSameIds(xs[..|xs| - 1] + xs[|xs|..], ys[..j] + ys[j + 1..]);
    }
  }

  /** Every candidate is excluded, skipped, served, past the limit or over the budget, once. */
  ghost predicate Distributed(candidates: seq<string>, drops: seq<Drop>, unloaded: seq<string>, places: Packing) {
    multiset(candidates) == multiset(DropIds(drops)) + multiset(unloaded)
                          + multiset(IdsOf(places.top)) + multiset(IdsOf(places.late)) + multiset(IdsOf(places.large))
  }

  lemma BooksDistribute(candidates: seq<string>, matched: seq<Ranked>, exclusions: map<string, nat>, drops: seq<Drop>,
                        unloaded: seq<string>,
                        limit: int, budget: int)
    requires Books(candidates, matched, exclusions, drops, unloaded)
    ensures Distributed(candidates, drops, unloaded, Places(matched, limit, budget))
  {
    var places := Places(matched, limit, budget);
    PlacesPart(matched, limit, budget);
    SameItemsSameIds(matched, places.top + places.late + places.large);
    IdsOfConcat(places.top + places.late, places.large);
    IdsOfConcat(places.top, places.late);
  }

  /** The five places a candidate may end in. */
  datatype End = Excluded | Skipped | Returned | TrimmedByLimit | TrimmedByBudget

  ghost function IdsAt(drops: seq<Drop>, unloaded: seq<string>, places: Packing, end: End): seq<string> {
    match end
    case Excluded => DropIds(drops)
    case Skipped => unloaded
    case Returned => IdsOf(places.top)
    case TrimmedByLimit => IdsOf(places.late)
    case TrimmedByBudget => IdsOf(places.large)
  }

  ghost function TimesAt(drops: seq<Drop>, unloaded: seq<string>, places: Packing, id: string, end: End): nat {
    multiset(IdsAt(drops, unloaded, places, end))[id]
  }

  lemma TimesAddUp(candidates: seq<string>, drops: seq<Drop>, unloaded: seq<string>, places: Packing, id: string)
    requires Distributed(candidates, drops, unloaded, places)
    ensures multiset(candidates)[id]
         == TimesAt(drops, unloaded, places, id, Excluded) + TimesAt(drops, unloaded, places, id, Skipped)
          + TimesAt(drops, unloaded, places, id, Returned) + TimesAt(drops, unloaded, places, id, TrimmedByLimit)
          + TimesAt(drops, unloaded, places, id, TrimmedByBudget)
  {
  }

  lemma OneEndOnly(candidates: seq<string>, drops: seq<Drop>, unloaded: seq<string>, places: Packing, id: string,
                   end: End, other: End)
    requires Distributed(candidates, drops, unloaded, places) && multiset(candidates)[id] == 1
    requires TimesAt(drops, unloaded, places, id, end) > 0
    ensures if other == end then TimesAt(drops, unloaded, places, id, other) == 1
            else id !in IdsAt(drops, unloaded, places, other)
  {
    TimesAddUp(candidates, drops, unloaded, places, id);
  }

  /** A candidate listed once ends in exactly one place, and there once. */
  lemma OnePlaceEach(candidates: seq<string>, drops: seq<Drop>, unloaded: seq<string>, places: Packing, id: string)
    requires Distributed(candidates, drops, unloaded, places) && multiset(candidates)[id] == 1
    ensures exists end :: TimesAt(drops, unloaded, places, id, end) == 1
              && forall other | other != end :: id !in IdsAt(drops, unloaded, places, other)
  {
    TimesAddUp(candidates, drops, unloaded, places, id);
    var end: End :| TimesAt(drops, unloaded, places, id, end) > 0;
    OneEndOnly(candidates, drops, unloaded, places, id, end, end);
    forall other | other != end
      ensures id !in IdsAt(drops, unloaded, places, other)
    {
      OneEndOnly(candidates, drops, unloaded, places, id, end, other);
    }
  }
}
