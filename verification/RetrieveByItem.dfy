/** What a retrieval makes of one item, told by the item, the lanes and its place in the ranking. */
module RetrieveByItem {
  import opened Retrieve
  import opened Tables
  import opened Words

  // ---- trimming ----------------------------------------------------------------

  /** From the head of the ranking: with no room in the limit the rest is late; else an item that what is left of the
      budget pays for is taken, and one that it does not is too large. */
  function Greedy(items: seq<Ranked>, room: int, left: int): Packing {
    if items == [] then Packing([], [], [])
    else if room <= 0 then Packing([], items, [])
    else if Cost(items[0]) > left then
      var rest := Greedy(items[1..], room, left);
      rest.(large := [items[0]] + rest.large)
    else
      var rest := Greedy(items[1..], room - 1, left - Cost(items[0]));
      rest.(top := [items[0]] + rest.top)
  }

  lemma {:induction false} UsedAddsUp(a: seq<Ranked>, b: seq<Ranked>)
    ensures Used(a + b) == Used(a) + Used(b)
    ensures |a| == 1 ==> Used(a) == Cost(a[0])
  {
    if b == [] {
      assert a + b == a;
    } else {
      assert (a + b)[..|a + b| - 1] == a + b[..|b| - 1];
      UsedAddsUp(a, b[..|b| - 1]);
    }
  }

  /** An item more at the end of the ranking. */
  lemma {:induction false} GreedyMore(items: seq<Ranked>, last: Ranked, room: int, left: int)
    ensures Greedy(items + [last], room, left) == PackOne(Greedy(items, room, left), last, room, left)
    decreases |items|
  {
    var all := items + [last];
    if items == [] {
      assert all[1..] == [];
      assert Greedy([], room, left) == Packing([], [], []);
    } else if room > 0 {
      var head := items[0];
      assert all[1..] == items[1..] + [last];
      if Cost(head) > left {
        GreedyMore(items[1..], last, room, left);
        LargeFirst(Greedy(items[1..], room, left), head, last, room, left);
      } else {
        GreedyMore(items[1..], last, room - 1, left - Cost(head));
        TopFirst(Greedy(items[1..], room - 1, left - Cost(head)), head, last, room, left);
      }
    }
  }

  lemma LargeFirst(p: Packing, head: Ranked, last: Ranked, room: int, left: int)
    ensures
      var q := PackOne(p, last, room, left);
      PackOne(p.(large := [head] + p.large), last, room, left) == q.(large := [head] + q.large)
  {
    assert [head] + p.large + [last] == [head] + (p.large + [last]);
  }

  lemma TopFirst(p: Packing, head: Ranked, last: Ranked, room: int, left: int)
    ensures
      var q := PackOne(p, last, room - 1, left - Cost(head));
      PackOne(p.(top := [head] + p.top), last, room, left) == q.(top := [head] + q.top)
  {
    UsedAddsUp([head], p.top);
    assert [head] + p.top + [last] == [head] + (p.top + [last]);
  }

  /** The packing is greedy. */
  lemma {:induction false} PackedGreedily(items: seq<Ranked>, limit: int, budget: int)
    ensures PackAll(items, limit, budget) == Greedy(items, limit, budget)
  {
    if items != [] {
      var init, last := items[..|items| - 1], items[|items| - 1];
      assert items == init + [last];
      PackedGreedily(init, limit, budget);
      GreedyMore(init, last, limit, budget);
    }
  }

  lemma {:induction false} TakesWhatFits(items: seq<Ranked>, room: int, left: int, k: nat)
    requires room > 0 && k < |items| && Cost(items[k]) <= left
    ensures Greedy(items, room, left).top != []
  {
    if k > 0 && Cost(items[0]) > left {
      TakesWhatFits(items[1..], room, left, k - 1);
    }
  }

  /** The first item is served though nothing was packed exactly where the limit lets nothing in or each item costs more
      than a positive budget. */
  lemma FallsBackIff(items: seq<Ranked>, limit: int, budget: int)
    ensures FallsBack(items, limit, budget) <==>
      items != [] && budget > 0 && (limit <= 0 || forall k | 0 <= k < |items| :: Cost(items[k]) > budget)
    ensures FallsBack(items, limit, budget) ==> Served(items, limit, budget) == [items[0]]
    ensures !FallsBack(items, limit, budget) ==> Served(items, limit, budget) == PackAll(items, limit, budget).top
  {
    PackedGreedily(items, limit, budget);
    if PackAll(items, limit, budget).top == [] {
      EmptyMeansNoneFits(items, limit, budget);
    }
    if limit > 0 && exists k: nat :: k < |items| && Cost(items[k]) <= budget {
      var k: nat :| k < |items| && Cost(items[k]) <= budget;
      TakesWhatFits(items, limit, budget, k);
    }
  }

  // ---- the cuts ------------------------------------------------------------------

  lemma {:induction false} FilterInOrder(items: seq<Ranked>, keep: Ranked -> bool)
    ensures Subsequence(Filter(items, keep), items)
  {
    if items == [] {
      assert Picks([], [], []);
    } else {
      var init, last := items[..|items| - 1], items[|items| - 1];
      FilterInOrder(init, keep);
      SubsequenceGrows(Filter(init, keep), init, last);
      assert items == init + [last] && Filter(init, keep) + [] == Filter(init, keep);
    }
  }

  lemma {:induction false} FilterRepeats(items: seq<Ranked>, keep: Ranked -> bool, item: Ranked)
    ensures multiset(Filter(items, keep))[item] == if keep(item) then multiset(items)[item] else 0
  {
    if items != [] {
      var init, last := items[..|items| - 1], items[|items| - 1];
      FilterRepeats(init, keep, item);
      assert items == init + [last];
    }
  }

  /** The standing fence, where there is one, leaves out exactly the items that lapsed. */
  lemma StandingIff(lapsed: Option<set<string>>, fenced: seq<Ranked>, item: Ranked)
    ensures item in Standing(lapsed, fenced) <==> item in fenced && (lapsed == None || item.id !in lapsed.value)
  {
    if lapsed.Some? {
      FilterHolds(fenced, item => !Among(lapsed.value, item));
    }
  }

  /** A measured pool loses to a margin exactly the items that neither matched a content word by term, nor scored a
      positive term floor, nor come within the margin of the best finite similarity, nor have an infinite one. */
  lemma CutByMarginIff(lanes: Lanes, pool: seq<Ranked>, margin: real, floor: real, kept: seq<Ranked>, best: Ranked,
                       item: Ranked)
    requires MarginKept(lanes, pool, Some(margin), floor, kept) && item in pool
    requires best in pool && best.id in lanes.sims && lanes.sims[best.id].Finite?
    requires forall other | other in pool && other.id in lanes.sims && lanes.sims[other.id].Finite? ::
               lanes.sims[other.id].value <= lanes.sims[best.id].value
    ensures item !in kept <==>
      && (item.id in lanes.termScores ==>
            item.id in lanes.stopOnly && (lanes.termFloor <= 0.0 || lanes.termScores[item.id] < lanes.termFloor))
      && (item.id in lanes.sims ==>
            match lanes.sims[item.id]
            case Finite(value) => value < lanes.sims[best.id].value - margin
            case PlusInfinity => false
            case Unordered => true)
  {
    assert Measured(lanes, best);
    FilterHolds(pool, item => AboveMargin(lanes, floor, item));
    BestIsOne(lanes, pool, floor + margin, best);
  }

  lemma BestIsOne(lanes: Lanes, pool: seq<Ranked>, value: real, best: Ranked)
    requires IsBest(lanes, pool, value) && best in pool && Measured(lanes, best)
    requires forall other | other in pool && Measured(lanes, other) ::
               lanes.sims[other.id].value <= lanes.sims[best.id].value
    ensures value == lanes.sims[best.id].value
  {
  }

  /** Without a finite similarity, or without a margin, none is cut. */
  lemma UnmeasuredStay(lanes: Lanes, pool: seq<Ranked>, margin: Option<real>, floor: real, kept: seq<Ranked>)
    requires MarginKept(lanes, pool, margin, floor, kept)
    requires margin.None? || forall item | item in pool :: item.id !in lanes.sims || !lanes.sims[item.id].Finite?
    ensures kept == pool
  {
  }

  /** The ids of the pool that the vector lane ranks before this one. */
  ghost function Nearer(lanes: Lanes, pool: seq<Ranked>, id: string): set<string>
    requires id in lanes.vectorRanks
  {
    set item | item in pool && item.id in lanes.vectorRanks && lanes.vectorRanks[item.id] < lanes.vectorRanks[id]
      :: item.id
  }

  /** An item clears the cap exactly if its own term lane is active or fewer than the limit are nearer. */
  lemma CapKeepsIff(lanes: Lanes, pool: seq<Ranked>, limit: nat, near: set<string>, kept: seq<Ranked>, item: Ranked)
    requires CapKept(lanes, pool, limit, near, kept) && RanksApart(lanes.vectorRanks) && item in pool
    ensures item in kept <==>
      || item.id in lanes.activeTerms
      || (item.id in lanes.vectorRanks && |Nearer(lanes, pool, item.id)| < limit)
  {
    FilterHolds(pool, item => UnderCap(lanes, near, item));
    if item.id in lanes.vectorRanks {
      NearIff(lanes, pool, limit, near, item.id);
    }
  }

  lemma NearIff(lanes: Lanes, pool: seq<Ranked>, limit: nat, near: set<string>, id: string)
    requires Nearest(near, RankedIds(pool, lanes.vectorRanks), lanes.vectorRanks, limit)
    requires RanksApart(lanes.vectorRanks) && id in RankedIds(pool, lanes.vectorRanks)
    ensures id in near <==> |Nearer(lanes, pool, id)| < limit
  {
    var ids, nearer := RankedIds(pool, lanes.vectorRanks), Nearer(lanes, pool, id);
    assert nearer <= ids - {id};
    if id in near {
      assert nearer <= near - {id};
      Fewer(nearer, near - {id});
    } else {
      assert near <= nearer;
      Fewer(near, nearer);
      Fewer(near + {id}, ids);
    }
  }

  lemma Fewer<T>(a: set<T>, b: set<T>)
    requires a <= b
    ensures |a| <= |b|
  {
    assert b == a + (b - a);
  }

  // ---- the names and the order -----------------------------------------------------

  lemma {:induction false} DropsOfHold(items: seq<Ranked>, keep: Ranked -> bool, reason: Ranked -> string, drop: Drop)
    ensures drop in DropsOf(items, keep, reason) <==>
      exists item :: item in items && !keep(item) && drop == Drop(item.id, reason(item))
  {
    if items != [] {
      var init, last := items[..|items| - 1], items[|items| - 1];
      DropsOfHold(init, keep, reason, drop);
      assert items == init + [last];
      assert DropsOf(items, keep, reason)
        == DropsOf(init, keep, reason) + if keep(last) then [] else [Drop(last.id, reason(last))];
    }
  }

  ghost predicate Lost(before: seq<Ranked>, after: seq<Ranked>, id: string) {
    id in IdSet(before) && id !in IdSet(after)
  }

  /** The name a drop goes by says which stage left it out, and why. */
  ghost predicate Explained(kindExcluded: set<string>, stored: map<string, Verdict>, lapsed: Option<set<string>>,
                            lanes: Lanes, trail: Trail, drop: Drop)
  {
    || (drop.id in kindExcluded && drop.reason == "kind_excluded")
    || (drop.id !in kindExcluded && drop.id in stored && stored[drop.id] == Out(drop.reason))
    || (lapsed.Some? && drop.id in lapsed.value && drop.id in IdSet(trail.fenced) && drop.reason == "lapsed")
    || (Lost(trail.standing, trail.near, drop.id)
        && drop.reason == if drop.id in lanes.stopOnly then "below_relevance_floor" else "below_vector_margin")
    || (Lost(trail.near, trail.kept, drop.id) && drop.reason == "vector_k_capped")
  }

  lemma FenceExplains(kindExcluded: set<string>, stored: map<string, Verdict>, eligible: seq<Ranked>, drops: seq<Drop>,
                      unloaded: seq<string>, drop: Drop)
    requires FencedBy(kindExcluded, stored, eligible, drops, unloaded) && drop in drops
    ensures if drop.id in kindExcluded then drop.reason == "kind_excluded"
            else drop.id in stored && stored[drop.id] == Out(drop.reason)
  {
    var k :| 0 <= k < |drops| && drops[k] == drop;
    assert FateOf(kindExcluded, stored, drops[k].id) == Dropped(drops[k].reason);
  }

  lemma MarginExplains(lanes: Lanes, pool: seq<Ranked>, kept: seq<Ranked>, drop: Drop)
    requires drop in MarginDrops(lanes, pool, kept)
    ensures Lost(pool, kept, drop.id)
    ensures drop.reason == if drop.id in lanes.stopOnly then "below_relevance_floor" else "below_vector_margin"
  {
    DropsOfHold(pool, item => Among(IdSet(kept), item), item => MarginReason(lanes, item), drop);
  }

  lemma CapExplains(lanes: Lanes, pool: seq<Ranked>, near: set<string>, limit: nat, kept: seq<Ranked>, drop: Drop)
    requires drop in CapDrops(lanes, pool, near) && CapKept(lanes, pool, limit, near, kept)
    ensures Lost(pool, kept, drop.id) && drop.reason == "vector_k_capped"
  {
    DropsOfHold(pool, item => UnderCap(lanes, near, item), _ => "vector_k_capped", drop);
    FilterHolds(pool, item => UnderCap(lanes, near, item));
  }

  /** Every drop of a retrieval is explained. */
  lemma EveryDropExplained(kindExcluded: set<string>, stored: map<string, Verdict>, lapsed: Option<set<string>>,
                           lanes: Lanes, margin: Option<real>, vectorLimit: nat, blend: Option<string -> real>,
                           trail: Trail, matched: seq<Ranked>, drops: seq<Drop>, unloaded: seq<string>, drop: Drop)
    requires FencedBy(kindExcluded, stored, trail.fenced, trail.fenceDrops, unloaded)
    requires Followed(trail, lapsed, lanes, margin, vectorLimit, blend, matched)
    requires Named(trail, lapsed, lanes, drops) && drop in drops
    ensures Explained(kindExcluded, stored, lapsed, lanes, trail, drop)
  {
    if drop in trail.fenceDrops {
      FenceExplains(kindExcluded, stored, trail.fenced, trail.fenceDrops, unloaded, drop);
    } else if drop in LapsedDrops(lapsed, trail.fenced) {
      DropsOfHold(trail.fenced, item => !Among(lapsed.value, item), _ => "lapsed", drop);
    } else if drop in MarginDrops(lanes, trail.standing, trail.near) {
      MarginExplains(lanes, trail.standing, trail.near, drop);
    } else {
      CapExplains(lanes, trail.near, trail.closest, vectorLimit, trail.kept, drop);
    }
  }

  function Under(drops: seq<Drop>, reason: string): set<int> {
    set k | 0 <= k < |drops| && drops[k].reason == reason
  }

  lemma UnderMore(drops: seq<Drop>, last: Drop, reason: string)
    ensures |Under(drops + [last], reason)| == |Under(drops, reason)| + if last.reason == reason then 1 else 0
  {
    var n := |drops|;
    assert Under(drops + [last], reason) == Under(drops, reason) + if last.reason == reason then {n} else {};
  }

  /** A counter is how many drops go by its name. */
  lemma {:induction false} TallyCounts(drops: seq<Drop>, reason: string)
    ensures Tally(drops, reason) == |Under(drops, reason)|
  {
    if drops != [] {
      var n := |drops| - 1;
      TallyCounts(drops[..n], reason);
      UnderMore(drops[..n], drops[n], reason);
      assert drops == drops[..n] + [drops[n]];
    }
  }

  /** The ranking is by relevance, the best first, and of two alike the older seq comes first. */
  lemma RankedIff(matched: seq<Ranked>)
    ensures InOrder(matched, MoreRelevant) <==> forall i, j | 0 <= i < j < |matched| ::
      || matched[i].score > matched[j].score
      || (matched[i].score == matched[j].score && matched[i].seqno <= matched[j].seqno)
  {
  }

  lemma WeighedIff(kept: seq<Ranked>, blend: string -> real, item: Ranked)
    ensures item in Weighed(kept, blend) <==> exists was :: was in kept && item == Weigh(was, blend(was.id))
  {
    if item in Weighed(kept, blend) {
      var i :| 0 <= i < |kept| && Weighed(kept, blend)[i] == item;
      assert kept[i] in kept;
    }
    if was :| was in kept && item == Weigh(was, blend(was.id)) {
      var i :| 0 <= i < |kept| && kept[i] == was;
      assert Weighed(kept, blend)[i] == item;
    }
  }

  lemma SameMembers<T>(a: seq<T>, b: seq<T>, x: T)
    requires multiset(a) == multiset(b)
    ensures x in a <==> x in b
  {
    assert x in a <==> x in multiset(a);
    assert x in b <==> x in multiset(b);
  }

  /** Ranking weighs each item by its blend, and neither loses nor invents one. */
  lemma RankingWeighs(kept: seq<Ranked>, blend: string -> real, item: Ranked)
    ensures item in Sorted(Weighed(kept, blend), MoreRelevant) <==>
      exists was :: was in kept && item == Weigh(was, blend(was.id))
  {
    WeighedIff(kept, blend, item);
    SortedPermutes(Weighed(kept, blend), MoreRelevant);
    SameMembers(Sorted(Weighed(kept, blend), MoreRelevant), Weighed(kept, blend), item);
  }
}
