/** How often each id was served: counts kept by row triggers, and the grouped backfill that replaces them. */
module Served {
  import opened Tables
  import opened Words

  /** A JSON array of texts and nulls. */
  type Listing = seq<Option<string>>

  datatype Row = Row(listing: Listing, revoked: bool)

  type Traffic = map<int, Row>

  /** The table; an id without a row counts as zero. */
  type Counts = map<string, int>

  /** SQL `trim`. */
  type Trim = string -> string

  function CountOf(counts: Counts, id: string): int {
    if id in counts then counts[id] else 0
  }

  // ---- what a scan counts ----------------------------------------------------

  function Occurrences(trim: Trim, listing: Listing, id: string): nat {
    if listing == [] then 0
    else
      Occurrences(trim, listing[..|listing| - 1], id)
      + if listing[|listing| - 1].Some? && trim(listing[|listing| - 1].value) == id then 1 else 0
  }

  function RowCount(trim: Trim, row: Row, id: string): nat {
    if row.revoked then 0 else Occurrences(trim, row.listing, id)
  }

  ghost function RowCounts(trim: Trim, traffic: Traffic, id: string): map<int, nat> {
    map s | s in traffic :: RowCount(trim, traffic[s], id)
  }

  /** The occurrences of `id` over every row not revoked. */
  ghost function ScanCount(trim: Trim, traffic: Traffic, id: string): nat {
    Sum(RowCounts(trim, traffic, id))
  }

  ghost predicate Exact(trim: Trim, traffic: Traffic, counts: Counts) {
    forall id :: CountOf(counts, id) == ScanCount(trim, traffic, id)
  }

  /** The places of an array at which the id stands. */
  function Places(trim: Trim, listing: Listing, id: string): set<int> {
    set k | 0 <= k < |listing| && listing[k].Some? && trim(listing[k].value) == id
  }

  lemma PlacesMore(trim: Trim, init: Listing, last: Option<string>, id: string)
    ensures |Places(trim, init + [last], id)|
         == |Places(trim, init, id)| + if last.Some? && trim(last.value) == id then 1 else 0
  {
    if last.Some? && trim(last.value) == id {
      assert Places(trim, init + [last], id) == Places(trim, init, id) + {|init|};
    } else {
      assert Places(trim, init + [last], id) == Places(trim, init, id);
    }
  }

  /** A row counts an id once for each place of its array, and a revoked one not at all. */
  lemma {:induction false} RowCountIs(trim: Trim, listing: Listing, id: string)
    ensures RowCount(trim, Row(listing, false), id) == |Places(trim, listing, id)|
    ensures RowCount(trim, Row(listing, true), id) == 0
    decreases |listing|
  {
    if listing == [] {
      assert Places(trim, listing, id) == {};
    } else {
      var init, last := listing[..|listing| - 1], listing[|listing| - 1];
      assert listing == init + [last];
      RowCountIs(trim, init, id);
      PlacesMore(trim, init, last, id);
    }
  }

  /** The scan counts an id exactly if some row that is not revoked lists it. */
  lemma ServedIff(trim: Trim, traffic: Traffic, id: string)
    ensures ScanCount(trim, traffic, id) > 0 <==>
      exists s, k :: s in traffic && !traffic[s].revoked && k in Places(trim, traffic[s].listing, id)
  {
    var counts := RowCounts(trim, traffic, id);
    if s, k :| s in traffic && !traffic[s].revoked && k in Places(trim, traffic[s].listing, id) {
      RowCountIs(trim, traffic[s].listing, id);
      SumWithout(counts, s);
    } else {
      forall s | s in counts
        ensures counts[s] == 0
      {
        RowCountIs(trim, traffic[s].listing, id);
        NoPlaces(trim, traffic[s].listing, id);
      }
      SumOfZeros(counts);
    }
  }

  lemma NoPlaces(trim: Trim, listing: Listing, id: string)
    ensures |Places(trim, listing, id)| > 0 <==> exists k :: k in Places(trim, listing, id)
  {
    if |Places(trim, listing, id)| > 0 {
      var k := Pick(Places(trim, listing, id));
    }
  }

  // ---- the triggers ----------------------------------------------------------

  /** `INSERT ... SELECT trim(value), delta ... ON CONFLICT DO UPDATE SET n = n + delta`, one element at a time. */
  function Tally(trim: Trim, counts: Counts, listing: Listing, delta: int): Counts {
    if listing == [] then counts
    else
      var before := Tally(trim, counts, listing[..|listing| - 1], delta);
      var last := listing[|listing| - 1];
      if last.None? then before
      else
        var id := trim(last.value);
        before[id := if id in before then before[id] + delta else delta]
  }

  lemma TallyOneMore(counts: Counts, key: string, delta: int, id: string)
    ensures CountOf(counts[key := if key in counts then counts[key] + delta else delta], id)
         == CountOf(counts, id) + if key == id then delta else 0
  {
  }

  lemma OneMoreTimes(delta: int, n: nat)
    ensures delta * (n + 1) == delta * n + delta
  {
  }

  lemma {:induction false} TallyCounts(trim: Trim, counts: Counts, listing: Listing, delta: int, id: string)
    ensures CountOf(Tally(trim, counts, listing, delta), id)
         == CountOf(counts, id) + delta * Occurrences(trim, listing, id)
  {
    if listing != [] {
      var init, last := listing[..|listing| - 1], listing[|listing| - 1];
      TallyCounts(trim, counts, init, delta, id);
      if last.Some? {
        TallyOneMore(Tally(trim, counts, init, delta), trim(last.value), delta, id);
        OneMoreTimes(delta, Occurrences(trim, init, id));
      }
    }
  }

  function OnInsert(trim: Trim, counts: Counts, now: Row): Counts {
    if now.revoked then counts else Tally(trim, counts, now.listing, 1)
  }

  function OnDelete(trim: Trim, counts: Counts, was: Row): Counts {
    if was.revoked then counts else Tally(trim, counts, was.listing, -1)
  }

  function OnUpdate(trim: Trim, counts: Counts, was: Row, now: Row): Counts {
    OnInsert(trim, OnDelete(trim, counts, was), now)
  }

  lemma OneRowMore(trim: Trim, traffic: Traffic, s: int, row: Row, id: string)
    ensures ScanCount(trim, traffic[s := row], id) == ScanCount(trim, traffic - {s}, id) + RowCount(trim, row, id)
  {
    var rest := RowCounts(trim, traffic - {s}, id);
    SumInsert(rest, s, RowCount(trim, row, id));
    assert RowCounts(trim, traffic[s := row], id) == rest[s := RowCount(trim, row, id)];
  }

  datatype Change = Insert(s: int, row: Row) | Delete(gone: int) | Update(at: int, now: Row)

  predicate Enabled(traffic: Traffic, c: Change) {
    match c
    case Insert(s, _) => s !in traffic
    case Delete(gone) => gone in traffic
    case Update(at, _) => at in traffic
  }

  function Apply(traffic: Traffic, c: Change): Traffic {
    match c
    case Insert(s, row) => traffic[s := row]
    case Delete(gone) => traffic - {gone}
    case Update(at, now) => traffic[at := now]
  }

  /** What the row's trigger does to the counts, in the same transaction. */
  function Fire(trim: Trim, traffic: Traffic, counts: Counts, c: Change): Counts
    requires Enabled(traffic, c)
  {
    match c
    case Insert(_, row) => OnInsert(trim, counts, row)
    case Delete(gone) => OnDelete(trim, counts, traffic[gone])
    case Update(at, now) => OnUpdate(trim, counts, traffic[at], now)
  }

  lemma FireKeeps(trim: Trim, traffic: Traffic, counts: Counts, c: Change)
    requires Exact(trim, traffic, counts) && Enabled(traffic, c)
    ensures Exact(trim, Apply(traffic, c), Fire(trim, traffic, counts, c))
  {
    forall id
      ensures CountOf(Fire(trim, traffic, counts, c), id) == ScanCount(trim, Apply(traffic, c), id)
    {
      match c
      case Insert(s, row) =>
        assert traffic - {s} == traffic;
        OneRowMore(trim, traffic, s, row, id);
        TallyCounts(trim, counts, row.listing, 1, id);
      case Delete(gone) =>
        assert traffic[gone := traffic[gone]] == traffic;
        OneRowMore(trim, traffic, gone, traffic[gone], id);
        TallyCounts(trim, counts, traffic[gone].listing, -1, id);
      case Update(at, now) =>
        assert traffic[at := traffic[at]] == traffic;
        OneRowMore(trim, traffic, at, traffic[at], id);
        OneRowMore(trim, traffic, at, now, id);
        TallyCounts(trim, counts, traffic[at].listing, -1, id);
        TallyCounts(trim, OnDelete(trim, counts, traffic[at]), now.listing, 1, id);
    }
  }

  ghost predicate Run(traffic: Traffic, changes: seq<Change>)
    decreases |changes|
  {
    changes == [] || (Enabled(traffic, changes[0]) && Run(Apply(traffic, changes[0]), changes[1..]))
  }

  function TrafficAfter(traffic: Traffic, changes: seq<Change>): Traffic
    decreases |changes|
  {
    if changes == [] then traffic else TrafficAfter(Apply(traffic, changes[0]), changes[1..])
  }

  ghost function CountsAfter(trim: Trim, traffic: Traffic, counts: Counts, changes: seq<Change>): Counts
    requires Run(traffic, changes)
    decreases |changes|
  {
    if changes == [] then counts
    else CountsAfter(trim, Apply(traffic, changes[0]), Fire(trim, traffic, counts, changes[0]), changes[1..])
  }

  /** After any run of inserts, deletes, revokes and edits, the counts are a scan's. */
  lemma {:induction false} EveryRunCounts(trim: Trim, traffic: Traffic, counts: Counts, changes: seq<Change>)
    requires Exact(trim, traffic, counts) && Run(traffic, changes)
    ensures Exact(trim, TrafficAfter(traffic, changes), CountsAfter(trim, traffic, counts, changes))
    decreases |changes|
  {
    if changes != [] {
      FireKeeps(trim, traffic, counts, changes[0]);
      EveryRunCounts(trim, Apply(traffic, changes[0]), Fire(trim, traffic, counts, changes[0]), changes[1..]);
    }
  }

  // ---- the backfill ----------------------------------------------------------

  /** The rows a group of identical arrays stands for. */
  ghost function Group(traffic: Traffic, listing: Listing): set<int> {
    set s | s in traffic && !traffic[s].revoked && traffic[s].listing == listing
  }

  ghost function Listings(traffic: Traffic): set<Listing> {
    set s | s in traffic && !traffic[s].revoked :: traffic[s].listing
  }

  ghost function GroupCounts(trim: Trim, traffic: Traffic, id: string): map<Listing, nat> {
    map listing | listing in Listings(traffic) :: |Group(traffic, listing)| * Occurrences(trim, listing, id)
  }

  ghost function Listed(trim: Trim, traffic: Traffic): set<string> {
    set listing: Listing, k: int | listing in Listings(traffic) && 0 <= k < |listing| && listing[k].Some? ::
        trim(listing[k].value)
  }

  /** `_SERVED_BACKFILL`: each distinct array unpacked once and weighed by how many rows hold it. */
  ghost function Backfill(trim: Trim, traffic: Traffic): Counts {
    map id | id in Listed(trim, traffic) :: Sum(GroupCounts(trim, traffic, id))
  }

  lemma {:induction false} OccursAt(trim: Trim, listing: Listing, id: string)
    ensures Occurrences(trim, listing, id) > 0
       ==> exists k :: 0 <= k < |listing| && listing[k].Some? && trim(listing[k].value) == id
  {
    if listing != [] {
      var init := listing[..|listing| - 1];
      OccursAt(trim, init, id);
      if k :| 0 <= k < |init| && init[k].Some? && trim(init[k].value) == id {
        assert listing[k] == init[k];
      }
    }
  }

  lemma {:induction false} SumOfZeros<K>(m: map<K, nat>)
    requires forall k | k in m :: m[k] == 0
    ensures Sum(m) == 0
    decreases |m|
  {
    if m != map[] {
      var k :| k in m && Sum(m) == m[k] + Sum(m - {k});
      SumOfZeros(m - {k});
    }
  }

  lemma UnlistedCountsNothing(trim: Trim, traffic: Traffic, id: string)
    requires id !in Listed(trim, traffic)
    ensures Sum(GroupCounts(trim, traffic, id)) == 0
  {
    forall listing | listing in Listings(traffic)
      ensures Occurrences(trim, listing, id) == 0
    {
      OccursAt(trim, listing, id);
    }
    SumOfZeros(GroupCounts(trim, traffic, id));
  }

  lemma InListings(traffic: Traffic, s: int)
    requires s in traffic && !traffic[s].revoked
    ensures traffic[s].listing in Listings(traffic)
  {
  }

  /** A live row joins its own group and no other. */
  lemma GroupOneMore(traffic: Traffic, s: int, row: Row, b: Listing)
    requires s !in traffic && !row.revoked
    ensures |Group(traffic[s := row], b)| == |Group(traffic, b)| + if b == row.listing then 1 else 0
    ensures b in Listings(traffic[s := row]) <==> b in Listings(traffic) || b == row.listing
    ensures b !in Listings(traffic) ==> Group(traffic, b) == {}
  {
    var now := traffic[s := row];
    if b == row.listing {
      assert Group(now, b) == Group(traffic, b) + {s};
      InListings(now, s);
    } else {
      assert Group(now, b) == Group(traffic, b);
    }
    if b in Listings(traffic) {
      var k :| k in traffic && !traffic[k].revoked && traffic[k].listing == b;
      assert now[k] == traffic[k];
      InListings(now, k);
    }
    forall k | k in Group(traffic, b)
      ensures b in Listings(traffic)
    {
      InListings(traffic, k);
    }
  }

  lemma SumRaise<K>(m: map<K, nat>, n: map<K, nat>, k: K, more: nat)
    requires n.Keys == m.Keys + {k} && n[k] == (if k in m then m[k] else 0) + more
    requires forall j | j in m && j != k :: n[j] == m[j]
    ensures Sum(n) == Sum(m) + more
  {
    assert n - {k} == m - {k};
    SumWithout(n, k);
    if k in m {
      SumWithout(m, k);
    } else {
      assert m - {k} == m;
    }
  }

  lemma WeighOneMore(n: nat, occurrences: nat)
    ensures (n + 1) * occurrences == n * occurrences + occurrences
  {
  }

  /** One live row more weighs its own array by one more. */
  lemma GroupsOneMore(trim: Trim, traffic: Traffic, s: int, row: Row, id: string)
    requires s !in traffic && !row.revoked
    ensures Sum(GroupCounts(trim, traffic[s := row], id))
         == Sum(GroupCounts(trim, traffic, id)) + Occurrences(trim, row.listing, id)
  {
    var m, n := GroupCounts(trim, traffic, id), GroupCounts(trim, traffic[s := row], id);
    forall b
      ensures b in n <==> b in m || b == row.listing
      ensures b in m && b != row.listing ==> n[b] == m[b]
    {
      GroupOneMore(traffic, s, row, b);
    }
    GroupOneMore(traffic, s, row, row.listing);
    WeighOneMore(|Group(traffic, row.listing)|, Occurrences(trim, row.listing, id));
    SumRaise(m, n, row.listing, Occurrences(trim, row.listing, id));
  }

  lemma RevokedGroupsNothing(trim: Trim, traffic: Traffic, s: int, row: Row, id: string)
    requires s !in traffic && row.revoked
    ensures GroupCounts(trim, traffic[s := row], id) == GroupCounts(trim, traffic, id)
  {
    var now := traffic[s := row];
    forall b
      ensures Group(now, b) == Group(traffic, b)
      ensures b in Listings(now) <==> b in Listings(traffic)
    {
      if b in Listings(traffic) {
        var k :| k in traffic && !traffic[k].revoked && traffic[k].listing == b;
        assert now[k].listing == b;
      }
    }
  }

  lemma {:induction false} GroupsAreRows(trim: Trim, traffic: Traffic, id: string)
    ensures Sum(GroupCounts(trim, traffic, id)) == ScanCount(trim, traffic, id)
    decreases |traffic|
  {
    if traffic == map[] {
      assert GroupCounts(trim, traffic, id) == map[];
    } else {
      var s := Pick(traffic.Keys);
      var rest, row := traffic - {s}, traffic[s];
      assert rest[s := row] == traffic == traffic[s := row];
      assert traffic.Keys == rest.Keys + {s};
      GroupsAreRows(trim, rest, id);
      OneRowMore(trim, traffic, s, row, id);
      GroupsWithRow(trim, rest, s, row, id);
    }
  }

  lemma GroupsWithRow(trim: Trim, traffic: Traffic, s: int, row: Row, id: string)
    requires s !in traffic
    ensures Sum(GroupCounts(trim, traffic[s := row], id))
         == Sum(GroupCounts(trim, traffic, id)) + RowCount(trim, row, id)
  {
    if row.revoked {
      RevokedGroupsNothing(trim, traffic, s, row, id);
    } else {
      GroupsOneMore(trim, traffic, s, row, id);
    }
  }

  /** The backfill counts what replaying the triggers over the same rows would. */
  lemma BackfillIsExact(trim: Trim, traffic: Traffic)
    ensures Exact(trim, traffic, Backfill(trim, traffic))
  {
    forall id
      ensures CountOf(Backfill(trim, traffic), id) == ScanCount(trim, traffic, id)
    {
      GroupsAreRows(trim, traffic, id);
      if id !in Listed(trim, traffic) {
        UnlistedCountsNothing(trim, traffic, id);
      }
    }
  }
}
