/** The embedding worker's consolidation: when it may skip, what it applies, and what it may not miss. */
module ConsolidationWorker {
  import opened Consolidate
  import opened TierMoves
  import opened Tables
  import opened Words

  /**
   * The store as consolidation reads it. A row's `recalls` is its `usage` counter; a ranking surface adds
   * the `traffic` rows that list the capsule.
   */
  datatype Store = Store(
    rows: map<string, Record>,
    order: seq<string>,
    traffic: seq<seq<string>>,
    watermark: nat,
    generation: nat)

  predicate Rostered(rows: map<string, Record>, order: seq<string>) {
    && Distinct(order)
    && (forall k | 0 <= k < |order| :: order[k] in rows)
    && (forall id | id in rows :: id in order && rows[id].id == id)
  }

  predicate WellFormed(s: Store) {
    Rostered(s.rows, s.order)
  }

  function Occurrences(ids: seq<string>, id: string): nat {
    multiset(ids)[id]
  }

  function Ranked(traffic: seq<seq<string>>, id: string): nat {
    if traffic == [] then 0
    else Ranked(traffic[..|traffic| - 1], id) + Occurrences(traffic[|traffic| - 1], id)
  }

  lemma {:induction false} RankedAppend(before: seq<seq<string>>, more: seq<seq<string>>, id: string)
    ensures Ranked(before + more, id) == Ranked(before, id) + Ranked(more, id)
  {
    if more == [] {
      assert before + more == before;
    } else {
      var all := before + more;
      assert all[..|all| - 1] == before + more[..|more| - 1];
      RankedAppend(before, more[..|more| - 1], id);
    }
  }

  /** `consolidation_record`: a row with its recalls of every kind. */
  function Read(s: Store, id: string): Record
    requires id in s.rows
  {
    s.rows[id].(recalls := s.rows[id].recalls + Ranked(s.traffic, id))
  }

  function ReadAll(s: Store): (records: seq<Record>)
    requires WellFormed(s)
    ensures |records| == |s.order|
  {
    seq(|s.order|, k requires 0 <= k < |s.order| => Read(s, s.order[k]))
  }

  /** Nothing to move on the present records. */
  predicate Settled(scan: Scanner, s: Store, now: int)
    requires WellFormed(s)
  {
    Plan(scan, ReadAll(s), now) == []
  }

  ghost predicate AllQuiet(scan: Scanner, s: Store, due: Option<int>)
    requires WellFormed(s)
  {
    forall id | id in s.rows :: Quiet(scan, Read(s, id), due)
  }

  lemma QuietIsSettled(scan: Scanner, s: Store, due: Option<int>, now: int)
    requires WellFormed(s) && AllQuiet(scan, s, due) && By(now, due)
    ensures Settled(scan, s, now)
  {
    PlanIsEmpty(scan, ReadAll(s), now);
  }

  // ---- other writers ---------------------------------------------------------

  /**
   * What another process commits: a row of ranking traffic, a retrieve that counts its hits, or a write that
   * journals `events` and commits `generations`, after which the tables may hold anything.
   */
  datatype Change =
    | Served(ids: seq<string>)
    | Used(retrieved: set<string>)
    | Wrote(rows: map<string, Record>, order: seq<string>, traffic: seq<seq<string>>, events: nat, generations: nat)

  /** Only recalls move neither the journal nor the generation. */
  predicate Allowed(c: Change) {
    c.Wrote? ==> Rostered(c.rows, c.order) && c.events + c.generations > 0
  }

  function Commit(s: Store, c: Change): Store {
    match c
    case Served(ids) => s.(traffic := s.traffic + [ids])
    case Used(retrieved) =>
      s.(rows := map id | id in s.rows ::
        if id in retrieved then s.rows[id].(recalls := s.rows[id].recalls + 1) else s.rows[id])
    case Wrote(rows, order, traffic, events, generations) =>
      Store(rows, order, traffic, s.watermark + events, s.generation + generations)
  }

  /** A retrieve counts one recall of each capsule it found, and touches nothing else. */
  lemma UsedCountsOne(s: Store, retrieved: set<string>, id: string)
    requires id in s.rows
    ensures
      var t := Commit(s, Used(retrieved));
      && id in t.rows && t.rows[id] == s.rows[id].(recalls := t.rows[id].recalls)
      && t.rows[id].recalls == s.rows[id].recalls + (if id in retrieved then 1 else 0)
      && t.traffic == s.traffic && t.watermark == s.watermark && t.generation == s.generation
  {
  }

  predicate AllAllowed(changes: seq<Change>) {
    forall k | 0 <= k < |changes| :: Allowed(changes[k])
  }

  function CommitAll(s: Store, changes: seq<Change>): Store
    decreases |changes|
  {
    if changes == [] then s else CommitAll(Commit(s, changes[0]), changes[1..])
  }

  /** What a cycle compares to know whether anything but a recall has landed. */
  datatype State = State(watermark: nat, generation: nat)

  function Stamp(s: Store): State {
    State(s.watermark, s.generation)
  }

  predicate Outrun(state: State, s: Store) {
    state.watermark < s.watermark || state.generation < s.generation
  }

  predicate NotBefore(s: Store, t: Store) {
    s.watermark <= t.watermark && s.generation <= t.generation
  }

  /** `t` is `s` after recalls alone. */
  ghost predicate OnlyRecalled(s: Store, t: Store) {
    && Stamp(t) == Stamp(s) && t.order == s.order && t.rows.Keys == s.rows.Keys
    && s.traffic <= t.traffic
    && forall id | id in s.rows :: Recalled(s.rows[id], t.rows[id])
  }

  /** A stamp that reads the same twice proves that only recalls landed in between. */
  lemma {:induction false} SameStampOnlyRecalls(s: Store, changes: seq<Change>)
    requires WellFormed(s) && AllAllowed(changes)
    ensures WellFormed(CommitAll(s, changes)) && NotBefore(s, CommitAll(s, changes))
    ensures Stamp(CommitAll(s, changes)) == Stamp(s) ==> OnlyRecalled(s, CommitAll(s, changes))
    decreases |changes|
  {
    if changes != [] {
      var mid := Commit(s, changes[0]);
      OneChange(s, changes[0]);
      SameStampOnlyRecalls(mid, changes[1..]);
      var t := CommitAll(s, changes);
      if Stamp(t) == Stamp(s) {
        forall id | id in s.rows
          ensures Recalled(s.rows[id], t.rows[id])
        {
          assert Recalled(s.rows[id], mid.rows[id]) && Recalled(mid.rows[id], t.rows[id]);
        }
      }
    }
  }

  lemma OneChange(s: Store, c: Change)
    requires WellFormed(s) && Allowed(c)
    ensures WellFormed(Commit(s, c)) && NotBefore(s, Commit(s, c))
    ensures Stamp(Commit(s, c)) == Stamp(s) ==> OnlyRecalled(s, Commit(s, c))
  {
    var t := Commit(s, c);
    if c.Used? {
      assert forall id | id in t.rows :: id in s.rows;
    }
  }

  lemma RecalledReads(s: Store, t: Store, id: string)
    requires WellFormed(s) && WellFormed(t) && OnlyRecalled(s, t) && id in s.rows
    ensures Recalled(Read(s, id), Read(t, id))
  {
    RankedAppend(s.traffic, t.traffic[|s.traffic|..], id);
    assert s.traffic + t.traffic[|s.traffic|..] == t.traffic;
  }

  lemma RecallsKeepAllQuiet(scan: Scanner, s: Store, t: Store, due: Option<int>)
    requires WellFormed(s) && WellFormed(t) && OnlyRecalled(s, t) && AllQuiet(scan, s, due)
    ensures AllQuiet(scan, t, due)
  {
    forall id | id in t.rows
      ensures Quiet(scan, Read(t, id), due)
    {
      RecalledReads(s, t, id);
      RecallsKeepQuiet(scan, Read(s, id), Read(t, id), due);
    }
  }

  // ---- apply_tier_moves ------------------------------------------------------

  /** The record a move is planned from again: the plan's, with what the store holds now. */
  function Present(s: Store, planned: Record, mark: nat): Record
    requires planned.id in s.rows && mark <= |s.traffic|
  {
    var row := s.rows[planned.id];
    planned.(tier := row.tier, pinned := row.pinned, superseded := row.superseded,
      supersessionArchive := row.supersessionArchive,
      recalls := planned.recalls + row.recalls + Ranked(s.traffic[mark..], planned.id))
  }

  /** The move is dropped unless its capsule is live and still planned exactly this way. */
  predicate StillPlanned(scan: Scanner, s: Store, planned: Record, mark: nat, now: int, move: TierMove)
    requires mark <= |s.traffic|
  {
    planned.id in s.rows && PlanOne(scan, Present(s, planned, mark), now) == Some(move)
  }

  /** No ranking row lists the capsule. */
  ghost predicate Unlisted(traffic: seq<seq<string>>, id: string) {
    forall k | 0 <= k < |traffic| :: id !in traffic[k]
  }

  lemma {:induction false} RankedIsZero(traffic: seq<seq<string>>, id: string)
    ensures Ranked(traffic, id) == 0 <==> Unlisted(traffic, id)
  {
    if traffic != [] {
      var init, last := traffic[..|traffic| - 1], traffic[|traffic| - 1];
      RankedIsZero(init, id);
      assert id in last <==> Occurrences(last, id) > 0;
      assert Unlisted(traffic, id) <==> Unlisted(init, id) && id !in last by {
        assert forall k | 0 <= k < |init| :: init[k] == traffic[k];
      }
    }
  }

  /** A capsule has no recall exactly if no retrieve counted it and no ranking row lists it. */
  lemma ReadCountsBoth(s: Store, id: string)
    requires id in s.rows
    ensures Read(s, id).recalls == 0 <==> s.rows[id].recalls == 0 && Unlisted(s.traffic, id)
    ensures Read(s, id) == s.rows[id].(recalls := Read(s, id).recalls)
  {
    RankedIsZero(s.traffic, id);
  }

  /** A move is still planned by the text, the taint and the dates of the plan, and the tier, the pin, the supersession
      and the archive's bond the store holds now; a stale archive, only if no recall came before the plan or since. */
  lemma StillPlannedIff(scan: Scanner, s: Store, planned: Record, mark: nat, now: int)
    requires planned.id in s.rows && mark <= |s.traffic|
    ensures
      var row, was := s.rows[planned.id], planned;
      var since := Unlisted(s.traffic[mark..], planned.id);
      && (StillPlanned(scan, s, planned, mark, now, TierMove(planned.id, Quarantined, Findings(scan(was.content)))) <==>
          was.tainted && was.imported && scan(was.content) != {} && row.tier != Quarantined)
      && (StillPlanned(scan, s, planned, mark, now, TierMove(planned.id, Active, SupersessionRevoked)) <==>
          Clean(scan, was) && row.tier == Archived && row.supersessionArchive && !row.superseded)
      && (StillPlanned(scan, s, planned, mark, now, TierMove(planned.id, Archived, Expired)) <==>
          Clean(scan, was) && row.tier == Active && row.superseded && !row.pinned && HasExpired(was, now))
      && (StillPlanned(scan, s, planned, mark, now, TierMove(planned.id, Archived, Stale)) <==>
          && Clean(scan, was) && row.tier == Active && row.superseded && !row.pinned && !HasExpired(was, now)
          && was.recalls == 0 && row.recalls == 0 && since && now - was.createdAt > 2_592_000_000_000)
  {
    var present := Present(s, planned, mark);
    RankedIsZero(s.traffic[mark..], planned.id);
    QuarantinesIff(scan, present, now);
    ArchivesIff(scan, present, now);
  }

  /** The present record counts no recall exactly when the store, read again, counts none. */
  lemma PresentIsRead(scan: Scanner, s: Store, t: Store, id: string, now: int)
    requires WellFormed(s) && WellFormed(t) && OnlyRecalled(s, t) && id in s.rows
    ensures Present(t, Read(s, id), |s.traffic|)
        == Read(t, id).(recalls := Present(t, Read(s, id), |s.traffic|).recalls)
    ensures Present(t, Read(s, id), |s.traffic|).recalls == 0 <==> Read(t, id).recalls == 0
    ensures PlanOne(scan, Present(t, Read(s, id), |s.traffic|), now) == PlanOne(scan, Read(t, id), now)
  {
    RankedAppend(s.traffic, t.traffic[|s.traffic|..], id);
    assert s.traffic + t.traffic[|s.traffic|..] == t.traffic;
    var present, read := Present(t, Read(s, id), |s.traffic|), Read(t, id);
    assert Recalled(s.rows[id], t.rows[id]);
    assert ArchiveDeadline(present) == ArchiveDeadline(read);
  }

  /** One applied move: the tier set and the move journaled; the journal then binds the archive or does not. */
  function Move(s: Store, move: TierMove, bound: bool): Store
    requires move.id in s.rows
  {
    s.(rows := s.rows[move.id := s.rows[move.id].(tier := move.to, supersessionArchive := bound)],
       watermark := s.watermark + 1)
  }

  predicate Planned(planned: map<string, Record>, moves: seq<TierMove>) {
    && (forall id | id in planned :: planned[id].id == id)
    && (forall k | 0 <= k < |moves| :: moves[k].id in planned)
    && (forall j, k | 0 <= j < k < |moves| :: moves[j].id != moves[k].id)
  }

  /** The moves the store still plans, in order. */
  function Landed(scan: Scanner, s: Store, planned: map<string, Record>, mark: nat, now: int,
                  moves: seq<TierMove>): (applied: seq<TierMove>)
    requires Planned(planned, moves) && mark <= |s.traffic|
  {
    if moves == [] then []
    else
      var move := moves[|moves| - 1];
      Landed(scan, s, planned, mark, now, moves[..|moves| - 1])
      + if StillPlanned(scan, s, planned[move.id], mark, now, move) then [move] else []
  }

  ghost predicate Holds(moves: seq<TierMove>, id: string) {
    exists k :: 0 <= k < |moves| && moves[k].id == id
  }

  lemma {:induction false} LandedHolds(scan: Scanner, s: Store, planned: map<string, Record>, mark: nat, now: int,
                                       moves: seq<TierMove>)
    requires Planned(planned, moves) && mark <= |s.traffic|
    ensures forall move :: move in Landed(scan, s, planned, mark, now, moves)
                      <==> move in moves && StillPlanned(scan, s, planned[move.id], mark, now, move)
  {
    if moves != [] {
      LandedHolds(scan, s, planned, mark, now, moves[..|moves| - 1]);
      assert moves == moves[..|moves| - 1] + [moves[|moves| - 1]];
    }
  }

  /** What applying `applied` leaves: each row moved once at most, one journal event each. */
  ghost predicate Applies(s: Store, applied: seq<TierMove>, binds: string -> bool, t: Store) {
    && t.order == s.order && t.traffic == s.traffic
    && t.watermark == s.watermark + |applied| && t.generation == s.generation
    && t.rows.Keys == s.rows.Keys
    && (forall move | move in applied :: move.id in s.rows
          && t.rows[move.id] == s.rows[move.id].(tier := move.to, supersessionArchive := binds(move.id)))
    && (forall id | id in s.rows && !Holds(applied, id) :: t.rows[id] == s.rows[id])
  }

  lemma HoldsMore(moves: seq<TierMove>, move: TierMove, id: string)
    ensures Holds(moves, id) ==> Holds(moves + [move], id)
  {
    if k :| 0 <= k < |moves| && moves[k].id == id {
      assert (moves + [move])[k].id == id;
    }
  }

  lemma AppliesOneMore(s: Store, applied: seq<TierMove>, binds: string -> bool, t: Store, move: TierMove)
    requires Applies(s, applied, binds, t) && move.id in s.rows && !Holds(applied, move.id)
    ensures Applies(s, applied + [move], binds, Move(t, move, binds(move.id)))
  {
    var u, more := Move(t, move, binds(move.id)), applied + [move];
    assert more[|applied|] == move;
    forall m | m in more
      ensures m.id in s.rows
      ensures u.rows[m.id] == s.rows[m.id].(tier := m.to, supersessionArchive := binds(m.id))
    {
      if m in applied {
        var k :| 0 <= k < |applied| && applied[k] == m;
        assert m.id != move.id;
      }
    }
    forall id | id in s.rows && !Holds(more, id)
      ensures u.rows[id] == s.rows[id]
    {
      HoldsMore(applied, move, id);
    }
  }

  lemma LandedOneMore(scan: Scanner, s: Store, planned: map<string, Record>, mark: nat, now: int, moves: seq<TierMove>,
                      k: nat)
    requires Planned(planned, moves) && mark <= |s.traffic| && k < |moves|
    ensures Landed(scan, s, planned, mark, now, moves[..k + 1])
         == Landed(scan, s, planned, mark, now, moves[..k])
            + if StillPlanned(scan, s, planned[moves[k].id], mark, now, moves[k]) then [moves[k]] else []
  {
    assert moves[..k + 1][..k] == moves[..k];
  }

  /** None of the moves from `k` on is of a capsule already moved. */
  ghost predicate NoneOf(applied: seq<TierMove>, moves: seq<TierMove>, k: nat) {
    forall j | k <= j < |moves| :: !Holds(applied, moves[j].id)
  }

  lemma HoldsNoOther(applied: seq<TierMove>, move: TierMove, moves: seq<TierMove>, k: nat)
    requires NoneOf(applied, moves, k) && k < |moves| && moves[k] == move
    requires forall i, j | 0 <= i < j < |moves| :: moves[i].id != moves[j].id
    ensures NoneOf(applied + [move], moves, k + 1)
  {
    forall j | k + 1 <= j < |moves|
      ensures !Holds(applied + [move], moves[j].id)
    {
      HoldsLast(applied, move, moves[j].id);
    }
  }

  lemma HoldsLast(applied: seq<TierMove>, move: TierMove, id: string)
    ensures Holds(applied + [move], id) ==> Holds(applied, id) || move.id == id
  {
  }

  /** The stamp as a cycle reads it, the generation after what landed `between` the two reads. */
  function StampRead(s: Store, between: seq<Change>): State {
    State(s.watermark, CommitAll(s, between).generation)
  }

  /** Whether the cycle sees nothing to do. */
  predicate Skips(state: Option<State>, due: Option<int>, s: Store, between: seq<Change>, now: int) {
    state == Some(StampRead(s, between)) && By(now, due)
  }

  /** Alone with the store, a cycle skips exactly when it remembers the journal and the generation it reads and no due
      time it remembers has passed. */
  lemma SkipsIff(state: Option<State>, due: Option<int>, s: Store, now: int)
    ensures Skips(state, due, s, [], now) <==>
      state == Some(State(s.watermark, s.generation)) && (due.None? || now <= due.value)
    ensures Stamp(s) == State(s.watermark, s.generation)
  {
  }

  datatype Outcome = NotOwner | Skipped | Deferred | Acted(applied: seq<TierMove>)

  class EmbeddingWorker {
    const scan: Scanner
    var store: Store
    var consolidatedState: Option<State>
    var consolidationDue: Option<int>

    /** The stamp remembered is never ahead of the store. */
    ghost predicate Valid()
      reads this
    {
      && WellFormed(store)
      && (consolidatedState.Some? ==>
            && consolidatedState.value.watermark <= store.watermark
            && consolidatedState.value.generation <= store.generation)
    }

    /** Where the stamp remembered is current, nothing moves before `due`. */
    ghost predicate Trusted()
      requires WellFormed(store)
      reads this
    {
      consolidatedState == Some(Stamp(store)) ==> AllQuiet(scan, store, consolidationDue)
    }

    constructor (scan: Scanner, store: Store)
      requires WellFormed(store)
      ensures Valid() && Trusted() && this.store == store && this.scan == scan && consolidatedState == None
    {
      this.scan, this.store := scan, store;
      consolidatedState, consolidationDue := None, None;
    }

    /** What other processes commit while this one is between two of its own statements. */
    method Others(changes: seq<Change>)
      requires Valid() && AllAllowed(changes)
      modifies this`store
      ensures Valid() && store == CommitAll(old(store), changes) && NotBefore(old(store), store)
      ensures old(Trusted()) ==> Trusted()
    {
      SameStampOnlyRecalls(store, changes);
      ghost var was := store;
      store := CommitAll(store, changes);
      if consolidatedState == Some(Stamp(store)) && AllQuiet(scan, was, consolidationDue) {
        RecallsKeepAllQuiet(scan, was, store, consolidationDue);
      }
    }

    /** `apply_tier_moves`. */
    method ApplyTierMoves(planned: map<string, Record>, moves: seq<TierMove>, mark: nat, now: int,
                          binds: string -> bool)
      returns (applied: seq<TierMove>)
      requires Planned(planned, moves) && mark <= |store.traffic|
      modifies this`store
      ensures applied == Landed(scan, old(store), planned, mark, now, moves)
      ensures Applies(old(store), applied, binds, store)
    {
      var entry := store;
      applied := [];
      for k := 0 to |moves|
        invariant Applies(entry, applied, binds, store)
        invariant applied == Landed(scan, entry, planned, mark, now, moves[..k])
        invariant NoneOf(applied, moves, k)
      {
        var move := moves[k];
        LandedOneMore(scan, entry, planned, mark, now, moves, k);
        if move.id in store.rows {
          assert store.rows[move.id] == entry.rows[move.id];
          var present := Present(entry, planned[move.id], mark).(tier := store.rows[move.id].tier);
          if PlanOne(scan, present, now) == Some(move) {
            AppliesOneMore(entry, applied, binds, store, move);
            HoldsNoOther(applied, move, moves, k);
            store := Move(store, move, binds(move.id));
            applied := applied + [move];
          }
        }
      }
      assert moves[..|moves|] == moves;
    }

    /** The earliest deadline among the records that did not move. */
    method Due(records: seq<Record>, moved: set<string>) returns (due: Option<int>)
      ensures IsDue(records, moved, due)
    {
      due := None;
      for k := 0 to |records|
        invariant IsDue(records[..k], moved, due)
      {
        TakeOneMore(records, k);
        if records[k].id !in moved {
          DueOneMore(records[..k], moved, due, records[k]);
          due := Earliest(due, ArchiveDeadline(records[k]));
        }
      }
      assert records[..|records|] == records;
    }

    /**
     * `_consolidate`. Others commit `between` the two reads of the stamp, `early` between the stamp and the snapshot,
     * `late` between the snapshot and the write lock, and `after` between the commit and the fields this cycle leaves.
     */
    method Consolidate(owner: bool, now: int, binds: string -> bool,
                       between: seq<Change>, early: seq<Change>, late: seq<Change>, after: seq<Change>)
      returns (outcome: Outcome)
      requires Valid() && AllAllowed(between) && AllAllowed(early) && AllAllowed(late) && AllAllowed(after)
      modifies this
      ensures Valid()
      ensures old(Trusted()) || outcome.Acted? ==> Trusted()
      ensures outcome == NotOwner <==> !owner
      ensures outcome == NotOwner ==> store == old(store)
      ensures outcome == Skipped <==>
                owner && Skips(old(consolidatedState), old(consolidationDue), old(store), between, now)
      ensures outcome == Skipped ==>
                store == CommitAll(old(store), between) && (old(Trusted()) ==> Settled(scan, old(store), now))
      ensures outcome == Deferred ==>
                && store == CommitAll(CommitAll(CommitAll(old(store), between), early), late)
                && Stamp(store) != Stamp(old(store))
      ensures !outcome.Acted? ==>
                consolidatedState == old(consolidatedState) && consolidationDue == old(consolidationDue)
      ensures outcome.Acted? ==>
                Acts(scan, CommitAll(CommitAll(old(store), between), early), late, after, now, binds, outcome.applied,
                     store, consolidatedState, consolidationDue)
    {
      if !owner {
        return NotOwner;
      }
      ghost var trusted := Trusted();
      var watermark := store.watermark;
      Others(between);
      var state := State(watermark, store.generation);
      if consolidatedState == Some(state) && By(now, consolidationDue) {
        if trusted {
          QuietIsSettled(scan, old(store), consolidationDue, now);
        }
        return Skipped;
      }
      outcome := ConsolidateSince(state, now, binds, early, late, after);
    }

    /** The boundary of one cycle, from the stamp it read to the fields it leaves. */
    method ConsolidateSince(state: State, now: int, binds: string -> bool, early: seq<Change>, late: seq<Change>,
                            after: seq<Change>)
      returns (outcome: Outcome)
      requires Valid() && AllAllowed(early) && AllAllowed(late) && AllAllowed(after)
      requires state.watermark <= store.watermark && state.generation == store.generation
      modifies this
      ensures Valid()
      ensures old(Trusted()) || outcome.Acted? ==> Trusted()
      ensures outcome.Deferred? || outcome.Acted?
      ensures outcome == Deferred ==>
                && store == CommitAll(CommitAll(old(store), early), late)
                && Outrun(state, store)
                && consolidatedState == old(consolidatedState) && consolidationDue == old(consolidationDue)
      ensures outcome.Acted? ==>
                Acts(scan, CommitAll(old(store), early), late, after, now, binds, outcome.applied,
                     store, consolidatedState, consolidationDue)
    {
      Others(early);
      outcome := ConsolidateHere(state, now, binds, late, after);
    }

    /** The boundary of one cycle, from its snapshot. */
    method ConsolidateHere(state: State, now: int, binds: string -> bool, late: seq<Change>, after: seq<Change>)
      returns (outcome: Outcome)
      requires Valid() && AllAllowed(late) && AllAllowed(after)
      requires state.watermark <= store.watermark && state.generation <= store.generation
      modifies this
      ensures Valid()
      ensures old(Trusted()) || outcome.Acted? ==> Trusted()
      ensures outcome.Deferred? || outcome.Acted?
      ensures outcome == Deferred ==>
                && store == CommitAll(old(store), late) && Outrun(state, store)
                && consolidatedState == old(consolidatedState) && consolidationDue == old(consolidationDue)
      ensures outcome.Acted? ==>
                Acts(scan, old(store), late, after, now, binds, outcome.applied,
                     store, consolidatedState, consolidationDue)
    {
      ghost var s := store;
      var mark, planned, records := |store.traffic|, ById(store), ReadAll(store);
      var moves := ProtectiveTierMoves(scan, records, now);
      if moves == [] {
        if state != Stamp(store) {
          assert Outrun(state, store);
          Others(late);
          return Deferred;
        }
        FindNothing(records, now, binds, late, after);
        return Acted([]);
      }
      Others(late);
      if state != Stamp(store) {
        assert Outrun(state, store);
        return Deferred;
      }
      SameStampOnlyRecalls(s, late);
      var applied := ApplyUnderLock(s, state, records, planned, moves, mark, now, binds, late, after);
      return Acted(applied);
    }

    /** Nothing planned: no lock is taken, and the stamp kept is the snapshot's own. */
    method FindNothing(records: seq<Record>, now: int, binds: string -> bool, late: seq<Change>, after: seq<Change>)
      requires Valid() && AllAllowed(late) && AllAllowed(after)
      requires records == ReadAll(store) && Plan(scan, records, now) == []
      modifies this
      ensures Valid() && Trusted()
      ensures Acts(scan, old(store), late, after, now, binds, [], store, consolidatedState, consolidationDue)
    {
      ghost var s := store;
      var due := Due(records, {});
      PlanOfStore(scan, s, now);
      assert Pass(scan, s, s, s, now, binds, []) by {
        forall move
          ensures !Calls(scan, s, now, move)
        {
          assert move in Plan(scan, records, now) <==> Calls(scan, s, now, move);
        }
      }
      PassIsAFixpoint(scan, s, s, s, now, binds, [], due);
      Remember(Stamp(store), false, due, late + after);
      FoundNothing(scan, s, late, after, now, binds, store, consolidatedState, consolidationDue);
    }

    method ApplyUnderLock(ghost s: Store, state: State, records: seq<Record>, planned: map<string, Record>,
                          moves: seq<TierMove>,
                          mark: nat, now: int, binds: string -> bool, ghost late: seq<Change>, after: seq<Change>)
      returns (applied: seq<TierMove>)
      requires Valid() && WellFormed(s) && OnlyRecalled(s, store) && store == CommitAll(s, late) && AllAllowed(after)
      requires records == ReadAll(s) && planned == ById(s) && mark == |s.traffic| && moves == Plan(scan, records, now)
      requires moves != [] && state == Stamp(store)
      modifies this
      ensures Valid() && Trusted()
      ensures Acts(scan, s, late, after, now, binds, applied, store, consolidatedState, consolidationDue)
    {
      ghost var t := store;
      PlanOfStore(scan, s, now);
      applied := ApplyTierMoves(planned, moves, mark, now, binds);
      ghost var u := store;
      var due := Due(records, Moved(applied));
      CommitIsQuiet(scan, s, t, u, now, binds, applied, due);
      Remember(state, |applied| > 0, due, after);
      Locked(scan, s, t, u, late, after, now, binds, applied, store, consolidatedState, consolidationDue);
    }

    /**
     * The boundary commits, and the cycle leaves its fields: the journal mark read inside the boundary, and the
     * generation its commit makes. Whatever lands after the commit shows in the stamp.
     */
    method Remember(state: State, changed: bool, due: Option<int>, after: seq<Change>)
      requires WellFormed(store) && AllAllowed(after) && state.generation == store.generation
      requires AllQuiet(scan, store, due)
      modifies this
      ensures Valid() && Trusted() && store == CommitAll(Closed(old(store), changed), after)
      ensures consolidatedState == Some(Stamp(Closed(old(store), changed))) && consolidationDue == due
    {
      var settled := store.watermark;
      ClosedStaysQuiet(scan, store, changed, due);
      store := Closed(store, changed);
      SameStampOnlyRecalls(store, after);
      ghost var was := store;
      store := CommitAll(store, after);
      consolidatedState := Some(State(settled, state.generation + if changed then 1 else 0));
      consolidationDue := due;
      if Stamp(store) == Stamp(was) {
        RecallsKeepAllQuiet(scan, was, store, due);
      }
    }
  }

  ghost predicate IsDue(records: seq<Record>, moved: set<string>, due: Option<int>) {
    && (forall r | r in records && r.id !in moved :: Reaches(ArchiveDeadline(r), due))
    && (due.Some? ==> exists r :: r in records && r.id !in moved && ArchiveDeadline(r) == due)
  }

  lemma DueOneMore(records: seq<Record>, moved: set<string>, due: Option<int>, r: Record)
    requires IsDue(records, moved, due) && r.id !in moved
    ensures IsDue(records + [r], moved, Earliest(due, ArchiveDeadline(r)))
  {
    assert r in records + [r];
    if due.Some? {
      var q :| q in records && q.id !in moved && ArchiveDeadline(q) == due;
      assert q in records + [r];
    }
  }

  // ---- one cycle -------------------------------------------------------------

  function ById(s: Store): (planned: map<string, Record>)
    requires WellFormed(s)
    ensures planned.Keys == s.rows.Keys
  {
    map id | id in s.rows :: Read(s, id)
  }

  ghost predicate DistinctIds(records: seq<Record>) {
    forall j, k | 0 <= j < k < |records| :: records[j].id != records[k].id
  }

  /** A planned move is some record's. */
  lemma PlanHoldsRecord(scan: Scanner, records: seq<Record>, now: int, id: string)
    requires Holds(Plan(scan, records, now), id)
    ensures exists k :: 0 <= k < |records| && records[k].id == id
  {
    var moves := Plan(scan, records, now);
    var j :| 0 <= j < |moves| && moves[j].id == id;
    PlanHolds(scan, records, now, moves[j]);
  }

  lemma {:induction false} PlanIsPlanned(scan: Scanner, s: Store, records: seq<Record>, now: int)
    requires WellFormed(s) && DistinctIds(records) && forall k | 0 <= k < |records| :: records[k].id in s.rows
    ensures Planned(ById(s), Plan(scan, records, now))
  {
    if records != [] {
      var init, r := records[..|records| - 1], records[|records| - 1];
      assert forall k | 0 <= k < |init| :: init[k] == records[k];
      PlanIsPlanned(scan, s, init, now);
      var moves := Plan(scan, init, now);
      forall j | 0 <= j < |moves|
        ensures moves[j].id != r.id
      {
        PlanHoldsRecord(scan, init, now, moves[j].id);
      }
    }
  }

  /** The move the store, read whole, plans for this capsule. */
  predicate Calls(scan: Scanner, s: Store, now: int, move: TierMove) {
    move.id in s.rows && PlanOne(scan, Read(s, move.id), now) == Some(move)
  }

  lemma PlanOfStore(scan: Scanner, s: Store, now: int)
    requires WellFormed(s)
    ensures Planned(ById(s), Plan(scan, ReadAll(s), now))
    ensures forall move :: move in Plan(scan, ReadAll(s), now) <==> Calls(scan, s, now, move)
  {
    var records := ReadAll(s);
    assert DistinctIds(records) by {
      forall j, k | 0 <= j < k < |records|
        ensures records[j].id != records[k].id
      {
        assert s.order[j] != s.order[k];
      }
    }
    PlanIsPlanned(scan, s, records, now);
    forall move
      ensures move in Plan(scan, records, now) <==> Calls(scan, s, now, move)
    {
      PlanHolds(scan, records, now, move);
      if Calls(scan, s, now, move) {
        var k :| 0 <= k < |s.order| && s.order[k] == move.id;
        assert records[k] == Read(s, move.id);
      }
    }
  }

  /** Under an unchanged stamp, the moves that land are exactly those both the snapshot and the present plan. */
  lemma LandedIsPlannedTwice(scan: Scanner, s: Store, t: Store, now: int, move: TierMove)
    requires WellFormed(s) && WellFormed(t) && OnlyRecalled(s, t)
    requires Planned(ById(s), Plan(scan, ReadAll(s), now))
    ensures move in Landed(scan, t, ById(s), |s.traffic|, now, Plan(scan, ReadAll(s), now))
       <==> Calls(scan, s, now, move) && Calls(scan, t, now, move)
  {
    PlanOfStore(scan, s, now);
    LandedHolds(scan, t, ById(s), |s.traffic|, now, Plan(scan, ReadAll(s), now));
    if move.id in s.rows {
      PresentIsRead(scan, s, t, move.id, now);
    }
  }

  function Moved(applied: seq<TierMove>): set<string> {
    set move | move in applied :: move.id
  }

  lemma MovedHolds(applied: seq<TierMove>, id: string)
    ensures id in Moved(applied) <==> Holds(applied, id)
  {
    if id in Moved(applied) {
      var move :| move in applied && move.id == id;
    }
    if k :| 0 <= k < |applied| && applied[k].id == id {
      assert applied[k] in applied;
    }
  }

  /** A pass over the snapshot `s`, applied under the lock to `t`, leaves `u`. */
  ghost predicate Pass(scan: Scanner, s: Store, t: Store, u: Store, now: int, binds: string -> bool,
                       applied: seq<TierMove>)
  {
    && WellFormed(s) && WellFormed(t) && WellFormed(u) && OnlyRecalled(s, t)
    && Applies(t, applied, binds, u)
    && forall move :: move in applied <==> Calls(scan, s, now, move) && Calls(scan, t, now, move)
  }

  lemma AppliesKeepsShape(s: Store, applied: seq<TierMove>, binds: string -> bool, t: Store)
    requires WellFormed(s) && Applies(s, applied, binds, t)
    ensures WellFormed(t)
  {
    forall id | id in t.rows
      ensures t.rows[id].id == id
    {
      if Holds(applied, id) {
        var k :| 0 <= k < |applied| && applied[k].id == id;
        assert applied[k] in applied;
      }
    }
  }

  lemma LandedMakesPass(scan: Scanner, s: Store, t: Store, u: Store, now: int, binds: string -> bool,
                        applied: seq<TierMove>)
    requires WellFormed(s) && WellFormed(t) && OnlyRecalled(s, t) && Applies(t, applied, binds, u)
    requires Planned(ById(s), Plan(scan, ReadAll(s), now))
    requires applied == Landed(scan, t, ById(s), |s.traffic|, now, Plan(scan, ReadAll(s), now))
    ensures Pass(scan, s, t, u, now, binds, applied)
  {
    AppliesKeepsShape(t, applied, binds, u);
    forall move
      ensures move in applied <==> Calls(scan, s, now, move) && Calls(scan, t, now, move)
    {
      LandedIsPlannedTwice(scan, s, t, now, move);
    }
  }

  lemma MovedRowIsQuiet(scan: Scanner, s: Store, t: Store, u: Store, now: int, binds: string -> bool,
                        applied: seq<TierMove>, id: string)
    requires Pass(scan, s, t, u, now, binds, applied) && id in u.rows && Holds(applied, id)
    ensures Quiet(scan, Read(u, id), None)
  {
    var k :| 0 <= k < |applied| && applied[k].id == id;
    var move := applied[k];
    assert move in applied;
    assert Calls(scan, t, now, move);
    MovedIsQuiet(scan, Read(t, id), now, binds(id));
    assert Read(u, id) == Read(t, id).(tier := move.to, supersessionArchive := binds(id));
  }

  /** The tier a pass leaves each row in, by what the snapshot and the locked store say of it. */
  lemma TierLeft(scan: Scanner, s: Store, t: Store, u: Store, now: int, binds: string -> bool,
                 applied: seq<TierMove>, id: string)
    requires Pass(scan, s, t, u, now, binds, applied) && id in t.rows
    ensures var was, r := Read(s, id), Read(t, id);
            u.rows[id].tier ==
            if !Clean(scan, r) then Quarantined
            else if r.tier == Archived && r.supersessionArchive && !r.superseded then Active
            else if Archivable(scan, r) && HasExpired(r, now) then Archived
            else if Archivable(scan, r) && WentStale(was, now) && WentStale(r, now) then Archived
            else r.tier
  {
    RecalledReads(s, t, id);
    TierAfter(scan, Read(s, id), now);
    TierAfter(scan, Read(t, id), now);
    if Holds(applied, id) {
      var k :| 0 <= k < |applied| && applied[k].id == id;
      assert applied[k] in applied;
      assert Calls(scan, s, now, applied[k]) && Calls(scan, t, now, applied[k]);
    } else if PlanOne(scan, Read(s, id), now) == PlanOne(scan, Read(t, id), now) != None {
      PlannedTwiceLands(scan, s, t, u, now, binds, applied, id);
    }
  }

  lemma PlannedTwiceLands(scan: Scanner, s: Store, t: Store, u: Store, now: int, binds: string -> bool,
                          applied: seq<TierMove>, id: string)
    requires Pass(scan, s, t, u, now, binds, applied) && id in s.rows && id in t.rows
    requires PlanOne(scan, Read(t, id), now).Some? && PlanOne(scan, Read(s, id), now) == PlanOne(scan, Read(t, id), now)
    ensures Holds(applied, id)
  {
    var move := PlanOne(scan, Read(t, id), now).value;
    assert Calls(scan, s, now, move) && Calls(scan, t, now, move);
    assert move in applied;
    var j :| 0 <= j < |applied| && applied[j] == move;
  }

  lemma PressingLands(scan: Scanner, s: Store, t: Store, u: Store, now: int, binds: string -> bool,
                      applied: seq<TierMove>, id: string)
    requires Pass(scan, s, t, u, now, binds, applied) && id in s.rows && Pressing(scan, Read(s, id))
    ensures Holds(applied, id)
  {
    RecalledReads(s, t, id);
    var move := PlanOne(scan, Read(s, id), now).value;
    assert Calls(scan, s, now, move) && Calls(scan, t, now, move);
    assert move in applied;
    var j :| 0 <= j < |applied| && applied[j] == move;
  }

  lemma KeptRowIsQuiet(scan: Scanner, s: Store, t: Store, u: Store, now: int, binds: string -> bool,
                       applied: seq<TierMove>, due: Option<int>, id: string)
    requires Pass(scan, s, t, u, now, binds, applied) && id in u.rows && !Holds(applied, id)
    requires IsDue(ReadAll(s), Moved(applied), due)
    ensures Quiet(scan, Read(u, id), due)
  {
    var p, q := Read(s, id), Read(t, id);
    assert Read(u, id) == q;
    RecalledReads(s, t, id);
    MovedHolds(applied, id);
    var k :| 0 <= k < |s.order| && s.order[k] == id;
    assert ReadAll(s)[k] == p;
    if Pressing(scan, p) {
      PressingLands(scan, s, t, u, now, binds, applied, id);
    } else {
      QuietIff(scan, p, due);
      RecallsKeepQuiet(scan, p, q, due);
    }
  }

  /** What a pass leaves calls for no move up to the due time it sets: an applied pass is a fixpoint. */
  lemma PassIsAFixpoint(scan: Scanner, s: Store, t: Store, u: Store, now: int, binds: string -> bool,
                        applied: seq<TierMove>, due: Option<int>)
    requires Pass(scan, s, t, u, now, binds, applied) && IsDue(ReadAll(s), Moved(applied), due)
    ensures AllQuiet(scan, u, due)
  {
    forall id | id in u.rows
      ensures Quiet(scan, Read(u, id), due)
    {
      if Holds(applied, id) {
        MovedRowIsQuiet(scan, s, t, u, now, binds, applied, id);
        assert forall at: int | By(at, due) :: By(at, None);
      } else {
        KeptRowIsQuiet(scan, s, t, u, now, binds, applied, due, id);
      }
    }
  }

  /** The commit of a boundary that declared a write: a generation, if it changed a row. */
  function Closed(s: Store, changed: bool): (closed: Store)
    ensures closed.generation == s.generation + if changed then 1 else 0
    ensures closed == s.(generation := closed.generation)
  {
    if changed then s.(generation := s.generation + 1) else s
  }

  lemma ClosedStaysQuiet(scan: Scanner, u: Store, changed: bool, due: Option<int>)
    requires WellFormed(u) && AllQuiet(scan, u, due)
    ensures WellFormed(Closed(u, changed)) && AllQuiet(scan, Closed(u, changed), due)
  {
    forall id | id in u.rows
      ensures Quiet(scan, Read(Closed(u, changed), id), due)
    {
      assert Read(Closed(u, changed), id) == Read(u, id);
    }
  }

  ghost predicate Passed(scan: Scanner, s: Store, t: Store, u: Store, now: int, binds: string -> bool,
                         applied: seq<TierMove>, state: Option<State>, due: Option<int>)
  {
    && Pass(scan, s, t, u, now, binds, applied)
    && Planned(ById(s), Plan(scan, ReadAll(s), now))
    && applied == Landed(scan, t, ById(s), |s.traffic|, now, Plan(scan, ReadAll(s), now))
    && state == Some(Stamp(Closed(u, |applied| > 0)))
    && IsDue(ReadAll(s), Moved(applied), due)
  }

  /**
   * A cycle over the snapshot `s`: the store it locked, if it planned a move, what it applied there in the plan's
   * order, the store it left after everyone's commits, and the fields it left.
   */
  ghost predicate Acts(scan: Scanner, s: Store, late: seq<Change>, after: seq<Change>, now: int, binds: string -> bool,
                       applied: seq<TierMove>, left: Store, state: Option<State>, due: Option<int>)
  {
    WellFormed(s) &&
    if Settled(scan, s, now) then
      Passed(scan, s, s, s, now, binds, applied, state, due) && left == CommitAll(s, late + after)
    else
      exists u :: Passed(scan, s, CommitAll(s, late), u, now, binds, applied, state, due)
                  && left == CommitAll(Closed(u, |applied| > 0), after)
  }

  lemma CommitIsQuiet(scan: Scanner, s: Store, t: Store, u: Store, now: int, binds: string -> bool,
                      applied: seq<TierMove>, due: Option<int>)
    requires WellFormed(s) && WellFormed(t) && OnlyRecalled(s, t) && Applies(t, applied, binds, u)
    requires Planned(ById(s), Plan(scan, ReadAll(s), now))
    requires applied == Landed(scan, t, ById(s), |s.traffic|, now, Plan(scan, ReadAll(s), now))
    requires IsDue(ReadAll(s), Moved(applied), due)
    ensures Pass(scan, s, t, u, now, binds, applied)
    ensures WellFormed(u) && AllQuiet(scan, u, due) && u.generation == t.generation
  {
    LandedMakesPass(scan, s, t, u, now, binds, applied);
    PassIsAFixpoint(scan, s, t, u, now, binds, applied, due);
  }

  lemma FoundNothing(scan: Scanner, s: Store, late: seq<Change>, after: seq<Change>, now: int, binds: string -> bool,
                     left: Store, state: Option<State>, due: Option<int>)
    requires WellFormed(s) && Settled(scan, s, now) && Pass(scan, s, s, s, now, binds, [])
    requires left == CommitAll(s, late + after) && state == Some(Stamp(s)) && IsDue(ReadAll(s), Moved([]), due)
    ensures Acts(scan, s, late, after, now, binds, [], left, state, due)
  {
    PlanOfStore(scan, s, now);
  }

  lemma Locked(scan: Scanner, s: Store, t: Store, u: Store, late: seq<Change>, after: seq<Change>, now: int,
               binds: string -> bool, applied: seq<TierMove>, left: Store, state: Option<State>, due: Option<int>)
    requires WellFormed(s) && !Settled(scan, s, now) && t == CommitAll(s, late)
    requires Passed(scan, s, t, u, now, binds, applied, state, due)
    requires left == CommitAll(Closed(u, |applied| > 0), after)
    ensures Acts(scan, s, late, after, now, binds, applied, left, state, due)
  {
  }

  /** With the stamp unchanged, a planned move is dropped exactly when it archives for disuse and a recall came. */
  lemma DroppedIffRecalled(scan: Scanner, s: Store, t: Store, now: int, move: TierMove)
    requires WellFormed(s) && WellFormed(t) && OnlyRecalled(s, t) && Calls(scan, s, now, move)
    ensures !Calls(scan, t, now, move) <==> move.reason == Stale && Read(t, move.id).recalls > 0
  {
    RecalledReads(s, t, move.id);
  }

  // ---- recalls that fall -----------------------------------------------------

  /** `t` is `s` but for recalls, which may have been taken back. */
  ghost predicate OnlyRecounted(s: Store, t: Store) {
    && t.order == s.order && t.rows.Keys == s.rows.Keys
    && forall id | id in s.rows :: t.rows[id] == s.rows[id].(recalls := t.rows[id].recalls)
  }

  /** The last recall that held this record in place was taken back, and its age archives it. */
  predicate Released(scan: Scanner, was: Record, r: Record, now: int) {
    && was.recalls > 0 && r.recalls == 0
    && r.superseded && r.tier == Active && !r.pinned && !Suspect(scan, r) && r.createdAt + ARCHIVE_AFTER < now
  }

  lemma MovesIffReleased(scan: Scanner, was: Record, r: Record, due: Option<int>, now: int)
    requires r == was.(recalls := r.recalls) && Quiet(scan, was, due) && By(now, due)
    ensures PlanOne(scan, r, now).Some? <==> Released(scan, was, r, now)
  {
    assert PlanOne(scan, was, now) == None;
  }

  /** Whatever happened to the recalls, a store once quiet is still settled exactly when no such record was released. */
  lemma SettledIffNoneReleased(scan: Scanner, s: Store, t: Store, due: Option<int>, now: int)
    requires WellFormed(s) && WellFormed(t) && AllQuiet(scan, s, due) && By(now, due) && OnlyRecounted(s, t)
    ensures Settled(scan, t, now) <==> forall id | id in s.rows :: !Released(scan, Read(s, id), Read(t, id), now)
  {
    var records := ReadAll(t);
    PlanIsEmpty(scan, records, now);
    forall id | id in s.rows
      ensures PlanOne(scan, Read(t, id), now).Some? <==> Released(scan, Read(s, id), Read(t, id), now)
    {
      MovesIffReleased(scan, Read(s, id), Read(t, id), due, now);
    }
    forall id | id in s.rows && Settled(scan, t, now)
      ensures PlanOne(scan, Read(t, id), now) == None
    {
      var k :| 0 <= k < |t.order| && t.order[k] == id;
      assert records[k] == Read(t, id);
    }
  }

  lemma NothingPlanned(scan: Scanner, s: Store, now: int)
    requires WellFormed(s) && forall id | id in s.rows :: PlanOne(scan, Read(s, id), now) == None
    ensures Settled(scan, s, now)
  {
    PlanIsEmpty(scan, ReadAll(s), now);
  }

  lemma NoneDue(s: Store, moved: set<string>, due: Option<int>)
    requires WellFormed(s) && IsDue(ReadAll(s), moved, due)
    requires forall id | id in s.rows :: ArchiveDeadline(Read(s, id)) == None
    ensures due == None
  {
    assert forall r | r in ReadAll(s) :: ArchiveDeadline(r) == None;
  }

  /** A cycle over a store that has nothing to move, now or later, leaves that store's stamp and no due time. */
  lemma QuietCycle(scan: Scanner, s: Store, now: int, binds: string -> bool, applied: seq<TierMove>, left: Store,
                   state: Option<State>, due: Option<int>)
    requires WellFormed(s) && Acts(scan, s, [], [], now, binds, applied, left, state, due)
    requires forall id | id in s.rows :: PlanOne(scan, Read(s, id), now) == None && ArchiveDeadline(Read(s, id)) == None
    ensures applied == [] && left == s && state == Some(Stamp(s)) && due == None
  {
    NothingPlanned(scan, s, now);
    NoneDue(s, Moved(applied), due);
  }

  /**
   * One recall holds an old superseded capsule; a cycle finds nothing to do; the recall's row is then revoked in the
   * database, which moves neither mark. The next cycle skips, with the capsule due for the archive.
   */
  method RevokedRecallIsMissed(scan: Scanner, r: Record, now: int, binds: string -> bool)
    returns (first: Outcome, second: Outcome, revoked: Store)
    requires !Suspect(scan, r) && r.tier == Active && r.superseded && !r.pinned
    requires r.validTo == None && r.recalls == 0 && r.createdAt + ARCHIVE_AFTER < now
    ensures first == Acted([]) && second == Skipped
    ensures WellFormed(revoked) && revoked.rows == map[r.id := r] && revoked.traffic == []
        && !Settled(scan, revoked, now)
  {
    var recalled := Store(map[r.id := r], [r.id], [[r.id]], 0, 0);
    revoked := recalled.(traffic := []);
    RecallHolds(scan, recalled, r, now);
    var worker := new EmbeddingWorker(scan, recalled);
    first := FirstCycle(worker, recalled, now, binds);
    worker.store := revoked;
    second := SecondCycle(worker, now, binds);
    RevokedMoves(scan, revoked, r, now);
  }

  method SecondCycle(worker: EmbeddingWorker, now: int, binds: string -> bool) returns (outcome: Outcome)
    requires worker.Valid() && worker.consolidatedState == Some(Stamp(worker.store)) && By(now, worker.consolidationDue)
    modifies worker
    ensures outcome == Skipped
  {
    outcome := worker.Consolidate(true, now, binds, [], [], [], []);
  }

  method FirstCycle(worker: EmbeddingWorker, ghost s: Store, now: int, binds: string -> bool) returns (outcome: Outcome)
    requires worker.Valid() && worker.store == s && worker.consolidatedState == None
    requires forall id | id in s.rows ::
               PlanOne(worker.scan, Read(s, id), now) == None && ArchiveDeadline(Read(s, id)) == None
    modifies worker
    ensures outcome == Acted([]) && worker.consolidatedState == Some(Stamp(s)) && worker.consolidationDue == None
  {
    outcome := worker.Consolidate(true, now, binds, [], [], [], []);
    QuietCycle(worker.scan, s, now, binds, outcome.applied, worker.store,
               worker.consolidatedState, worker.consolidationDue);
  }

  lemma RecallHolds(scan: Scanner, s: Store, r: Record, now: int)
    requires s.rows == map[r.id := r] && s.order == [r.id] && s.traffic == [[r.id]]
    requires !Suspect(scan, r) && r.tier == Active && r.validTo == None && r.recalls == 0
    ensures WellFormed(s) && forall id | id in s.rows ::
              PlanOne(scan, Read(s, id), now) == None && ArchiveDeadline(Read(s, id)) == None
  {
    assert s.traffic[..0] == [];
    assert Ranked(s.traffic, r.id) == Ranked([], r.id) + Occurrences([r.id], r.id);
    assert Read(s, r.id) == r.(recalls := 1);
  }

  lemma RevokedMoves(scan: Scanner, s: Store, r: Record, now: int)
    requires WellFormed(s) && s.rows == map[r.id := r] && s.order == [r.id] && s.traffic == []
    requires PlanOne(scan, r, now).Some?
    ensures !Settled(scan, s, now)
  {
    PlanIsEmpty(scan, ReadAll(s), now);
    assert ReadAll(s)[0] == r;
  }
}
