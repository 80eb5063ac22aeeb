/** Protective tier moves: planned on a snapshot, and planned again under the write lock. */
module TierMoves {
  import opened Consolidate
  import opened Words

  const ARCHIVE_AFTER := 30 * 24 * 60 * 60 * 1000000  // thirty days, in microseconds

  /** The names of the taint rules a text trips. */
  type Scanner = string -> set<string>

  datatype Reason = Findings(rules: set<string>) | SupersessionRevoked | Expired | Stale

  datatype TierMove = TierMove(id: string, to: Tier, reason: Reason)

  function Earliest(a: Option<int>, b: Option<int>): (m: Option<int>)
    ensures m == a || m == b
    ensures a.Some? ==> m.Some? && m.value <= a.value
    ensures b.Some? ==> m.Some? && m.value <= b.value
  {
    if a.None? then b
    else if b.None? || a.value <= b.value then a
    else b
  }

  /** When an active superseded capsule falls due: at its expiry or, never recalled, thirty days after its birth. */
  function ArchiveDeadline(r: Record): (deadline: Option<int>) {
    if r.pinned || r.tier != Active || !r.superseded then None
    else Earliest(r.validTo, if r.recalls == 0 then Some(r.createdAt + ARCHIVE_AFTER) else None)
  }

  predicate Suspect(scan: Scanner, r: Record) {
    r.tainted && r.imported && scan(r.content) != {}
  }

  /** One turn of the planner's loop. */
  function PlanOne(scan: Scanner, r: Record, now: int): (move: Option<TierMove>)
    ensures move.Some? ==> move.value.id == r.id && move.value.to != r.tier
  {
    if Suspect(scan, r) then
      if r.tier != Quarantined then Some(TierMove(r.id, Quarantined, Findings(scan(r.content)))) else None
    else if r.tier == Archived && r.supersessionArchive && !r.superseded then
      Some(TierMove(r.id, Active, SupersessionRevoked))
    else
      var deadline := ArchiveDeadline(r);
      if deadline.None? || deadline.value >= now then None
      else if r.validTo.Some? && r.validTo.value < now then Some(TierMove(r.id, Archived, Expired))
      else Some(TierMove(r.id, Archived, Stale))
  }

  function Plan(scan: Scanner, records: seq<Record>, now: int): (moves: seq<TierMove>) {
    if records == [] then []
    else
      var last := PlanOne(scan, records[|records| - 1], now);
      Plan(scan, records[..|records| - 1], now) + if last.Some? then [last.value] else []
  }

  /** `protective_tier_moves`. */
  method ProtectiveTierMoves(scan: Scanner, ordered: seq<Record>, now: int) returns (moves: seq<TierMove>)
    ensures moves == Plan(scan, ordered, now)
  {
    moves := [];
    for k := 0 to |ordered|
      invariant moves == Plan(scan, ordered[..k], now)
    {
      var r := ordered[k];
      assert ordered[..k + 1][..k] == ordered[..k];
      if r.tainted && r.imported {
        var findings := scan(r.content);
        if findings != {} {
          if r.tier != Quarantined {
            moves := moves + [TierMove(r.id, Quarantined, Findings(findings))];
          }
          continue;
        }
      }
      if r.tier == Archived && r.supersessionArchive && !r.superseded {
        moves := moves + [TierMove(r.id, Active, SupersessionRevoked)];
        continue;
      }
      var deadline := ArchiveDeadline(r);
      if deadline.None? || deadline.value >= now {
        continue;
      }
      if r.validTo.Some? && r.validTo.value < now {
        moves := moves + [TierMove(r.id, Archived, Expired)];
      } else {
        moves := moves + [TierMove(r.id, Archived, Stale)];
      }
    }
    assert ordered[..|ordered|] == ordered;
  }

  // ---- where a record goes, by its fields --------------------------------------

  /** Imported, tainted content that trips a rule is quarantined, whatever else holds. */
  lemma QuarantinesIff(scan: Scanner, r: Record, now: int)
    ensures PlanOne(scan, r, now) == Some(TierMove(r.id, Quarantined, Findings(scan(r.content))))
       <==> r.tainted && r.imported && scan(r.content) != {} && r.tier != Quarantined
    ensures (exists reason :: PlanOne(scan, r, now) == Some(TierMove(r.id, Quarantined, reason)))
       <==> r.tainted && r.imported && scan(r.content) != {} && r.tier != Quarantined
  {
    assert PlanOne(scan, r, now) == Some(TierMove(r.id, Quarantined, Findings(scan(r.content)))) ==>
      exists reason :: PlanOne(scan, r, now) == Some(TierMove(r.id, Quarantined, reason));
  }

  predicate Clean(scan: Scanner, r: Record) {
    !r.tainted || !r.imported || scan(r.content) == {}
  }

  /** A capsule archived for a supersession that is gone comes back. */
  lemma ReactivatesIff(scan: Scanner, r: Record, now: int)
    ensures (exists reason :: PlanOne(scan, r, now) == Some(TierMove(r.id, Active, reason)))
       <==> Clean(scan, r) && r.tier == Archived && r.supersessionArchive && !r.superseded
    ensures forall reason | PlanOne(scan, r, now) == Some(TierMove(r.id, Active, reason)) ::
      reason == SupersessionRevoked
  {
    assert PlanOne(scan, r, now) == Some(TierMove(r.id, Active, SupersessionRevoked)) ==>
      exists reason :: PlanOne(scan, r, now) == Some(TierMove(r.id, Active, reason));
  }

  /** Only an active superseded capsule no pin holds is archived. */
  predicate Archivable(scan: Scanner, r: Record) {
    Clean(scan, r) && r.tier == Active && r.superseded && !r.pinned
  }

  predicate HasExpired(r: Record, now: int) {
    r.validTo.Some? && r.validTo.value < now
  }

  /** Never recalled, and born more than thirty days of 86 400 million microseconds ago. */
  predicate WentStale(r: Record, now: int) {
    r.recalls == 0 && now - r.createdAt > 2_592_000_000_000
  }

  lemma ArchivesIff(scan: Scanner, r: Record, now: int)
    ensures PlanOne(scan, r, now) == Some(TierMove(r.id, Archived, Expired))
       <==> Archivable(scan, r) && HasExpired(r, now)
    ensures PlanOne(scan, r, now) == Some(TierMove(r.id, Archived, Stale))
       <==> Archivable(scan, r) && !HasExpired(r, now) && WentStale(r, now)
    ensures (exists reason :: PlanOne(scan, r, now) == Some(TierMove(r.id, Archived, reason)))
       <==> Archivable(scan, r) && (HasExpired(r, now) || WentStale(r, now))
  {
    assert Archivable(scan, r) && HasExpired(r, now) ==>
      PlanOne(scan, r, now) == Some(TierMove(r.id, Archived, Expired));
    assert Archivable(scan, r) && !HasExpired(r, now) && WentStale(r, now) ==>
      PlanOne(scan, r, now) == Some(TierMove(r.id, Archived, Stale));
  }

  /** The tier a record is in once its planned move, if any, is applied. */
  lemma TierAfter(scan: Scanner, r: Record, now: int)
    ensures var move := PlanOne(scan, r, now);
            var tier := if move.Some? then move.value.to else r.tier;
            tier ==
            if !Clean(scan, r) then Quarantined
            else if r.tier == Archived && r.supersessionArchive && !r.superseded then Active
            else if Archivable(scan, r) && (HasExpired(r, now) || WentStale(r, now)) then Archived
            else r.tier
  {
  }

  /** The plan of two lists is their plans one after the other, and a record alone has its own move or none. */
  lemma {:induction false} PlanInOrder(scan: Scanner, records: seq<Record>, more: seq<Record>, r: Record, now: int)
    ensures Plan(scan, records + more, now) == Plan(scan, records, now) + Plan(scan, more, now)
    ensures Plan(scan, [r], now) == if PlanOne(scan, r, now).Some? then [PlanOne(scan, r, now).value] else []
    decreases |more|
  {
    assert [r][..0] == [];
    if more == [] {
      assert records + more == records;
    } else {
      assert (records + more)[..|records + more| - 1] == records + more[..|more| - 1];
      PlanInOrder(scan, records, more[..|more| - 1], r, now);
    }
  }

  lemma {:induction false} PlanHolds(scan: Scanner, records: seq<Record>, now: int, move: TierMove)
    ensures move in Plan(scan, records, now)
       <==> exists k :: 0 <= k < |records| && PlanOne(scan, records[k], now) == Some(move)
  {
    if records != [] {
      var init := records[..|records| - 1];
      PlanHolds(scan, init, now, move);
      if k :| 0 <= k < |records| && PlanOne(scan, records[k], now) == Some(move) {
        if k < |init| {
          assert init[k] == records[k];
        }
      }
    }
  }

  /** A plan is empty exactly when no record calls for a move. */
  lemma {:induction false} PlanIsEmpty(scan: Scanner, records: seq<Record>, now: int)
    ensures Plan(scan, records, now) == [] <==> forall k | 0 <= k < |records| :: PlanOne(scan, records[k], now) == None
  {
    if records != [] {
      PlanIsEmpty(scan, records[..|records| - 1], now);
      var init := records[..|records| - 1];
      assert forall k | 0 <= k < |init| :: init[k] == records[k];
    }
  }

  // ---- which records call for no move, and until when ------------------------

  predicate By(now: int, due: Option<int>) {
    due.None? || now <= due.value
  }

  /** No move for `r` at any time up to `due`. */
  ghost predicate Quiet(scan: Scanner, r: Record, due: Option<int>) {
    forall now: int | By(now, due) :: PlanOne(scan, r, now) == None
  }

  /** A move that no date delays. */
  predicate Pressing(scan: Scanner, r: Record) {
    if Suspect(scan, r) then r.tier != Quarantined
    else r.tier == Archived && r.supersessionArchive && !r.superseded
  }

  predicate Reaches(deadline: Option<int>, due: Option<int>) {
    deadline.Some? ==> due.Some? && due.value <= deadline.value
  }

  /** A record is quiet up to `due` exactly when nothing presses and its deadline, if it binds, is not earlier. */
  lemma QuietIff(scan: Scanner, r: Record, due: Option<int>)
    ensures Quiet(scan, r, due)
       <==> !Pressing(scan, r) && (Suspect(scan, r) || Reaches(ArchiveDeadline(r), due))
  {
    var deadline := ArchiveDeadline(r);
    var early := if due.Some? then due.value else if deadline.Some? then deadline.value + 1 else 0;
    if Quiet(scan, r, due) {
      assert By(early, due);
      assert PlanOne(scan, r, early) == None;
    }
  }

  /** `later` is the same record after some more recalls. */
  predicate Recalled(r: Record, later: Record) {
    later == r.(recalls := later.recalls) && r.recalls <= later.recalls
  }

  /** Recalls only ever put a move off. */
  lemma RecallsKeepQuiet(scan: Scanner, r: Record, later: Record, due: Option<int>)
    requires Recalled(r, later) && Quiet(scan, r, due)
    ensures Quiet(scan, later, due)
  {
    QuietIff(scan, r, due);
    QuietIff(scan, later, due);
  }

  /** After a planned move is applied, the record calls for no other, ever. */
  lemma MovedIsQuiet(scan: Scanner, r: Record, now: int, binds: bool)
    requires PlanOne(scan, r, now).Some?
    ensures Quiet(scan, r.(tier := PlanOne(scan, r, now).value.to, supersessionArchive := binds), None)
  {
    QuietIff(scan, r.(tier := PlanOne(scan, r, now).value.to, supersessionArchive := binds), None);
  }
}
