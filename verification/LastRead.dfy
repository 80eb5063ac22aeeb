/** When each id was last read: a table derived from the read traffic, rebuilt in chunks, dropped by triggers. */
module LastRead {
  import opened Tables
  import opened Words

  const LAST_READ_CHUNK_SIZE := 1000

  /** A traffic row; `listed` or `at` is None where the column is not what the maxima are defined on. */
  datatype Row = Row(listed: Option<set<string>>, at: Option<int>, revoked: bool)

  type Traffic = map<int, Row>

  /** `valid` is 1 for complete, 0 after an invalidation, 2 during a rebuild. */
  datatype Valid = Invalid | Complete | Rebuilding

  datatype State = State(covered: int, valid: Valid)

  /** `state` is None where a table or a trigger is missing or foreign. */
  datatype Db = Db(traffic: Traffic, times: map<string, int>, state: Option<State>)

  function Max(traffic: Traffic): int {
    MaxOrZero(traffic.Keys)
  }

  // ---- the maxima a full scan would give -------------------------------------

  predicate Lists(traffic: Traffic, s: int, id: string) {
    && s in traffic && !traffic[s].revoked
    && traffic[s].listed.Some? && traffic[s].at.Some? && id in traffic[s].listed.value
  }

  function ListedIn(traffic: Traffic, s: int): (ids: set<string>)
    ensures forall id :: id in ids <==> Lists(traffic, s, id)
  {
    if s in traffic && !traffic[s].revoked && traffic[s].at.Some? && traffic[s].listed.Some? then
      traffic[s].listed.value
    else {}
  }

  function Ids(traffic: Traffic, seqs: set<int>): (ids: set<string>)
    ensures forall id :: id in ids <==> exists s :: s in seqs && Lists(traffic, s, id)
  {
    var ids := set s, id | s in seqs && id in ListedIn(traffic, s) :: id;
    assert forall id | id in ids :: exists s :: s in seqs && Lists(traffic, s, id) by {
      forall id | id in ids
        ensures exists s :: s in seqs && Lists(traffic, s, id)
      {
        var s :| s in seqs && id in ListedIn(traffic, s);
        assert Lists(traffic, s, id);
      }
    }
    assert forall s, id | s in seqs && Lists(traffic, s, id) :: id in ids by {
      forall s, id | s in seqs && Lists(traffic, s, id)
        ensures id in ids
      {
        assert id in ListedIn(traffic, s);
      }
    }
    ids
  }

  function Instants(traffic: Traffic, seqs: set<int>, id: string): set<int> {
    set s | s in seqs && Lists(traffic, s, id) :: traffic[s].at.value
  }

  function Latest(instants: set<int>): (m: int)
    requires instants != {}
    ensures m in instants && forall x | x in instants :: x <= m
  {
    MaxExists(instants);
    var m :| m in instants && forall x | x in instants :: x <= m;
    m
  }

  /** The latest time among these rows, for every id they list. */
  function Times(traffic: Traffic, seqs: set<int>): (times: map<string, int>)
    ensures times.Keys == Ids(traffic, seqs)
  {
    map id | id in Ids(traffic, seqs) :: LatestOf(traffic, seqs, id)
  }

  function LatestOf(traffic: Traffic, seqs: set<int>, id: string): int
    requires id in Ids(traffic, seqs)
  {
    assert Instants(traffic, seqs, id) != {} by {
      var s :| s in seqs && Lists(traffic, s, id);
      assert traffic[s].at.value in Instants(traffic, seqs, id);
    }
    Latest(Instants(traffic, seqs, id))
  }

  function Greater(a: int, b: int): int {
    if a < b then b else a
  }

  /** `ON CONFLICT DO UPDATE SET at = max(at, excluded.at)`. */
  function Upsert(times: map<string, int>, newer: map<string, int>): map<string, int> {
    map id | id in times.Keys + newer.Keys ::
      if id in times && id in newer then Greater(times[id], newer[id]) else if id in times then times[id] else newer[id]
  }

  lemma LatestIs(traffic: Traffic, seqs: set<int>, id: string, m: int)
    requires m in Instants(traffic, seqs, id) && forall x | x in Instants(traffic, seqs, id) :: x <= m
    ensures id in Times(traffic, seqs) && Times(traffic, seqs)[id] == m
  {
    var s :| s in seqs && Lists(traffic, s, id) && traffic[s].at.value == m;
    assert id in Ids(traffic, seqs);
  }

  lemma TimesAreLatest(traffic: Traffic, seqs: set<int>, id: string)
    requires id in Times(traffic, seqs)
    ensures var m := Times(traffic, seqs)[id];
            m in Instants(traffic, seqs, id) && forall x | x in Instants(traffic, seqs, id) :: x <= m
  {
    var s :| s in seqs && Lists(traffic, s, id);
    assert traffic[s].at.value in Instants(traffic, seqs, id);
  }

  lemma InstantsUnion(traffic: Traffic, a: set<int>, b: set<int>, id: string)
    ensures Instants(traffic, a + b, id) == Instants(traffic, a, id) + Instants(traffic, b, id)
    ensures id in Times(traffic, a) <==> Instants(traffic, a, id) != {}
    ensures id in Times(traffic, a + b) <==> id in Times(traffic, a) || id in Times(traffic, b)
  {
    if id in Times(traffic, a) {
      TimesAreLatest(traffic, a, id);
    }
    if x :| x in Instants(traffic, a, id) {
      var s :| s in a && Lists(traffic, s, id) && traffic[s].at.value == x;
    }
    if s :| s in a + b && Lists(traffic, s, id) {
      assert (s in a && Lists(traffic, s, id)) || (s in b && Lists(traffic, s, id));
    }
  }

  lemma UnionAt(traffic: Traffic, a: set<int>, b: set<int>, id: string)
    ensures var both := Upsert(Times(traffic, a), Times(traffic, b));
            && (id in both <==> id in Times(traffic, a + b))
            && (id in both ==> both[id] == Times(traffic, a + b)[id])
  {
    var x, y := Times(traffic, a), Times(traffic, b);
    InstantsUnion(traffic, a, b, id);
    InstantsUnion(traffic, b, a, id);
    if id in x {
      TimesAreLatest(traffic, a, id);
    }
    if id in y {
      TimesAreLatest(traffic, b, id);
    }
    if id in x || id in y {
      LatestIs(traffic, a + b, id,
               if id in x && id in y then Greater(x[id], y[id]) else if id in x then x[id] else y[id]);
    }
  }

  /** Upserting the maxima of some rows into those of others gives the maxima of both. */
  lemma UpsertIsUnion(traffic: Traffic, a: set<int>, b: set<int>)
    ensures Upsert(Times(traffic, a), Times(traffic, b)) == Times(traffic, a + b)
  {
    forall id
      ensures var both := Upsert(Times(traffic, a), Times(traffic, b));
              && (id in both <==> id in Times(traffic, a + b))
              && (id in both ==> both[id] == Times(traffic, a + b)[id])
    {
      UnionAt(traffic, a, b, id);
    }
  }

  /** The maxima over rows that did not change do not change. */
  lemma SameRowsSameTimes(t: Traffic, u: Traffic, seqs: set<int>)
    requires forall s | s in seqs :: (s in t <==> s in u) && (s in t ==> t[s] == u[s])
    ensures Times(t, seqs) == Times(u, seqs)
  {
    forall id
      ensures Instants(t, seqs, id) == Instants(u, seqs, id)
    {
      assert forall s | s in seqs :: Lists(t, s, id) == Lists(u, s, id);
    }
    assert Ids(t, seqs) == Ids(u, seqs) by {
      forall id
        ensures id in Ids(t, seqs) <==> id in Ids(u, seqs)
      {
        assert forall s | s in seqs :: Lists(t, s, id) == Lists(u, s, id);
      }
    }
    forall id | id in Ids(t, seqs)
      ensures Times(t, seqs)[id] == Times(u, seqs)[id]
    {
      TimesAreLatest(t, seqs, id);
      TimesAreLatest(u, seqs, id);
    }
  }

  // ---- the transactions ------------------------------------------------------

  /** Whether a row is one the maxima are defined on. */
  predicate Readable(row: Row) {
    !row.revoked ==> row.listed.Some? && row.at.Some?
  }

  /** The rows of `(covered, maximum]`. */
  function Between(traffic: Traffic, covered: int, maximum: int): set<int> {
    set s | s in traffic && covered < s <= maximum
  }

  predicate AllReadable(traffic: Traffic, seqs: set<int>) {
    forall s | s in seqs && s in traffic :: Readable(traffic[s])
  }

  /** `_update_last_read`: the maxima of a stretch upserted, or the state refused. */
  function Update(db: Db, covered: int, maximum: int): Db
    requires db.state.Some?
  {
    if AllReadable(db.traffic, Between(db.traffic, covered, maximum)) then
      db.(times := Upsert(db.times, Times(db.traffic, Between(db.traffic, covered, maximum))))
    else
      db.(state := Some(db.state.value.(valid := Invalid)))
  }

  predicate Refused(db: Db, covered: int, maximum: int) {
    !AllReadable(db.traffic, Between(db.traffic, covered, maximum))
  }

  function Appended(traffic: Traffic, rows: seq<Row>): Traffic
    decreases |rows|
  {
    if rows == [] then traffic else Appended(traffic[Max(traffic) + 1 := rows[0]], rows[1..])
  }

  /** `_write_traffic`: only a complete table follows, and only one that was up to date stays so. */
  function Write(db: Db, rows: seq<Row>): Db {
    var previous := Max(db.traffic);
    var now := db.(traffic := Appended(db.traffic, rows));
    if db.state.None? || db.state.value.valid != Complete then now
    else
      var updated := Update(now, previous, Max(now.traffic));
      if Refused(now, previous, Max(now.traffic)) || db.state.value.covered != previous then updated
      else updated.(state := Some(State(Max(now.traffic), Complete)))
  }

  /** The update and delete triggers, where they exist. */
  function Invalidated(db: Db): Db {
    db.(state := if db.state.Some? then Some(db.state.value.(valid := Invalid)) else None)
  }

  /** `_reset_last_read`. */
  function Reset(db: Db): Db {
    db.(times := map[], state := Some(State(0, Rebuilding)))
  }

  /** `SELECT seq ... WHERE seq > ? ORDER BY seq LIMIT ?`. */
  function NextRows(traffic: Traffic, covered: int): seq<int> {
    var rows := Ascending(set s | s in traffic && s > covered);
    if |rows| <= LAST_READ_CHUNK_SIZE then rows else rows[..LAST_READ_CHUNK_SIZE]
  }

  predicate UpToDate(db: Db) {
    db.state == Some(State(Max(db.traffic), Complete))
  }

  predicate MustReset(db: Db, first: bool) {
    || db.state.None? || db.state.value.valid == Invalid || db.state.value.covered > Max(db.traffic)
    || (first && db.state.value.valid == Rebuilding)
  }

  /** What a chunk goes on from: the table as it is, or an empty one. */
  function Begun(db: Db, first: bool): (begun: Db)
    requires !UpToDate(db)
    ensures begun.state.Some? && begun.traffic == db.traffic
  {
    if MustReset(db, first) then Reset(db) else db.(state := Some(db.state.value.(valid := Rebuilding)))
  }

  /** One write transaction of `_add_last_read`, by a builder on its first turn or a later one. */
  function Chunk(db: Db, first: bool): Db {
    if UpToDate(db) then db
    else
      var begun := Begun(db, first);
      var covered := begun.state.value.covered;
      var rows, maximum := NextRows(begun.traffic, covered), Max(begun.traffic);
      var end := if rows == [] then maximum else rows[|rows| - 1];
      var updated := Update(begun, covered, end);
      if Refused(begun, covered, end) then updated
      else updated.(state := Some(State(end, if end == maximum then Complete else Rebuilding)))
  }

  // ---- the invariant ---------------------------------------------------------

  /** The table holds the maxima over these rows, none of them unreadable. */
  ghost predicate Holds(db: Db, seqs: set<int>)
    requires db.state.Some?
  {
    && (forall s | s in db.traffic && s <= db.state.value.covered :: s in seqs)
    && seqs <= db.traffic.Keys
    && AllReadable(db.traffic, seqs)
    && db.times == Times(db.traffic, seqs)
  }

  /** Unless refused, the table is the maxima of some row set that holds every row covered. */
  ghost predicate Inv(db: Db) {
    && (forall s | s in db.traffic :: s > 0)
    && Followed(db)
  }

  ghost predicate Followed(db: Db) {
    db.state.Some? && db.state.value.valid != Invalid ==>
      db.state.value.covered <= Max(db.traffic) && exists seqs :: Holds(db, seqs)
  }

  /** When the state reads complete up to the newest row, the table is exactly a scan of the whole traffic. */
  lemma UpToDateIsExact(db: Db)
    requires Inv(db) && UpToDate(db)
    ensures db.times == Times(db.traffic, db.traffic.Keys) && AllReadable(db.traffic, db.traffic.Keys)
  {
    var seqs :| Holds(db, seqs);
    assert seqs == db.traffic.Keys;
  }

  lemma AppendedKeeps(traffic: Traffic, rows: seq<Row>)
    ensures forall s | s in traffic :: s in Appended(traffic, rows) && Appended(traffic, rows)[s] == traffic[s]
    ensures forall s | s in Appended(traffic, rows) && s !in traffic :: s > Max(traffic)
    ensures (forall s | s in traffic :: s > 0) ==> forall s | s in Appended(traffic, rows) :: s > 0
    ensures Max(traffic) <= Max(Appended(traffic, rows))
    decreases |rows|
  {
    if rows != [] {
      var next := traffic[Max(traffic) + 1 := rows[0]];
      assert Max(traffic) + 1 in next.Keys + {0};
      assert Max(next) in next.Keys + {0};
      AppendedKeeps(next, rows[1..]);
    }
  }

  /** Rows appended above the newest leave the table the maxima of the rows it was. */
  lemma HoldsAbove(db: Db, traffic: Traffic, seqs: set<int>)
    requires db.state.Some? && Holds(db, seqs)
    requires forall s | s in db.traffic :: s in traffic && traffic[s] == db.traffic[s]
    requires forall s | s in traffic && s !in db.traffic :: s > Max(db.traffic)
    requires db.state.value.covered <= Max(db.traffic)
    ensures Holds(db.(traffic := traffic), seqs)
  {
    SameRowsSameTimes(db.traffic, traffic, seqs);
  }

  /** A stretch that is readable joins the rows the table holds; the state then covers up to its end. */
  lemma UpdateHolds(db: Db, seqs: set<int>, covered: int, end: int, valid: Valid)
    requires db.state.Some? && !Refused(db, covered, end)
    requires seqs <= db.traffic.Keys && AllReadable(db.traffic, seqs) && db.times == Times(db.traffic, seqs)
    requires forall s | s in db.traffic && s <= covered :: s in seqs
    ensures Holds(Update(db, covered, end).(state := Some(State(end, valid))), seqs + Between(db.traffic, covered, end))
  {
    UpsertIsUnion(db.traffic, seqs, Between(db.traffic, covered, end));
  }

  lemma WriteKeeps(db: Db, rows: seq<Row>)
    requires Inv(db)
    ensures Inv(Write(db, rows))
  {
    var previous := Max(db.traffic);
    var now := db.(traffic := Appended(db.traffic, rows));
    AppendedKeeps(db.traffic, rows);
    if db.state.Some? && db.state.value.valid != Invalid {
      var seqs :| Holds(db, seqs);
      HoldsAbove(db, now.traffic, seqs);
      if db.state.value.valid == Complete && !Refused(now, previous, Max(now.traffic)) {
        var stretch := Between(now.traffic, previous, Max(now.traffic));
        UpsertIsUnion(now.traffic, seqs, stretch);
        assert Holds(Write(db, rows), seqs + stretch);
      } else if db.state.value.valid == Rebuilding {
        assert Holds(Write(db, rows), seqs);
      }
    }
  }

  lemma RawAppendKeeps(db: Db, s: int, row: Row)
    requires Inv(db) && s > Max(db.traffic)
    ensures Inv(db.(traffic := db.traffic[s := row]))
  {
    var now := db.(traffic := db.traffic[s := row]);
    assert Max(now.traffic) == s by {
      assert s in now.traffic.Keys;
    }
    if db.state.Some? && db.state.value.valid != Invalid {
      var seqs :| Holds(db, seqs);
      HoldsAbove(db, now.traffic, seqs);
      assert Holds(now, seqs);
    }
  }

  lemma NextRowsAre(traffic: Traffic, covered: int)
    requires covered <= Max(traffic)
    ensures var rows := NextRows(traffic, covered);
            var end := if rows == [] then Max(traffic) else rows[|rows| - 1];
            covered <= end <= Max(traffic) && (end == covered ==> end == Max(traffic))
  {
    var all := Ascending(set s | s in traffic && s > covered);
    var rows := NextRows(traffic, covered);
    if rows != [] {
      assert rows[|rows| - 1] in all;
    }
  }

  /** The table a chunk goes on from holds the maxima of some rows: of none, after a reset. */
  lemma BegunHolds(db: Db, first: bool) returns (seqs: set<int>)
    requires Inv(db) && !UpToDate(db)
    ensures var begun := Begun(db, first);
            begun.state.value.covered <= Max(db.traffic) && Holds(begun, seqs)
  {
    if MustReset(db, first) {
      seqs := {};
      assert Times(db.traffic, {}) == map[];
    } else {
      seqs :| Holds(db, seqs);
      assert Holds(Begun(db, first), seqs);
    }
  }

  /** A chunk keeps the invariant, whoever builds and whatever state it finds. */
  lemma ChunkKeeps(db: Db, first: bool)
    requires Inv(db)
    ensures Inv(Chunk(db, first))
  {
    if !UpToDate(db) {
      var begun := Begun(db, first);
      var seqs := BegunHolds(db, first);
      var covered := begun.state.value.covered;
      var rows, maximum := NextRows(begun.traffic, covered), Max(begun.traffic);
      var end := if rows == [] then maximum else rows[|rows| - 1];
      NextRowsAre(begun.traffic, covered);
      if !Refused(begun, covered, end) {
        UpdateHolds(begun, seqs, covered, end, if end == maximum then Complete else Rebuilding);
      }
    }
  }

  // ---- every run -------------------------------------------------------------

  /** One committed transaction of any process: readers append, others edit, any number of builders rebuild. */
  datatype Event =
    | Served(rows: seq<Row>)
    | RawAppend(s: int, row: Row)
    | RawUpdate(at: int, now: Row)
    | RawDelete(gone: int)
    | Damage
    | Build(first: bool)

  /** Rows are only ever appended above the newest. */
  predicate Enabled(db: Db, e: Event) {
    match e
    case RawAppend(s, _) => s > Max(db.traffic)
    case RawUpdate(at, _) => at in db.traffic
    case _ => true
  }

  function Step(db: Db, e: Event): Db {
    match e
    case Served(rows) => Write(db, rows)
    case RawAppend(s, row) => db.(traffic := db.traffic[s := row])
    case RawUpdate(at, now) => Invalidated(db.(traffic := db.traffic[at := now]))
    case RawDelete(gone) => if gone in db.traffic then Invalidated(db.(traffic := db.traffic - {gone})) else db
    case Damage => db.(state := None)
    case Build(first) => Chunk(db, first)
  }

  ghost predicate Run(db: Db, events: seq<Event>)
    decreases |events|
  {
    events == [] || (Enabled(db, events[0]) && Run(Step(db, events[0]), events[1..]))
  }

  function After(db: Db, events: seq<Event>): Db
    decreases |events|
  {
    if events == [] then db else After(Step(db, events[0]), events[1..])
  }

  lemma StepKeeps(db: Db, e: Event)
    requires Inv(db) && Enabled(db, e)
    ensures Inv(Step(db, e))
  {
    match e
    case Served(rows) => WriteKeeps(db, rows);
    case RawAppend(s, row) => RawAppendKeeps(db, s, row);
    case Build(first) => ChunkKeeps(db, first);
    case _ =>
  }

  lemma {:induction false} RunKeeps(db: Db, events: seq<Event>)
    requires Inv(db) && Run(db, events)
    ensures Inv(After(db, events))
    decreases |events|
  {
    if events != [] {
      StepKeeps(db, events[0]);
      RunKeeps(Step(db, events[0]), events[1..]);
    }
  }

  const EMPTY := Db(map[], map[], Some(State(0, Complete)))

  lemma EmptyHolds()
    ensures Inv(EMPTY)
  {
    assert Holds(EMPTY, {});
  }

  /** In every run, a table that reads complete answers as a scan of the whole traffic would. */
  lemma EveryRunReadsTheScan(events: seq<Event>)
    requires Run(EMPTY, events) && UpToDate(After(EMPTY, events))
    ensures var db := After(EMPTY, events);
            db.times == Times(db.traffic, db.traffic.Keys) && AllReadable(db.traffic, db.traffic.Keys)
  {
    EmptyHolds();
    RunKeeps(EMPTY, events);
    UpToDateIsExact(After(EMPTY, events));
  }

  // ---- the builder -----------------------------------------------------------

  function Members(rows: seq<int>): set<int> {
    set s | s in rows
  }

  lemma MembersOneMore(rows: seq<int>, k: nat)
    requires k < |rows|
    ensures Members(rows[..k + 1]) == Members(rows[..k]) + {rows[k]}
  {
    TakeOneMore(rows, k);
  }

  function RowTimes(row: Row): map<string, int>
    requires Readable(row)
  {
    if row.revoked then map[] else map id | id in row.listed.value :: row.at.value
  }

  lemma OneRow(traffic: Traffic, s: int)
    requires s in traffic && Readable(traffic[s])
    ensures RowTimes(traffic[s]) == Times(traffic, {s})
  {
    forall id | id in Times(traffic, {s})
      ensures Times(traffic, {s})[id] == RowTimes(traffic[s])[id]
    {
      TimesAreLatest(traffic, {s}, id);
    }
  }

  /** `_last_read_times`: one pass over a stretch, or the refusal of a row it cannot read. */
  method LastReadTimes(traffic: Traffic, covered: int, maximum: int) returns (times: Option<map<string, int>>)
    ensures times == if AllReadable(traffic, Between(traffic, covered, maximum))
                     then Some(Times(traffic, Between(traffic, covered, maximum))) else None
  {
    var rows := Ascending(Between(traffic, covered, maximum));
    var found: map<string, int> := map[];
    for k := 0 to |rows|
      invariant AllReadable(traffic, Members(rows[..k]))
      invariant found == Times(traffic, Members(rows[..k]))
    {
      var row := rows[k];
      assert row in rows;
      MembersOneMore(rows, k);
      if !Readable(traffic[row]) {
        return None;
      }
      OneRow(traffic, row);
      UpsertIsUnion(traffic, Members(rows[..k]), {row});
      found := Upsert(found, RowTimes(traffic[row]));
    }
    assert rows[..|rows|] == rows && Members(rows) == Between(traffic, covered, maximum);
    return Some(found);
  }

  /** A chunk leaves the traffic alone, and ends the build up to date exactly if every row can be read. */
  lemma ChunkEnds(db: Db, first: bool)
    requires Inv(db)
    ensures var after := Chunk(db, first);
            && after.traffic == db.traffic && after.state.Some?
            && (after.state.value.valid != Rebuilding ==>
                  (UpToDate(after) <==> AllReadable(after.traffic, after.traffic.Keys)))
  {
    ChunkKeeps(db, first);
    var after := Chunk(db, first);
    if UpToDate(after) {
      UpToDateIsExact(after);
    }
  }

  /** The traffic rows past what the state covers. */
  function Ahead(db: Db): set<int> {
    set s | s in db.traffic && db.state.Some? && s > db.state.value.covered
  }

  /** A chunk that neither ends nor refuses leaves off at a row it took, short of the newest. */
  lemma ChunkLands(db: Db, first: bool)
    requires Inv(db) && !UpToDate(db) && Chunk(db, first).state.value.valid == Rebuilding
    ensures var begun, after := Begun(db, first), Chunk(db, first);
            && after.traffic == db.traffic && after.state.value.covered in db.traffic
            && begun.state.value.covered < after.state.value.covered < Max(db.traffic)
  {
    var begun := Begun(db, first);
    var rows := NextRows(begun.traffic, begun.state.value.covered);
    NextRowsAre(begun.traffic, begun.state.value.covered);
    if rows != [] {
      assert rows[|rows| - 1] in Ascending(set s | s in begun.traffic && s > begun.state.value.covered);
    }
  }

  /** It needs no reset after it, and gains ground unless it had one to do. */
  lemma ChunkAdvances(db: Db, first: bool)
    requires Inv(db) && !UpToDate(db)
    requires Chunk(db, first).state.value.valid == Rebuilding
    ensures !MustReset(Chunk(db, first), false)
    ensures !MustReset(db, first) ==> Ahead(Chunk(db, first)) < Ahead(db)
  {
    ChunkLands(db, first);
    if !MustReset(db, first) {
      AheadShrinks(db, Chunk(db, first));
    }
  }

  lemma AheadShrinks(db: Db, after: Db)
    requires db.state.Some? && after.state.Some? && after.traffic == db.traffic
    requires db.state.value.covered < after.state.value.covered && after.state.value.covered in db.traffic
    ensures Ahead(after) < Ahead(db)
  {
    assert after.state.value.covered in Ahead(db) && after.state.value.covered !in Ahead(after);
  }

  /** An event of one of the others' turns. */
  ghost predicate Theirs(others: seq<seq<Event>>, e: Event) {
    exists k :: 0 <= k < |others| && e in others[k]
  }

  /** Every event but a build's chunks is one of the others'. */
  ghost predicate Attributed(others: seq<seq<Event>>, trace: seq<Event>) {
    forall e | e in trace :: e.Build? || Theirs(others, e)
  }

  lemma LaterTurns(others: seq<seq<Event>>, e: Event)
    requires others != [] && Theirs(others[1..], e)
    ensures Theirs(others, e)
  {
    var k :| 0 <= k < |others[1..]| && e in others[1..][k];
    assert e in others[k + 1];
  }

  /** The rest of the others' turns are among them all. */
  ghost predicate Remaining(others: seq<seq<Event>>, all: seq<seq<Event>>) {
    forall e | Theirs(others, e) :: Theirs(all, e)
  }

  lemma {:induction false} RunJoins(db: Db, events: seq<Event>, more: seq<Event>)
    requires Run(db, events) && Run(After(db, events), more)
    ensures Run(db, events + more) && After(db, events + more) == After(After(db, events), more)
    decreases |events|
  {
    if events == [] {
      assert events + more == more;
    } else {
      RunJoins(Step(db, events[0]), events[1..], more);
      assert (events + more)[1..] == events[1..] + more;
    }
  }

  class TrafficFile {
    var db: Db
    /** What other processes commit before each of this builder's own transactions. */
    var others: seq<seq<Event>>

    constructor (db: Db, others: seq<seq<Event>>)
      requires Inv(db)
      ensures Inv(this.db) && this.db == db && this.others == others
    {
      this.db, this.others := db, others;
    }

    /** The others go first. */
    method Yield() returns (ghost trace: seq<Event>)
      requires Inv(db)
      modifies this
      ensures Inv(db) && Run(old(db), trace) && db == After(old(db), trace)
      ensures others == if old(others) == [] then [] else old(others)[1..]
      ensures Attributed(old(others), trace) && Remaining(others, old(others))
      ensures old(others) == [] ==> db == old(db) && trace == []
    {
      trace := [];
      if others == [] {
        return;
      }
      var events := others[0];
      others := others[1..];
      for k := 0 to |events|
        invariant Inv(db) && Run(old(db), trace) && db == After(old(db), trace)
        invariant others == old(others)[1..]
        invariant forall e | e in trace :: e in events
      {
        if Enabled(db, events[k]) {
          StepKeeps(db, events[k]);
          RunOneMore(old(db), trace, events[k]);
          trace := trace + [events[k]];
          db := Step(db, events[k]);
        }
      }
      forall e | Theirs(others, e)
        ensures Theirs(old(others), e)
      {
        LaterTurns(old(others), e);
      }
    }

    method UpdateLastRead(covered: int, maximum: int) returns (ok: bool)
      requires db.state.Some?
      modifies this`db
      ensures db == Update(old(db), covered, maximum) && ok == !Refused(old(db), covered, maximum)
    {
      var times := LastReadTimes(db.traffic, covered, maximum);
      if times.None? {
        db := db.(state := Some(db.state.value.(valid := Invalid)));
        return false;
      }
      db := db.(times := Upsert(db.times, times.value));
      return true;
    }

    /** `_write_traffic`: the rows appended one by one, then the table taken along if it was complete. */
    method WriteTraffic(rows: seq<Row>)
      requires Inv(db)
      modifies this`db
      ensures Inv(db) && db == Write(old(db), rows)
    {
      WriteKeeps(db, rows);
      ghost var before := db;
      var state, previous := db.state, Max(db.traffic);
      for k := 0 to |rows|
        invariant db == before.(traffic := db.traffic)
        invariant Appended(db.traffic, rows[k..]) == Appended(before.traffic, rows)
      {
        assert rows[k..][1..] == rows[k + 1..];
        db := db.(traffic := db.traffic[Max(db.traffic) + 1 := rows[k]]);
      }
      if state.Some? && state.value.valid == Complete {
        var ok := UpdateLastRead(previous, Max(db.traffic));
        if ok && state.value.covered == previous {
          db := db.(state := Some(State(Max(db.traffic), Complete)));
        }
      }
    }

    /** One short write transaction of the build. */
    method Turn(first: bool) returns (done: bool)
      modifies this`db
      ensures db == Chunk(old(db), first)
      ensures done == (db.state.value.valid != Rebuilding)
    {
      if UpToDate(db) {
        return true;
      }
      var covered := 0;
      if MustReset(db, first) {
        db := Reset(db);
      } else {
        covered := db.state.value.covered;
        db := db.(state := Some(db.state.value.(valid := Rebuilding)));
      }
      var rows, maximum := NextRows(db.traffic, covered), Max(db.traffic);
      var end := if rows == [] then maximum else rows[|rows| - 1];
      var ok := UpdateLastRead(covered, end);
      if !ok {
        return true;
      }
      db := db.(state := Some(State(end, if end == maximum then Complete else Rebuilding)));
      return end == maximum;
    }

    /**
     * `_add_last_read`: it commits only chunks, ends whatever the others do, and when they do nothing leaves the
     * traffic as it was, and the table up to date exactly if every row can be read.
     */
    method AddLastRead() returns (ghost trace: seq<Event>)
      requires Inv(db)
      modifies this
      ensures Inv(db) && Run(old(db), trace) && db == After(old(db), trace) && Attributed(old(others), trace)
      ensures old(others) == [] ==>
                && db.traffic == old(db).traffic
                && (UpToDate(db) <==> AllReadable(db.traffic, db.traffic.Keys))
    {
      trace := [];
      if UpToDate(db) {
        UpToDateIsExact(db);
        return;
      }
      var first, done := true, false;
      while !done
        invariant Inv(db) && Run(old(db), trace) && db == After(old(db), trace)
        invariant Attributed(old(others), trace) && Remaining(others, old(others))
        invariant old(others) == [] ==> others == [] && db.traffic == old(db).traffic
        invariant done && old(others) == [] ==> (UpToDate(db) <==> AllReadable(db.traffic, db.traffic.Keys))
        decreases !done, |others|, MustReset(db, first), Ahead(db)
      {
        ghost var more := Yield();
        RunJoins(old(db), trace, more);
        ghost var before := db;
        ChunkKeeps(db, first);
        RunOneMore(old(db), trace + more, Build(first));
        trace := trace + more + [Build(first)];
        done := Turn(first);
        ChunkEnds(before, first);
        if !done {
          ChunkAdvances(before, first);
        }
        first := false;
      }
    }
  }

  lemma {:induction false} RunOneMore(db: Db, events: seq<Event>, e: Event)
    requires Run(db, events) && Enabled(After(db, events), e)
    ensures Run(db, events + [e]) && After(db, events + [e]) == Step(After(db, events), e)
    decreases |events|
  {
    if events != [] {
      RunOneMore(Step(db, events[0]), events[1..], e);
      assert (events + [e])[1..] == events[1..] + [e];
    }
  }
}
