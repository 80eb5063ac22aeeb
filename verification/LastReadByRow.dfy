/** What the table of read times and its state become, told by the rows. */
module LastReadByRow {
  import opened LastRead
  import opened Tables
  import opened Words

  /** The row counts, lists the id, and was read then. */
  ghost predicate Reads(row: Row, id: string, at: int) {
    !row.revoked && row.listed.Some? && id in row.listed.value && row.at == Some(at)
  }

  /** An id's time among some rows is the latest of those that count and list it. */
  lemma TimesIff(traffic: Traffic, seqs: set<int>, id: string, at: int)
    ensures id in Times(traffic, seqs) && Times(traffic, seqs)[id] == at <==>
      && (exists s :: s in seqs && s in traffic && Reads(traffic[s], id, at))
      && (forall s, later | s in seqs && s in traffic && Reads(traffic[s], id, later) :: later <= at)
  {
    if id in Times(traffic, seqs) && Times(traffic, seqs)[id] == at {
      TimesAreLatest(traffic, seqs, id);
      var s :| s in seqs && Lists(traffic, s, id) && traffic[s].at.value == at;
      assert Reads(traffic[s], id, at);
      forall s, later | s in seqs && s in traffic && Reads(traffic[s], id, later)
        ensures later <= at
      {
        assert Lists(traffic, s, id) && later in Instants(traffic, seqs, id);
      }
    } else if s :| s in seqs && s in traffic && Reads(traffic[s], id, at) {
      assert Lists(traffic, s, id) && at in Instants(traffic, seqs, id);
      if forall s, later | s in seqs && s in traffic && Reads(traffic[s], id, later) :: later <= at {
        forall x | x in Instants(traffic, seqs, id)
          ensures x <= at
        {
          var t :| t in seqs && Lists(traffic, t, id) && traffic[t].at.value == x;
          assert Reads(traffic[t], id, x);
        }
        LatestIs(traffic, seqs, id, at);
      }
    }
  }

  /** The maxima are defined on a stretch exactly if each row of it that counts has a list and a time. */
  lemma ReadableIff(traffic: Traffic, seqs: set<int>)
    ensures AllReadable(traffic, seqs) <==>
      forall s | s in seqs && s in traffic && !traffic[s].revoked :: traffic[s].listed != None && traffic[s].at != None
  {
  }

  lemma NewestIs(traffic: Traffic, s: int, row: Row)
    requires s > Max(traffic)
    ensures Max(traffic[s := row]) == s
  {
    assert s in traffic[s := row].Keys;
  }

  /** Rows are numbered upwards from the newest, in order, and no other row is touched. */
  lemma {:induction false} AppendedNumbers(traffic: Traffic, rows: seq<Row>)
    ensures
      var newest, now := Max(traffic), Appended(traffic, rows);
      && Max(now) == newest + |rows|
      && (forall s :: s in now <==> s in traffic || newest < s <= newest + |rows|)
      && (forall s | s in traffic :: now[s] == traffic[s])
      && (forall k | 0 <= k < |rows| :: now[newest + 1 + k] == rows[k])
    decreases |rows|
  {
    if rows != [] {
      var newest := Max(traffic);
      var next := traffic[newest + 1 := rows[0]];
      NewestIs(traffic, newest + 1, rows[0]);
      AppendedNumbers(next, rows[1..]);
      var now := Appended(traffic, rows);
      assert now == Appended(next, rows[1..]);
      forall k | 0 <= k < |rows|
        ensures now[newest + 1 + k] == rows[k]
      {
        if k == 0 {
          assert newest + 1 in next;
        } else {
          assert now[newest + 1 + 1 + (k - 1)] == rows[1..][k - 1];
        }
      }
    }
  }

  // ---- a traffic write -----------------------------------------------------------

  /** The rows written can each be read. */
  ghost predicate Legible(rows: seq<Row>) {
    forall k | 0 <= k < |rows| && !rows[k].revoked :: rows[k].listed != None && rows[k].at != None
  }

  lemma StretchIsRows(traffic: Traffic, rows: seq<Row>)
    ensures AllReadable(Appended(traffic, rows), Between(Appended(traffic, rows), Max(traffic), Max(traffic) + |rows|))
       <==> Legible(rows)
  {
    var newest, now := Max(traffic), Appended(traffic, rows);
    AppendedNumbers(traffic, rows);
    if AllReadable(now, Between(now, newest, newest + |rows|)) {
      forall k | 0 <= k < |rows|
        ensures Readable(rows[k])
      {
        assert newest + 1 + k in Between(now, newest, newest + |rows|);
      }
    }
    if Legible(rows) {
      forall s | s in Between(now, newest, newest + |rows|)
        ensures Readable(now[s])
      {
        assert now[newest + 1 + (s - newest - 1)] == rows[s - newest - 1];
      }
    }
  }

  /** A traffic write keeps a table up to date exactly if the rows can be read; otherwise it invalidates it. One that is
      incomplete, or that it cannot trust, it does not touch. */
  lemma WriteFollows(db: Db, rows: seq<Row>)
    ensures UpToDate(db) ==> (UpToDate(Write(db, rows)) <==> Legible(rows))
    ensures UpToDate(db) && !Legible(rows) ==>
      Write(db, rows).times == db.times && Write(db, rows).state == Some(State(db.state.value.covered, Invalid))
    ensures db.state.None? || db.state.value.valid != Complete ==>
      Write(db, rows) == db.(traffic := Write(db, rows).traffic)
    ensures Write(db, rows).traffic == Appended(db.traffic, rows)
  {
    if UpToDate(db) {
      AppendedNumbers(db.traffic, rows);
      StretchIsRows(db.traffic, rows);
    }
  }

  /** A complete table that was behind stays so: it invalidates for rows that cannot be read, and claims no more. */
  lemma WriteBehind(db: Db, rows: seq<Row>)
    requires db.state.Some? && db.state.value.valid == Complete && db.state.value.covered != Max(db.traffic)
    ensures Write(db, rows).state == Some(State(db.state.value.covered, if Legible(rows) then Complete else Invalid))
  {
    AppendedNumbers(db.traffic, rows);
    StretchIsRows(db.traffic, rows);
  }

  // ---- a chunk of the build ------------------------------------------------------

  /** A turn begins again from nothing where there is no state, an invalid one, one that covers rows no longer there, or
      on a first turn another builder's; else it goes on. */
  lemma BegunIs(db: Db, first: bool)
    requires !UpToDate(db)
    ensures
      var again :=
        || db.state == None || db.state.value.valid == Invalid || db.state.value.covered > Max(db.traffic)
        || (first && db.state.value.valid == Rebuilding);
      Begun(db, first) ==
      if again then Db(db.traffic, map[], Some(State(0, Rebuilding)))
      else Db(db.traffic, db.times, Some(State(db.state.value.covered, Rebuilding)))
  {
  }

  function Behind(traffic: Traffic, covered: int): set<int> {
    set s | s in traffic && s > covered
  }

  /** The first rows past those covered, up to the last of them. */
  lemma FirstRows(traffic: Traffic, covered: int, n: nat)
    requires 0 < n <= |Behind(traffic, covered)|
    ensures |Ascending(Behind(traffic, covered))| == |Behind(traffic, covered)|
    ensures |Between(traffic, covered, Ascending(Behind(traffic, covered))[n - 1])| == n
  {
    var behind := Behind(traffic, covered);
    var all := Ascending(behind);
    AscendingCounts(behind);
    AscendingParts(behind, n);
    assert Between(traffic, covered, all[n - 1]) == set s | s in behind && s <= all[n - 1];
  }

  /** Where a turn stops. */
  function EndOf(traffic: Traffic, covered: int): int {
    var rows := NextRows(traffic, covered);
    if rows == [] then Max(traffic) else rows[|rows| - 1]
  }

  lemma EndIsThere(traffic: Traffic, covered: int)
    ensures
      var n, all := |Behind(traffic, covered)|, Ascending(Behind(traffic, covered));
      && |all| == n
      && EndOf(traffic, covered) ==
         if n == 0 then Max(traffic) else if n <= 1000 then all[n - 1] else all[999]
  {
    assert Behind(traffic, covered) == set s | s in traffic && s > covered;
    AscendingCounts(Behind(traffic, covered));
    var all := Ascending(Behind(traffic, covered));
    if |all| > 1000 {
      assert NextRows(traffic, covered) == all[..1000];
    } else {
      assert NextRows(traffic, covered) == all;
    }
  }

  lemma NextEnd(traffic: Traffic, covered: int)
    requires covered <= Max(traffic)
    ensures
      var end, n := EndOf(traffic, covered), |Behind(traffic, covered)|;
      && (end == Max(traffic) <==> n <= 1000)
      && |Between(traffic, covered, end)| == if n <= 1000 then n else 1000
  {
    var behind := Behind(traffic, covered);
    EndIsThere(traffic, covered);
    if behind == {} {
      assert Between(traffic, covered, Max(traffic)) == {};
    } else {
      NewestIsLast(traffic, covered, Ascending(behind));
      if |behind| <= 1000 {
        FirstRows(traffic, covered, |behind|);
      } else {
        FirstRows(traffic, covered, 1000);
      }
    }
  }

  lemma NewestIsLast(traffic: Traffic, covered: int, all: seq<int>)
    requires all == Ascending(Behind(traffic, covered)) && all != []
    ensures all[|all| - 1] == Max(traffic)
    ensures forall k | 0 <= k < |all| - 1 :: all[k] < Max(traffic)
  {
    assert all[|all| - 1] in all;
    var s := Max(traffic);
    assert s in traffic.Keys && s > covered;
    assert s in all;
  }

  /** A turn takes the thousand rows next in order, or all where no more are left, and then completes; one that cannot
      read them all invalidates the table instead. */
  lemma ChunkTakes(db: Db, first: bool)
    requires Inv(db) && !UpToDate(db)
    ensures
      var begun, after := Begun(db, first), Chunk(db, first);
      var covered, behind := begun.state.value.covered, |Behind(db.traffic, begun.state.value.covered)|;
      match after.state.value.valid
      case Complete => behind <= 1000 && after.state.value.covered == Max(db.traffic)
      case Rebuilding => behind > 1000 && |Between(db.traffic, covered, after.state.value.covered)| == 1000
      case Invalid => after.state.value.covered == covered && after.times == begun.times
  {
    var seqs := BegunHolds(db, first);
    NextEnd(db.traffic, Begun(db, first).state.value.covered);
  }

  /** It invalidates exactly when one of those rows cannot be read, and adds them to the table when it does not. */
  lemma ChunkAdds(db: Db, first: bool)
    requires Inv(db) && !UpToDate(db)
    ensures
      var begun, after := Begun(db, first), Chunk(db, first);
      && (after.state.value.valid == Invalid ==> !AllReadable(db.traffic, db.traffic.Keys))
      && (after.state.value.valid != Invalid ==>
            var taken := Between(db.traffic, begun.state.value.covered, after.state.value.covered);
            AllReadable(db.traffic, taken) && after.times == Upsert(begun.times, Times(db.traffic, taken)))
  {
  }

  /** The latest time of each id in either table. */
  lemma UpsertIff(times: map<string, int>, newer: map<string, int>, id: string, at: int)
    ensures id in Upsert(times, newer) && Upsert(times, newer)[id] == at <==>
      && ((id in times && times[id] == at) || (id in newer && newer[id] == at))
      && (id in times ==> times[id] <= at) && (id in newer ==> newer[id] <= at)
  {
  }

  /** An edit or a deletion of a row invalidates the table it finds, and changes nothing else of it. */
  lemma EditsInvalidate(db: Db, e: Event)
    requires Enabled(db, e) && (e.RawUpdate? || (e.RawDelete? && e.gone in db.traffic))
    ensures Step(db, e).times == db.times
    ensures Step(db, e).state == if db.state.None? then None else Some(State(db.state.value.covered, Invalid))
    ensures e.RawUpdate? ==> Step(db, e).traffic == db.traffic[e.at := e.now]
    ensures e.RawDelete? ==> Step(db, e).traffic == db.traffic - {e.gone}
  {
  }
}
