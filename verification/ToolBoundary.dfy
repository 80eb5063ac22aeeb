/** One transaction a tool call, whatever it nests, declares or raises; the read traffic goes out on its own. */
module ToolBoundary {
  import opened Words

  /** One statement's effect, and how many rows it changed. */
  datatype Write = Write(sql: string, rows: nat)

  type Row = string

  /** Taking the write lock: refused, or granted after what others committed since the snapshot. */
  datatype Lock = Busy | Free(others: seq<Write>, generations: nat)

  /** What closing a boundary meets. */
  datatype Fate = Closes | BumpFails | CommitFails

  datatype Call = Call(defer: bool, body: seq<Action>, fate: Fate)

  /** What a tool does inside its boundary; a statement that fails is a `Raise`. */
  datatype Action =
    | Declare(canonical: bool, lock: Lock)
    | Execute(write: Write)
    | Record(row: Row)
    | Nested(call: Call, caught: bool)
    | Raise

  // ---- what a body does, step by step ----------------------------------------

  /** A boundary under way: what it declared, wrote and recorded, and what others committed before its lock. */
  datatype Life = Life(
    began: bool,
    bump: bool,
    mine: seq<Write>,
    rows: seq<Row>,
    others: seq<Write>,
    generations: nat,
    raised: bool)

  const BORN := Life(false, false, [], [], [], 0, false)

  function Play(readOnly: bool, actions: seq<Action>, life: Life): Life
    decreases actions
  {
    if life.raised || actions == [] then life
    else Play(readOnly, actions[1..], PlayOne(readOnly, actions[0], life))
  }

  function PlayOne(readOnly: bool, action: Action, life: Life): Life
    decreases action
  {
    match action
    case Declare(canonical, lock) =>
      if readOnly || (!life.began && lock.Busy?) then life.(raised := true)
      else
        var locked := if life.began then life
            else life.(began := true, others := lock.others, generations := lock.generations);
        if canonical then locked.(bump := true) else locked
    case Execute(write) => if life.began then life.(mine := life.mine + [write]) else life.(raised := true)
    case Record(row) => if readOnly then life else life.(rows := life.rows + [row])
    case Nested(call, caught) =>
      if life.raised then life
      else
        var inner := Play(readOnly, call.body, life);
        if caught then inner.(raised := false) else inner
    case Raise => life.(raised := true)
  }

  /** `total_changes` gained by these writes. */
  function Changed(writes: seq<Write>): nat {
    if writes == [] then 0 else Changed(writes[..|writes| - 1]) + writes[|writes| - 1].rows
  }

  /** Whether closing the boundary is a generation. */
  predicate Bumps(life: Life) {
    !life.raised && life.began && life.bump && Changed(life.mine) > 0
  }

  /** Whether what the boundary wrote is kept. */
  predicate Commits(life: Life, fate: Fate) {
    !life.raised && life.began && fate != CommitFails && (Bumps(life) ==> fate != BumpFails)
  }

  /** Whether the caller sees an exception. */
  predicate Fails(life: Life, fate: Fate) {
    life.raised || (life.began && !Commits(life, fate))
  }

  function Flat(handed: seq<seq<Row>>): seq<Row> {
    if handed == [] then [] else Flat(handed[..|handed| - 1]) + handed[|handed| - 1]
  }

  lemma FlatOneMore(handed: seq<seq<Row>>, rows: seq<Row>)
    ensures Flat(handed + [rows]) == Flat(handed) + rows
  {
    assert (handed + [rows])[..|handed|] == handed;
  }

  datatype File = File(committed: seq<Write>, generation: nat, handed: seq<seq<Row>>, deferred: Option<seq<Row>>)

  /**
   * A boundary's whole effect. The file keeps the body's writes all together or not at all; the generation grows
   * by one exactly for a kept canonical write that changed a row; every row recorded, kept call or not, is handed
   * out once or left deferred, after the rows an earlier call left.
   */
  function Close(readOnly: bool, f: File, call: Call): File {
    var life := Play(readOnly, call.body, BORN);
    File(
      f.committed + life.others + (if Commits(life, call.fate) then life.mine else []),
      f.generation + life.generations + (if Commits(life, call.fate) && Bumps(life) then 1 else 0),
      Flushed(f).handed + (if life.rows != [] && !call.defer then [life.rows] else []),
      if life.rows != [] && call.defer then Some(life.rows) else None)
  }

  function Flushed(f: File): File {
    f.(handed := f.handed + if f.deferred.Some? then [f.deferred.value] else [], deferred := None)
  }

  function RecordedAlone(readOnly: bool, f: File, row: Row): File {
    if readOnly then f else Flushed(f).(handed := Flushed(f).handed + [[row]])
  }

  class Database {
    const readOnly: bool
    /** The file: every write committed by any process, the generation, and each traffic write handed to it. */
    var committed: seq<Write>
    var generation: nat
    var handed: seq<seq<Row>>
    /** The thread's state: the open boundary, and the rows a deferred one left. */
    var connected: bool
    var began: bool
    var bump: bool
    var changes: nat
    var total: nat
    var working: seq<Write>
    var traffic: seq<Row>
    var deferred: Option<seq<Row>>

    constructor (readOnly: bool, committed: seq<Write>, generation: nat)
      ensures !connected && deferred == None && handed == []
      ensures this.readOnly == readOnly && this.committed == committed && this.generation == generation
    {
      this.readOnly, this.committed, this.generation := readOnly, committed, generation;
      handed, connected, began, bump := [], false, false, false;
      changes, total, working, traffic, deferred := 0, 0, [], [], None;
    }

    /** The open boundary is at this point of its life; the file is as it found it but for others' commits. */
    ghost predicate At(life: Life, base: seq<Write>, start: nat)
      reads this
    {
      && connected && began == life.began && bump == life.bump && traffic == life.rows
      && (life.began ==>
            && committed == base + life.others && generation == start + life.generations
            && working == committed + life.mine && changes <= total && total - changes == Changed(life.mine))
      && (!life.began ==>
            && committed == base && generation == start
            && life.mine == [] && life.others == [] && life.generations == 0)
    }

    /** `begin_write`. */
    method BeginWrite(canonical: bool, lock: Lock, ghost life: Life, ghost base: seq<Write>, ghost start: nat)
      returns (raised: bool)
      requires At(life, base, start) && !life.raised
      modifies this`committed, this`generation, this`working, this`began, this`bump, this`changes
      ensures At(PlayOne(readOnly, Declare(canonical, lock), life), base, start)
      ensures raised == PlayOne(readOnly, Declare(canonical, lock), life).raised
    {
      if readOnly {
        return true;
      }
      if !began {
        if lock.Busy? {
          return true;
        }
        committed, generation := committed + lock.others, generation + lock.generations;
        working := committed;
        began := true;
        changes := total;
      }
      if canonical {
        bump := true;
      }
      return false;
    }

    /** A body, up to the first exception it lets through. */
    method Perform(actions: seq<Action>, ghost life: Life, ghost base: seq<Write>, ghost start: nat)
      returns (raised: bool)
      requires At(life, base, start) && !life.raised
      modifies this`committed, this`generation, this`working, this`began, this`bump, this`changes,
               this`total, this`traffic
      ensures At(Play(readOnly, actions, life), base, start)
      ensures raised == Play(readOnly, actions, life).raised
      decreases actions
    {
      if actions == [] {
        return false;
      }
      ghost var next := PlayOne(readOnly, actions[0], life);
      raised := PerformOne(actions[0], life, base, start);
      if raised {
        assert Play(readOnly, actions[1..], next) == next;
        return true;
      }
      raised := Perform(actions[1..], next, base, start);
    }

    /** A statement: refused before a write is declared. */
    method Run(write: Write, ghost life: Life, ghost base: seq<Write>, ghost start: nat) returns (raised: bool)
      requires At(life, base, start) && !life.raised
      modifies this`working, this`total
      ensures At(PlayOne(readOnly, Execute(write), life), base, start)
      ensures raised == PlayOne(readOnly, Execute(write), life).raised
    {
      if !began {
        return true;
      }
      assert (life.mine + [write])[..|life.mine|] == life.mine;
      working := working + [write];
      total := total + write.rows;
      return false;
    }

    method PerformOne(action: Action, ghost life: Life, ghost base: seq<Write>, ghost start: nat) returns (raised: bool)
      requires At(life, base, start) && !life.raised
      modifies this`committed, this`generation, this`working, this`began, this`bump, this`changes,
               this`total, this`traffic
      ensures At(PlayOne(readOnly, action, life), base, start)
      ensures raised == PlayOne(readOnly, action, life).raised
      decreases action
    {
      match action
      case Declare(canonical, lock) =>
        raised := BeginWrite(canonical, lock, life, base, start);
      case Execute(write) =>
        raised := Run(write, life, base, start);
      case Record(row) =>
        if !readOnly {
          traffic := traffic + [row];
        }
        raised := false;
      case Nested(call, caught) =>
        // A boundary inside an open one is part of it: it opens, commits and closes nothing.
        raised := Perform(call.body, life, base, start);
        if caught {
          raised := false;
        }
      case Raise =>
        raised := true;
    }

    /** `_write_traffic`: one short transaction; its failure is swallowed, never tried again. */
    method WriteTraffic(rows: seq<Row>)
      modifies this`handed
      ensures handed == old(handed) + [rows]
    {
      handed := handed + [rows];
    }

    /** `flush_traffic`. */
    method FlushTraffic()
      modifies this`handed, this`deferred
      ensures deferred == None
      ensures handed == old(handed) + if old(deferred).Some? then [old(deferred).value] else []
    {
      var rows := deferred;
      deferred := None;
      if rows.None? {
        return;
      }
      WriteTraffic(rows.value);
    }

    /** `record_traffic` outside any boundary: written at once, in a boundary of its own, which flushes first. */
    method RecordAlone(row: Row)
      requires !connected
      modifies this`handed, this`deferred
      ensures Current() == RecordedAlone(readOnly, old(Current()), row)
    {
      if readOnly {
        return;
      }
      FlushTraffic();
      WriteTraffic([row]);
    }

    ghost function Current(): File
      reads this
    {
      File(committed, generation, handed, deferred)
    }

    /** The outermost `tool_boundary`. */
    method Boundary(call: Call) returns (raised: bool)
      requires !connected
      modifies this
      ensures !connected && raised == Fails(Play(readOnly, call.body, BORN), call.fate)
      ensures Current() == Close(readOnly, old(Current()), call)
    {
      FlushTraffic();
      connected, began, bump, traffic := true, false, false, [];
      ghost var base, start := committed, generation;
      raised := Perform(call.body, BORN, base, start);
      ghost var life := Play(readOnly, call.body, BORN);
      raised := Finish(raised, call.fate, life, base, start);
      HandOut(call.defer);
    }

    /** The end of the boundary: its rows go out on its own connection, or wait for the flush. */
    method HandOut(defer: bool)
      requires deferred == None
      modifies this`connected, this`began, this`bump, this`traffic, this`handed, this`deferred
      ensures !connected
      ensures handed == old(handed) + if old(traffic) != [] && !defer then [old(traffic)] else []
      ensures deferred == if old(traffic) != [] && defer then Some(old(traffic)) else None
    {
      var rows := traffic;
      connected, began, bump, traffic := false, false, false, [];
      if rows != [] && defer {
        deferred := Some(rows);
      } else if rows != [] {
        WriteTraffic(rows);
      }
    }

    /** The end of the transaction: the generation, then the commit, or the rollback. */
    method Finish(failed: bool, fate: Fate, ghost life: Life, ghost base: seq<Write>, ghost start: nat)
      returns (raised: bool)
      requires At(life, base, start) && failed == life.raised
      modifies this`committed, this`generation
      ensures raised == Fails(life, fate)
      ensures committed == base + life.others + if Commits(life, fate) then life.mine else []
      ensures generation == start + life.generations + if Commits(life, fate) && Bumps(life) then 1 else 0
    {
      raised := failed;
      if began && !failed {
        if bump && total != changes {
          if fate.BumpFails? {
            return true;
          }
          if fate.CommitFails? {
            return true;
          }
          committed, generation := working, generation + 1;
        } else {
          if fate.CommitFails? {
            return true;
          }
          committed := working;
        }
      }
    }
  }

  // ---- every run -------------------------------------------------------------

  /** What a thread does between its calls, and what other processes commit meanwhile. */
  datatype Op =
    | Tool(call: Call)
    | Flush
    | Alone(row: Row)
    | Others(writes: seq<Write>, generations: nat)

  function Do(readOnly: bool, f: File, op: Op): File {
    match op
    case Tool(call) => Close(readOnly, f, call)
    case Flush => Flushed(f)
    case Alone(row) => RecordedAlone(readOnly, f, row)
    case Others(writes, generations) => f.(committed := f.committed + writes, generation := f.generation + generations)
  }

  function DoAll(readOnly: bool, f: File, ops: seq<Op>): File {
    if ops == [] then f else Do(readOnly, DoAll(readOnly, f, ops[..|ops| - 1]), ops[|ops| - 1])
  }

  /** Every row the ops recorded, in order, whatever became of the calls that recorded them. */
  function Recorded(readOnly: bool, op: Op): seq<Row> {
    match op
    case Tool(call) => Play(readOnly, call.body, BORN).rows
    case Alone(row) => if readOnly then [] else [row]
    case _ => []
  }

  function AllRecorded(readOnly: bool, ops: seq<Op>): seq<Row> {
    if ops == [] then [] else AllRecorded(readOnly, ops[..|ops| - 1]) + Recorded(readOnly, ops[|ops| - 1])
  }

  function Waiting(f: File): seq<Row> {
    if f.deferred.Some? then f.deferred.value else []
  }

  /** Every row handed out or waiting, in order. */
  function Out(f: File): seq<Row> {
    Flat(f.handed) + Waiting(f)
  }

  lemma FlushHandsOut(f: File)
    ensures Flat(Flushed(f).handed) == Flat(f.handed) + Waiting(f)
  {
    if f.deferred.Some? {
      FlatOneMore(f.handed, f.deferred.value);
    } else {
      assert f.handed + [] == f.handed;
    }
  }

  lemma AppendedHandsOut(f: File, rows: seq<Row>)
    requires f.deferred == None
    ensures Out(f.(handed := f.handed + [rows])) == Out(f) + rows
    ensures Out(f.(deferred := Some(rows))) == Out(f) + rows
  {
    FlatOneMore(f.handed, rows);
  }

  /** A call's rows go out after those of the calls before it. */
  lemma CloseHandsOut(readOnly: bool, f: File, call: Call)
    ensures Out(Close(readOnly, f, call)) == Out(f) + Play(readOnly, call.body, BORN).rows
  {
    var rows, flushed := Play(readOnly, call.body, BORN).rows, Flushed(f);
    FlushHandsOut(f);
    assert Out(flushed) == Out(f);
    AppendedHandsOut(flushed, rows);
    var closed := Close(readOnly, f, call);
    if rows == [] {
      assert flushed.handed + [] == flushed.handed;
      assert Out(closed) == Out(flushed) + rows;
    } else if call.defer {
      assert flushed.handed + [] == flushed.handed;
      assert Out(closed) == Out(flushed.(deferred := Some(rows)));
    } else {
      assert Out(closed) == Out(flushed.(handed := flushed.handed + [rows]));
    }
  }

  lemma OneOpHandsOut(readOnly: bool, f: File, op: Op)
    ensures Out(Do(readOnly, f, op)) == Out(f) + Recorded(readOnly, op)
  {
    match op
    case Tool(call) => CloseHandsOut(readOnly, f, call);
    case Flush =>
      FlushHandsOut(f);
      assert Out(Flushed(f)) == Out(f);
    case Alone(row) =>
      FlushHandsOut(f);
      AppendedHandsOut(Flushed(f), [row]);
    case Others(_, _) =>
  }

  /**
   * Over every run each recorded row is in exactly one traffic write, or waits in the one deferred batch, and none
   * overtakes an earlier one.
   */
  lemma {:induction false} EveryRowIsHandedOnce(readOnly: bool, f: File, ops: seq<Op>)
    requires f.handed == [] && f.deferred == None
    ensures Out(DoAll(readOnly, f, ops)) == AllRecorded(readOnly, ops)
    decreases |ops|
  {
    if ops != [] {
      var init := ops[..|ops| - 1];
      EveryRowIsHandedOnce(readOnly, f, init);
      OneOpHandsOut(readOnly, DoAll(readOnly, f, init), ops[|ops| - 1]);
    }
  }

  // ---- reentrancy ------------------------------------------------------------

  lemma {:induction false} PlayAppend(readOnly: bool, first: seq<Action>, second: seq<Action>, life: Life)
    ensures Play(readOnly, first + second, life) == Play(readOnly, second, Play(readOnly, first, life))
    decreases |first|
  {
    if first == [] {
      assert first + second == second;
    } else if !life.raised {
      assert (first + second)[1..] == first[1..] + second;
      PlayAppend(readOnly, first[1..], second, PlayOne(readOnly, first[0], life));
    }
  }

  /** A tool that calls another is one transaction: the inner boundary may as well not be there. */
  lemma NestingIsTransparent(readOnly: bool, before: seq<Action>, inner: Call, after: seq<Action>, life: Life)
    ensures Play(readOnly, before + [Nested(inner, false)] + after, life)
        == Play(readOnly, before + inner.body + after, life)
  {
    PlayAppend(readOnly, before + [Nested(inner, false)], after, life);
    PlayAppend(readOnly, before, [Nested(inner, false)], life);
    PlayAppend(readOnly, before + inner.body, after, life);
    PlayAppend(readOnly, before, inner.body, life);
    var mid := Play(readOnly, before, life);
    if !mid.raised {
      assert [Nested(inner, false)][1..] == [];
      assert Play(readOnly, [Nested(inner, false)], mid) == Play(readOnly, inner.body, mid);
    }
  }

  // ---- what a call leaves, told by its actions -------------------------------

  ghost predicate SomeRowChanged(writes: seq<Write>) {
    exists k :: 0 <= k < |writes| && writes[k].rows > 0
  }

  lemma {:induction false} ChangedIffSomeRow(writes: seq<Write>)
    ensures Changed(writes) > 0 <==> SomeRowChanged(writes)
    decreases |writes|
  {
    if writes != [] {
      var n := |writes| - 1;
      ChangedIffSomeRow(writes[..n]);
      if SomeRowChanged(writes[..n]) {
        var k :| 0 <= k < n && writes[..n][k].rows > 0;
        assert writes[k].rows > 0;
      }
    }
  }

  /** What an outermost boundary that played this life leaves: nothing of its own after an exception, a failed bump or a
      failed commit; else every write, and one generation more exactly if a canonical write was declared and a row
      changed. */
  lemma CloseByFate(readOnly: bool, f: File, call: Call)
    ensures
      var life, after := Play(readOnly, call.body, BORN), Close(readOnly, f, call);
      var changed := life.bump && SomeRowChanged(life.mine);
      var undone :=
        life.raised || !life.began || call.fate == CommitFails || (call.fate == BumpFails && changed);
      && (undone ==> after.committed == f.committed + life.others)
      && (undone ==> after.generation == f.generation + life.generations)
      && (!undone ==> after.committed == f.committed + life.others + life.mine)
      && (!undone ==> after.generation == f.generation + life.generations + if changed then 1 else 0)
      && (Fails(life, call.fate) <==> life.raised || (life.began && undone))
  {
    ChangedIffSomeRow(Play(readOnly, call.body, BORN).mine);
  }

  /** No nesting and nothing that fails: every lock is free, and a write is declared before the first statement. */
  ghost predicate Smooth(body: seq<Action>) {
    forall k | 0 <= k < |body| ::
      || (body[k].Declare? && body[k].lock.Free?)
      || (body[k].Execute? && exists j :: 0 <= j < k && body[j].Declare?)
      || body[k].Record?
  }

  /** The statements of a body, in order. */
  function Statements(body: seq<Action>): seq<Write> {
    if body == [] then []
    else
      var last := body[|body| - 1];
      Statements(body[..|body| - 1]) + if last.Execute? then [last.write] else []
  }

  /** The rows it records, in order. */
  function Recordings(body: seq<Action>): seq<Row> {
    if body == [] then []
    else
      var last := body[|body| - 1];
      Recordings(body[..|body| - 1]) + if last.Record? then [last.row] else []
  }

  ghost predicate Declares(body: seq<Action>) {
    exists k :: 0 <= k < |body| && body[k].Declare?
  }

  ghost predicate DeclaresCanonical(body: seq<Action>) {
    exists k :: 0 <= k < |body| && body[k].Declare? && body[k].canonical
  }

  ghost predicate FirstDeclare(body: seq<Action>, k: int) {
    0 <= k < |body| && body[k].Declare? && forall j | 0 <= j < k :: !body[j].Declare?
  }

  ghost predicate LivedSmoothly(body: seq<Action>, life: Life) {
    && !life.raised && life.mine == Statements(body) && life.rows == Recordings(body)
    && (life.began <==> Declares(body)) && (life.bump <==> DeclaresCanonical(body))
    && (forall k | FirstDeclare(body, k) ::
          body[k].lock.Free? && life.others == body[k].lock.others && life.generations == body[k].lock.generations)
  }

  lemma SmoothPrefix(body: seq<Action>)
    requires Smooth(body) && body != []
    ensures Smooth(body[..|body| - 1])
  {
    var init := body[..|body| - 1];
    forall k | 0 <= k < |init| && init[k].Execute?
      ensures exists j :: 0 <= j < k && init[j].Declare?
    {
      var j :| 0 <= j < k && body[j].Declare?;
      assert init[j].Declare?;
    }
  }

  lemma DeclaresMore(body: seq<Action>)
    requires body != []
    ensures
      var init, last := body[..|body| - 1], body[|body| - 1];
      && (Declares(body) <==> Declares(init) || last.Declare?)
      && (DeclaresCanonical(body) <==> DeclaresCanonical(init) || (last.Declare? && last.canonical))
      && (forall k | FirstDeclare(body, k) :: FirstDeclare(init, k) || (k == |init| && !Declares(init)))
  {
    var init := body[..|body| - 1];
    if Declares(init) {
      var k :| 0 <= k < |init| && init[k].Declare?;
      assert body[k].Declare?;
    }
    if DeclaresCanonical(init) {
      var k :| 0 <= k < |init| && init[k].Declare? && init[k].canonical;
      assert body[k].canonical;
    }
  }

  lemma SmoothStep(body: seq<Action>, life: Life)
    requires Smooth(body) && body != [] && LivedSmoothly(body[..|body| - 1], life)
    ensures LivedSmoothly(body, PlayOne(false, body[|body| - 1], life))
  {
    DeclaresMore(body);
    var init, last := body[..|body| - 1], body[|body| - 1];
    if last.Execute? {
      var j :| 0 <= j < |init| && body[j].Declare?;
      assert init[j].Declare?;
    }
    forall k | FirstDeclare(body, k)
      ensures var next := PlayOne(false, last, life);
              body[k].lock.Free? && next.others == body[k].lock.others && next.generations == body[k].lock.generations
    {
      if k < |init| {
        assert FirstDeclare(init, k) && init[k].Declare?;
      }
    }
  }

  /** A smooth body runs every statement and records every row in order, over what the first lock found, and the
      boundary bumps exactly if some write it declares is canonical. */
  lemma {:induction false} SmoothLife(body: seq<Action>)
    requires Smooth(body)
    ensures LivedSmoothly(body, Play(false, body, BORN))
    decreases |body|
  {
    if body != [] {
      var init, last := body[..|body| - 1], body[|body| - 1];
      SmoothPrefix(body);
      SmoothLife(init);
      assert body == init + [last];
      PlayAppend(false, init, [last], BORN);
      var mid := Play(false, init, BORN);
      assert [last][1..] == [];
      assert Play(false, [last], mid) == PlayOne(false, last, mid);
      SmoothStep(body, mid);
    }
  }

  /** What stops a body: an exception, a statement before any write is declared, a write in a store open read-only, a
      lock another process holds. */
  predicate Stops(readOnly: bool, action: Action, began: bool) {
    match action
    case Raise => true
    case Execute(_) => !began
    case Declare(_, lock) => readOnly || (!began && lock == Busy)
    case _ => false
  }

  lemma PlayAround(readOnly: bool, before: seq<Action>, action: Action, after: seq<Action>, life: Life)
    requires !Play(readOnly, before, life).raised
    ensures Play(readOnly, before + [action] + after, life)
         == Play(readOnly, after, PlayOne(readOnly, action, Play(readOnly, before, life)))
  {
    PlayAppend(readOnly, before + [action], after, life);
    PlayAppend(readOnly, before, [action], life);
    var mid := Play(readOnly, before, life);
    assert [action][1..] == [];
    assert Play(readOnly, [action], mid) == PlayOne(readOnly, action, mid);
  }

  /** Nothing else raises. */
  lemma RaisesIffStops(readOnly: bool, before: seq<Action>, action: Action, life: Life)
    requires !Play(readOnly, before, life).raised && !action.Nested?
    ensures Play(readOnly, before + [action], life).raised <==>
      Stops(readOnly, action, Play(readOnly, before, life).began)
  {
    PlayAround(readOnly, before, action, [], life);
    assert before + [action] + [] == before + [action];
  }

  /** Nothing after it happens. */
  lemma StoppedThere(readOnly: bool, before: seq<Action>, action: Action, after: seq<Action>, life: Life)
    requires var mid := Play(readOnly, before, life); !mid.raised && Stops(readOnly, action, mid.began)
    ensures Play(readOnly, before + [action] + after, life) == Play(readOnly, before, life).(raised := true)
  {
    PlayAround(readOnly, before, action, after, life);
  }

  /** A boundary that began has taken a lock; one that has not, has written nothing, met nobody and bumps nothing. */
  ghost predicate Idle(life: Life) {
    !life.began ==> !life.bump && life.mine == [] && life.others == [] && life.generations == 0
  }

  lemma {:induction false} IdleOne(readOnly: bool, action: Action, life: Life)
    requires Idle(life)
    ensures Idle(PlayOne(readOnly, action, life))
    decreases action
  {
    match action
    case Nested(call, caught) =>
      if !life.raised {
        IdleUntilDeclared(readOnly, call.body, life);
      }
    case _ =>
  }

  lemma {:induction false} IdleUntilDeclared(readOnly: bool, actions: seq<Action>, life: Life)
    requires Idle(life)
    ensures Idle(Play(readOnly, actions, life))
    decreases actions
  {
    if !life.raised && actions != [] {
      IdleOne(readOnly, actions[0], life);
      IdleUntilDeclared(readOnly, actions[1..], PlayOne(readOnly, actions[0], life));
    }
  }

  /** A call that declares no write that takes its lock leaves the file as it found it. */
  lemma UndeclaredLeavesAll(readOnly: bool, f: File, call: Call)
    requires !Play(readOnly, call.body, BORN).began
    ensures Close(readOnly, f, call).committed == f.committed && Close(readOnly, f, call).generation == f.generation
  {
    IdleUntilDeclared(readOnly, call.body, BORN);
  }

  /** A nested boundary whose exception is caught keeps what it did, and the body goes on. */
  lemma CaughtGoesOn(readOnly: bool, before: seq<Action>, inner: Call, after: seq<Action>, life: Life)
    requires !Play(readOnly, before, life).raised
    ensures Play(readOnly, before + [Nested(inner, true)] + after, life)
         == Play(readOnly, after, Play(readOnly, before + inner.body, life).(raised := false))
  {
    PlayAround(readOnly, before, Nested(inner, true), after, life);
    PlayAppend(readOnly, before, inner.body, life);
  }

  /** A smooth call that closes commits every statement, and is a generation exactly if it declares a canonical write
      and a statement changed a row. */
  lemma SmoothCall(f: File, call: Call, k: nat)
    requires Smooth(call.body) && FirstDeclare(call.body, k) && call.fate == Closes
    ensures
      var after, lock := Close(false, f, call), call.body[k].lock;
      && lock.Free?
      && after.committed == f.committed + lock.others + Statements(call.body)
      && after.generation == f.generation + lock.generations
         + if DeclaresCanonical(call.body) && SomeRowChanged(Statements(call.body)) then 1 else 0
  {
    SmoothLife(call.body);
    CloseByFate(false, f, call);
    assert call.body[k].Declare?;
  }

  /** A call stopped after a smooth start commits none of its statements and is no generation, whatever follows. */
  lemma StoppedCall(f: File, before: seq<Action>, action: Action, after: seq<Action>, defer: bool, fate: Fate, k: nat)
    requires Smooth(before) && FirstDeclare(before, k) && action.Raise?
    ensures
      var left, lock := Close(false, f, Call(defer, before + [action] + after, fate)), before[k].lock;
      lock.Free? && left.committed == f.committed + lock.others && left.generation == f.generation + lock.generations
  {
    SmoothLife(before);
    StoppedThere(false, before, action, after, BORN);
    CloseByFate(false, f, Call(defer, before + [action] + after, fate));
  }

  lemma {:induction false} ReadOnlyNeverBegins(actions: seq<Action>, life: Life)
    requires !life.began
    ensures !Play(true, actions, life).began && Play(true, actions, life).rows == life.rows
    decreases actions
  {
    if actions != [] && !life.raised {
      ReadOnlyStep(actions[0], life);
      ReadOnlyNeverBegins(actions[1..], PlayOne(true, actions[0], life));
    }
  }

  lemma {:induction false} ReadOnlyStep(action: Action, life: Life)
    requires !life.began
    ensures !PlayOne(true, action, life).began && PlayOne(true, action, life).rows == life.rows
    decreases action
  {
    match action
    case Nested(call, caught) =>
      if !life.raised {
        ReadOnlyNeverBegins(call.body, life);
      }
    case _ =>
  }

  /** A store open read-only is left exactly as it was, whatever the tools try and whatever they catch. */
  lemma ReadOnlyChangesNothing(f: File, call: Call)
    requires f.deferred == None
    ensures Close(true, f, call).handed == f.handed && Close(true, f, call).deferred == None
    ensures Commits(Play(true, call.body, BORN), call.fate) == false
  {
    ReadOnlyNeverBegins(call.body, BORN);
  }
}
