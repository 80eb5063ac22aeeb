/** Every interleaving of one elected builder with any other writers: the builder may die
    between any two transactions, and the next one resumes from what was committed. */
module TermIndexRuns {
  import opened Words
  import opened Tables
  import opened TermIndex
  import opened TermIndexInvariant

  /** What the running build holds in memory. */
  datatype Builder =
    | Idle
    | Resetting(t: string)
    | Opened(t: string, through: int, cursor: Key)
    | Filling(t: string, cursor: Key, lengths: seq<DocRow>, rows: seq<Posting>)
    | Writing(t: string, cursor: Key, rows: seq<Posting>)

  datatype System = System(db: Db, builder: Builder)

  datatype Event =
    | WriterInserts(t: string, s: int, text: string)
    | WriterForgets(t: string, s: int)
    | RawInserts(s: int, json: Option<string>)
    | RawUpdates(s: int, moved: int, json: Option<string>)
    | RawDeletes(s: int)
    | ObjectsDamaged(postings: map<Key, nat>, documents: map<int, nat>, state: State)
    | ObjectsAdded(t: string)
    | BuildStarts(t: string)
    | BuildResets
    | BuildReads(lengths: seq<DocRow>, rows: seq<Posting>)
    | BuildFills
    | BuildPosts
    | CatchesUp(t: string)
    | BuilderDies

  /** The token read of a build: one snapshot, the document lengths and the postings above the cursor. */
  ghost predicate IsSnapshot(lex: Lexer, c: Capsules, b: Builder, lengths: seq<DocRow>, rows: seq<Posting>)
    requires b.Opened?
  {
    && Sorted(lengths) && KeySorted(rows)
    && (forall r: DocRow :: r in lengths <==>
          Live(c, r.doc) && r.doc <= b.through && r.length == |lex.tokens(b.t, c[r.doc].value)|)
    && (forall p: Posting :: p in rows <==>
          && Live(c, p.key.doc) && p.key.doc <= b.through && b.cursor.Before(p.key)
          && p.key.word in lex.tokens(b.t, c[p.key.doc].value)
          && p.tf == Frequency(lex, b.t, c[p.key.doc].value, p.key.word))
  }

  /** An event of another process: it never touches the builder's memory. */
  predicate Foreign(e: Event) {
    !e.BuildStarts? && !e.BuildResets? && !e.BuildReads? && !e.BuildFills? && !e.BuildPosts? && !e.BuilderDies?
  }

  /** SQLite accepts the statement, and the repository the call. */
  predicate Accepts(db: Db, e: Event)
    requires Foreign(e)
  {
    match e
    case WriterInserts(t, s, text) => Newer(db, s)
    case WriterForgets(t, s) => Live(db.capsules, s)
    case RawInserts(s, json) => s !in db.capsules
    case RawUpdates(s, moved, json) => s in db.capsules && (moved == s || moved !in db.capsules)
    case _ => true
  }

  function Apply(lex: Lexer, db: Db, e: Event): Db
    requires Foreign(e) && Accepts(db, e)
  {
    match e
    case WriterInserts(t, s, text) => Insert(lex, t, db, s, text)
    case WriterForgets(t, s) => Forget(lex, t, db, s)
    case RawInserts(s, json) => RawInsert(db, s, json)
    case RawUpdates(s, moved, json) => RawUpdate(db, s, moved, json)
    case RawDeletes(s) => RawDelete(db, s)
    case ObjectsDamaged(postings, documents, state) => Db(db.capsules, false, postings, documents, state, db.floor)
    case ObjectsAdded(t) => AddObjects(db, t)
    case CatchesUp(t) => CatchUp(lex, t, db)
  }

  ghost predicate Enabled(lex: Lexer, sys: System, e: Event) {
    match e
    case BuildStarts(t) => sys.builder.Idle?
    case BuildResets => sys.builder.Resetting?
    case BuildReads(lengths, rows) =>
      sys.builder.Opened? && IsSnapshot(lex, sys.db.capsules, sys.builder, lengths, rows)
    case BuildFills => sys.builder.Filling?
    case BuildPosts => sys.builder.Writing?
    case BuilderDies => true
    case _ => Accepts(sys.db, e)
  }

  /** The start of `_build_term_index`, read without the lock: nothing to do, a resume, or a reset to make. */
  function Begin(db: Db, t: string): Builder {
    if db.intact && db.state.phase == Complete && db.state.tokenizer == t then Idle
    else if db.intact && db.state.phase == Building && db.state.tokenizer == t && db.state.cursor.Some? then
      Opened(t, db.state.covered, db.state.cursor.value)
    else Resetting(t)
  }

  /** The first transaction of a build that starts afresh, over whatever was committed since the state was read. */
  function ResetStep(db: Db, t: string): System {
    System(Reset(db, Newest(db), Building, t), Opened(t, Newest(db), ORIGIN))
  }

  function FillStep(db: Db, b: Builder): System
    requires b.Filling?
  {
    var batch := NextBatch(db, b.lengths);
    if !Owns(db, b.t, b.cursor) then System(db, Idle)
    else if batch == [] then System(db, Writing(b.t, b.cursor, b.rows))
    else if LiveRows(batch, db.capsules) == [] then
      System(db, b.(lengths := After(b.lengths, batch[|batch| - 1].doc)))
    else System(Fill(db, b.lengths), b)
  }

  function PostStep(db: Db, b: Builder): System
    requires b.Writing?
  {
    if !Owns(db, b.t, b.cursor) then System(db, Idle)
    else if b.rows == [] then System(PostSlice(db, []), Idle)
    else
      var n := |Batch(b.rows)|;
      System(PostSlice(db, Batch(b.rows)), Writing(b.t, b.rows[n - 1].key, b.rows[n..]))
  }

  ghost function Step(lex: Lexer, sys: System, e: Event): System
    requires Enabled(lex, sys, e)
  {
    var db := sys.db;
    match e
    case BuildStarts(t) => sys.(builder := Begin(db, t))
    case BuildResets => ResetStep(db, sys.builder.t)
    case BuildReads(lengths, rows) => sys.(builder := Filling(sys.builder.t, sys.builder.cursor, lengths, rows))
    case BuildFills => FillStep(db, sys.builder)
    case BuildPosts => PostStep(db, sys.builder)
    case BuilderDies => sys.(builder := Idle)
    case _ => sys.(db := Apply(lex, db, e))
  }

  // ---- what the builder may rely on ------------------------------------------

  /** Other writers either take the index away or leave the covered live capsules as they were. */
  ghost predicate Rely(db: Db, after: Db, t: string, cursor: Key) {
    Owns(after, t, cursor) ==>
      && Owns(db, t, cursor) && after.state.covered == db.state.covered && after.floor == db.floor
      && forall s | Live(after.capsules, s) && db.floor < s <= db.state.covered ::
           && Live(db.capsules, s) && after.capsules[s] == db.capsules[s]
           && (s in after.documents <==> s in db.documents)
  }

  /** A builder past its reset works under a cursor. */
  predicate Holding(b: Builder) {
    !b.Idle? && !b.Resetting?
  }

  ghost predicate BuilderInv(lex: Lexer, db: Db, b: Builder) {
    match b
    case Idle => true
    case Resetting(t) => true
    case Opened(t, through, cursor) => Owns(db, t, cursor) ==> db.state.covered == through
    case Filling(t, cursor, lengths, rows) =>
      Owns(db, t, cursor) ==> LengthsFor(lex, db, lengths) && RowsFor(lex, db, cursor, rows)
    case Writing(t, cursor, rows) =>
      Owns(db, t, cursor) ==> AllDocuments(db) && RowsFor(lex, db, cursor, rows)
  }

  lemma RelyKeepsRows(lex: Lexer, db: Db, after: Db, t: string, cursor: Key, rows: seq<Posting>)
    requires Rely(db, after, t, cursor) && Owns(after, t, cursor) && RowsFor(lex, db, cursor, rows)
    ensures RowsFor(lex, after, cursor, rows)
  {
  }

  lemma RelyKeepsBuilder(lex: Lexer, db: Db, after: Db, b: Builder)
    requires BuilderInv(lex, db, b)
    requires Holding(b) ==> Rely(db, after, b.t, b.cursor)
    ensures BuilderInv(lex, after, b)
  {
    if Holding(b) && !b.Opened? && Owns(after, b.t, b.cursor) {
      RelyKeepsRows(lex, db, after, b.t, b.cursor, b.rows);
    }
  }

  ghost predicate SystemInv(lex: Lexer, sys: System) {
    Inv(lex, sys.db) && BuilderInv(lex, sys.db, sys.builder)
  }

  lemma ForeignRely(lex: Lexer, db: Db, e: Event, t: string, cursor: Key)
    requires Inv(lex, db) && Foreign(e) && Accepts(db, e)
    ensures Rely(db, Apply(lex, db, e), t, cursor)
  {
    match e
    case WriterInserts(u, s, text) => InsertRely(lex, db, u, s, text, t, cursor);
    case WriterForgets(u, s) => ForgetRely(lex, db, u, s, t, cursor);
    case _ =>
  }

  lemma InsertRely(lex: Lexer, db: Db, u: string, s: int, text: string, t: string, cursor: Key)
    requires s !in db.capsules
    ensures Rely(db, Insert(lex, u, db, s, text), t, cursor)
  {
  }

  lemma ForgetRely(lex: Lexer, db: Db, u: string, s: int, t: string, cursor: Key)
    requires Inv(lex, db) && Live(db.capsules, s)
    ensures Rely(db, Forget(lex, u, db, s), t, cursor)
  {
  }

  lemma ForeignKeepsInv(lex: Lexer, db: Db, e: Event)
    requires Inv(lex, db) && Foreign(e) && Accepts(db, e)
    ensures Inv(lex, Apply(lex, db, e))
  {
    match e
    case WriterInserts(t, s, text) => InsertKeeps(lex, t, db, s, text);
    case WriterForgets(t, s) => ForgetKeeps(lex, t, db, s);
    case RawInserts(s, json) => RawInsertKeeps(lex, db, s, json);
    case RawUpdates(s, moved, json) => RawUpdateKeeps(lex, db, s, moved, json);
    case RawDeletes(s) => RawDeleteKeeps(lex, db, s);
    case ObjectsAdded(t) => ResetIsExact(lex, db, 0, Invalid, t);
    case CatchesUp(t) => CatchUpKeeps(lex, t, db);
    case ObjectsDamaged(_, _, _) =>
  }

  lemma ResetKeeps(lex: Lexer, db: Db, t: string)
    requires Inv(lex, db)
    ensures SystemInv(lex, ResetStep(db, t))
  {
    ResetIsExact(lex, db, Newest(db), Building, t);
  }

  lemma ReadKeeps(lex: Lexer, db: Db, b: Builder, lengths: seq<DocRow>, rows: seq<Posting>)
    requires b.Opened? && BuilderInv(lex, db, b) && IsSnapshot(lex, db.capsules, b, lengths, rows)
    ensures BuilderInv(lex, db, Filling(b.t, b.cursor, lengths, rows))
  {
    if Owns(db, b.t, b.cursor) {
      forall s | Live(db.capsules, s) && db.floor < s <= db.state.covered
        ensures HasDoc(lengths, s)
      {
        assert DocRow(s, |lex.tokens(b.t, db.capsules[s].value)|) in lengths;
      }
      forall k: Key | Live(db.capsules, k.doc) && db.floor < k.doc <= db.state.covered
          && k.word in lex.tokens(b.t, db.capsules[k.doc].value) && b.cursor.Before(k)
        ensures HasKey(rows, k)
      {
        assert Posting(k, Frequency(lex, b.t, db.capsules[k.doc].value, k.word)) in rows;
      }
    }
  }

  lemma FillStepKeeps(lex: Lexer, db: Db, b: Builder)
    requires b.Filling? && Inv(lex, db) && BuilderInv(lex, db, b)
    ensures SystemInv(lex, FillStep(db, b))
  {
    if Owns(db, b.t, b.cursor) {
      var batch := NextBatch(db, b.lengths);
      if batch == [] {
        NothingPending(lex, db, b.t, b.cursor, b.lengths);
      } else if LiveRows(batch, db.capsules) == [] {
        DropKeeps(lex, db, b.t, b.cursor, b.lengths);
      } else {
        FillKeeps(lex, db, b.t, b.cursor, b.lengths);
        var after := Fill(db, b.lengths);
        assert forall p :: PostingTrue(lex, after, p) == PostingTrue(lex, db, p);
        assert RowsFor(lex, after, b.cursor, b.rows);
      }
    }
  }

  lemma PostStepKeeps(lex: Lexer, db: Db, b: Builder)
    requires b.Writing? && Inv(lex, db) && BuilderInv(lex, db, b)
    ensures SystemInv(lex, PostStep(db, b))
  {
    if Owns(db, b.t, b.cursor) {
      PostSliceKeeps(lex, db, b.t, b.cursor, b.rows);
    }
  }

  /** Every transaction of every process keeps the index invariant. */
  lemma StepKeeps(lex: Lexer, sys: System, e: Event)
    requires SystemInv(lex, sys) && Enabled(lex, sys, e)
    ensures SystemInv(lex, Step(lex, sys, e))
  {
    match e
    case BuildStarts(t) =>
    case BuildResets => ResetKeeps(lex, sys.db, sys.builder.t);
    case BuildReads(lengths, rows) => ReadKeeps(lex, sys.db, sys.builder, lengths, rows);
    case BuildFills => FillStepKeeps(lex, sys.db, sys.builder);
    case BuildPosts => PostStepKeeps(lex, sys.db, sys.builder);
    case BuilderDies =>
    case _ =>
      ForeignKeepsInv(lex, sys.db, e);
      if Holding(sys.builder) {
        ForeignRely(lex, sys.db, e, sys.builder.t, sys.builder.cursor);
      }
      RelyKeepsBuilder(lex, sys.db, Step(lex, sys, e).db, sys.builder);
  }

  // ---- runs ------------------------------------------------------------------

  /** A store as `create_store` makes it, or one without the index objects. */
  ghost predicate Initial(sys: System) {
    sys.builder.Idle? && (!sys.db.intact || exists t :: sys.db == FreshStore(t))
  }

  /** `end` is where the events lead, each of them enabled in its turn. */
  ghost predicate Run(lex: Lexer, start: System, events: seq<Event>, end: System)
    decreases |events|
  {
    if events == [] then start == end
    else Enabled(lex, start, events[0]) && Run(lex, Step(lex, start, events[0]), events[1..], end)
  }

  lemma {:induction false} RunKeeps(lex: Lexer, start: System, events: seq<Event>, end: System)
    requires SystemInv(lex, start) && Run(lex, start, events, end)
    ensures SystemInv(lex, end)
    decreases |events|
  {
    if events != [] {
      StepKeeps(lex, start, events[0]);
      RunKeeps(lex, Step(lex, start, events[0]), events[1..], end);
    }
  }

  /** No INSERT of a build, a catch-up or a new capsule ever meets a row that is already there:
      a resume repeats nothing. */
  lemma InsertsNeverCollide(lex: Lexer, sys: System, e: Event)
    requires SystemInv(lex, sys) && Enabled(lex, sys, e)
    ensures e.BuildFills? && Owns(sys.db, sys.builder.t, sys.builder.cursor) ==>
      NewDocuments(sys.db, LiveRows(NextBatch(sys.db, sys.builder.lengths), sys.db.capsules))
    ensures e.BuildPosts? && Owns(sys.db, sys.builder.t, sys.builder.cursor) ==>
      NewPostings(sys.db, Batch(sys.builder.rows))
    ensures e.WriterInserts? && ReadTermIndex(sys.db, e.t).Some? ==>
      e.s !in sys.db.documents && forall k: Key | k in sys.db.postings :: k.doc != e.s
    ensures e.CatchesUp? && sys.db.intact && sys.db.state.phase == Complete ==>
      forall s | s in CatchUpRows(sys.db) ::
        s !in sys.db.documents && forall k: Key | k in sys.db.postings :: k.doc != s
  {
    var db := sys.db;
    match e
    case BuildFills =>
      if Owns(db, sys.builder.t, sys.builder.cursor) {
        FillKeeps(lex, db, sys.builder.t, sys.builder.cursor, sys.builder.lengths);
      }
    case BuildPosts =>
      if Owns(db, sys.builder.t, sys.builder.cursor) {
        CursorIsBelow(lex, db, sys.builder.t, sys.builder.cursor, sys.builder.rows);
      }
    case CatchesUp(t) =>
      var above := Ascending(set s | s in db.capsules.Keys && s > db.state.covered);
      assert forall s | s in CatchUpRows(db) :: s in above;
    case _ =>
  }

  /** While a build runs, at every point where it may die: the documents are the live capsules up
      to some seq, and the postings are theirs through the cursor, the rest still to come. */
  lemma EveryRunLeavesAResumableBuild(lex: Lexer, start: System, events: seq<Event>, end: System)
    requires Initial(start) && Run(lex, start, events, end)
    requires end.db.intact && end.db.state.phase == Building
    ensures end.db.state.cursor.Some?
    ensures forall s :: s in end.db.documents <==>
      Live(end.db.capsules, s) && 0 < s <= MaxOrZero(end.db.documents.Keys)
    ensures forall k: Key :: k in end.db.postings <==>
      && k.doc in end.db.documents && Live(end.db.capsules, k.doc)
      && k.word in lex.tokens(end.db.state.tokenizer, end.db.capsules[k.doc].value)
      && k.AtMost(end.db.state.cursor.value)
    ensures end.db.state.cursor.value != ORIGIN ==>
      forall s | Live(end.db.capsules, s) && 0 < s <= end.db.state.covered :: s in end.db.documents
  {
    InitialKeeps(lex, start);
    RunKeeps(lex, start, events, end);
    assert forall k: Key :: k in end.db.postings <==>
      Entry(lex, end.db, k) && k.AtMost(end.db.state.cursor.value);
  }

  lemma InitialKeeps(lex: Lexer, start: System)
    requires Initial(start)
    ensures SystemInv(lex, start)
  {
    if start.db.intact {
      var t :| start.db == FreshStore(t);
      FreshIsExact(lex, t);
    }
  }

  // ---- what recall reads -----------------------------------------------------

  /** The index that a rebuild from scratch would hold. */
  datatype Index = Index(postings: map<Key, nat>, documents: map<int, nat>, count: int, tokens: int)

  ghost function RecomputeDocuments(lex: Lexer, t: string, c: Capsules): (m: map<int, nat>)
    ensures forall s :: s in m <==> Live(c, s)
    ensures forall s | s in m && Live(c, s) :: m[s] == |lex.tokens(t, c[s].value)|
  {
    map s | s in c && c[s].Some? :: |lex.tokens(t, c[s].value)|
  }

  ghost function RecomputePostings(lex: Lexer, t: string, c: Capsules): (m: map<Key, nat>)
    ensures forall k: Key :: k in m <==> Live(c, k.doc) && k.word in lex.tokens(t, c[k.doc].value)
    ensures forall k: Key | k in m && Live(c, k.doc) :: m[k] == Frequency(lex, t, c[k.doc].value, k.word)
  {
    var keys := set s, w | s in c && c[s].Some? && w in lex.tokens(t, c[s].value) :: Key(w, s);
    map k | k in keys :: Frequency(lex, t, c[k.doc].value, k.word)
  }

  ghost function Recompute(lex: Lexer, t: string, c: Capsules): Index {
    var documents := RecomputeDocuments(lex, t, c);
    Index(RecomputePostings(lex, t, c), documents, |documents|, Sum(documents))
  }

  function Stored(db: Db): Index {
    Index(db.postings, db.documents, db.state.documents, db.state.tokens)
  }

  /** The capsules the index is of. */
  function Above(c: Capsules, floor: int): Capsules {
    map s | s in c && s > floor :: c[s]
  }

  lemma DocumentsAreLive(lex: Lexer, db: Db, t: string)
    requires Inv(lex, db) && ReadTermIndex(db, t).Some?
    ensures forall s :: s in db.documents <==> Live(db.capsules, s) && s > db.floor
  {
    forall s | Live(db.capsules, s) && s > db.floor
      ensures s in db.documents
    {
      assert s in db.capsules.Keys;
      assert s <= Newest(db) <= db.state.covered;
    }
  }

  lemma RecallIsRecomputed(lex: Lexer, db: Db, t: string)
    requires Inv(lex, db) && ReadTermIndex(db, t).Some?
    ensures db.floor <= 0 && Stored(db) == Recompute(lex, t, Above(db.capsules, db.floor))
    ensures ReadTermIndex(db, t).value == (Stored(db).count, Stored(db).tokens)
  {
    DocumentsAreLive(lex, db, t);
    DocumentsRecomputed(lex, db, t);
    PostingsRecomputed(lex, db, t);
  }

  lemma DocumentsRecomputed(lex: Lexer, db: Db, t: string)
    requires Inv(lex, db) && ReadTermIndex(db, t).Some?
    requires forall s :: s in db.documents <==> Live(db.capsules, s) && s > db.floor
    ensures db.documents == RecomputeDocuments(lex, t, Above(db.capsules, db.floor))
  {
    var again := RecomputeDocuments(lex, t, Above(db.capsules, db.floor));
    assert forall s :: s in again <==> s in db.documents;
  }

  lemma PostingsRecomputed(lex: Lexer, db: Db, t: string)
    requires Inv(lex, db) && ReadTermIndex(db, t).Some?
    requires forall s :: s in db.documents <==> Live(db.capsules, s) && s > db.floor
    ensures db.postings == RecomputePostings(lex, t, Above(db.capsules, db.floor))
  {
    var again := RecomputePostings(lex, t, Above(db.capsules, db.floor));
    forall k: Key
      ensures k in db.postings <==> k in again
      ensures k in again ==> db.postings[k] == again[k]
    {
      assert k in db.postings <==> Entry(lex, db, k);
    }
  }

  /** Over every run of every mix of builders and writers: whenever recall may read the index, it holds row for row
      what the live capsules above its floor would give, and every capsule numbered from 1 is above it. */
  lemma EveryRunReadsTheTruth(lex: Lexer, start: System, events: seq<Event>, end: System, t: string)
    requires Initial(start) && Run(lex, start, events, end)
    requires ReadTermIndex(end.db, t).Some?
    ensures end.db.floor <= 0 && Stored(end.db) == Recompute(lex, t, Above(end.db.capsules, end.db.floor))
    ensures AllNumbered(end.db.capsules) ==> Stored(end.db) == Recompute(lex, t, end.db.capsules)
  {
    InitialKeeps(lex, start);
    RunKeeps(lex, start, events, end);
    RecallIsRecomputed(lex, end.db, t);
    ExactIffNoneBelow(lex, end.db, t);
  }

  ghost predicate NoneBelow(c: Capsules, floor: int) {
    forall s | Live(c, s) :: s > floor
  }

  ghost predicate AllNumbered(c: Capsules) {
    NoneBelow(c, 0)
  }

  /** It is the index of every live capsule exactly when none is at or below its floor. */
  lemma ExactIffNoneBelow(lex: Lexer, db: Db, t: string)
    requires Inv(lex, db) && ReadTermIndex(db, t).Some?
    ensures Stored(db) == Recompute(lex, t, db.capsules) <==> NoneBelow(db.capsules, db.floor)
  {
    RecallIsRecomputed(lex, db, t);
    var some := Recompute(lex, t, Above(db.capsules, db.floor));
    var all := Recompute(lex, t, db.capsules);
    assert forall s :: s in all.documents <==> Live(db.capsules, s);
    assert forall s :: s in some.documents <==> Live(db.capsules, s) && s > db.floor;
    if NoneBelow(db.capsules, db.floor) {
      RecomputedAlike(lex, t, db.capsules, db.floor);
    }
  }

  lemma RecomputedAlike(lex: Lexer, t: string, c: Capsules, floor: int)
    requires NoneBelow(c, floor)
    ensures Recompute(lex, t, Above(c, floor)) == Recompute(lex, t, c)
  {
    assert RecomputeDocuments(lex, t, Above(c, floor)) == RecomputeDocuments(lex, t, c);
    assert RecomputePostings(lex, t, Above(c, floor)) == RecomputePostings(lex, t, c);
  }

  lemma RunFirst(lex: Lexer, start: System, e: Event, rest: seq<Event>, end: System)
    requires Enabled(lex, start, e) && Run(lex, Step(lex, start, e), rest, end)
    ensures Run(lex, start, [e] + rest, end)
  {
    assert ([e] + rest)[1..] == rest;
  }

  lemma LoneCapsuleSnapshot(lex: Lexer, t: string, s: int, text: string, w: Word, c: Capsules)
    requires s <= 0 && lex.tokens(t, text) == [w] && w != "" && c == map[s := Some(text)]
    ensures IsSnapshot(lex, c, Opened(t, s, ORIGIN), [DocRow(s, 1)], [Posting(Key(w, s), 1)])
  {
  }

  /** The store of one capsule, at `s`, in a state of its (empty) index. */
  function LoneStore(s: int, text: string, t: string, phase: Phase, covered: int, cursor: Option<Key>): Db {
    Db(map[s := Some(text)], true, map[], map[], State(covered, phase, cursor, t, 0, 0), covered)
  }

  lemma NewestOf(db: Db, s: int)
    requires s in db.capsules.Keys && forall x | x in db.capsules.Keys :: x <= s
    ensures Newest(db) == s
  {
  }

  lemma LoneBegins(t: string, s: int, text: string)
    requires s <= 0
    ensures RawInsert(FreshStore(t), s, Some(text)) == LoneStore(s, text, t, Invalid, 0, None)
    ensures Begin(LoneStore(s, text, t, Invalid, 0, None), t) == Resetting(t)
    ensures ResetStep(LoneStore(s, text, t, Invalid, 0, None), t)
         == System(LoneStore(s, text, t, Building, s, Some(ORIGIN)), Opened(t, s, ORIGIN))
  {
    NewestOf(LoneStore(s, text, t, Invalid, 0, None), s);
  }

  lemma LoneBuild(lex: Lexer, t: string, s: int, text: string, w: Word)
    requires s <= 0 && w != ""
    ensures
      var p := Posting(Key(w, s), 1);
      && FillStep(LoneStore(s, text, t, Building, s, Some(ORIGIN)), Filling(t, ORIGIN, [DocRow(s, 1)], [p]))
         == System(LoneStore(s, text, t, Building, s, Some(ORIGIN)), Writing(t, ORIGIN, [p]))
      && PostStep(LoneStore(s, text, t, Building, s, Some(ORIGIN)), Writing(t, ORIGIN, [p]))
         == System(LoneStore(s, text, t, Building, s, Some(p.key)), Writing(t, p.key, []))
      && PostStep(LoneStore(s, text, t, Building, s, Some(p.key)), Writing(t, p.key, []))
         == System(LoneStore(s, text, t, Complete, s, None), Idle)
  {
    var p := Posting(Key(w, s), 1);
    var db := LoneStore(s, text, t, Building, s, Some(ORIGIN));
    assert [DocRow(s, 1)][1..] == [] && MaxOrZero(db.documents.Keys) == 0;
    assert After([DocRow(s, 1)], 0) == After([], 0);
    assert NextBatch(db, [DocRow(s, 1)]) == [];
    AddPostingsFacts(db, [p]);
    assert AddPostings(db, [p]).postings == map[];
  }

  /** The rest of that build, from its reset: it reads the capsule's tokens, and has nothing to do with them. */
  lemma LoneRun(lex: Lexer, t: string, s: int, text: string, w: Word) returns (events: seq<Event>, end: System)
    requires s <= 0 && lex.tokens(t, text) == [w] && w != ""
    ensures end == System(LoneStore(s, text, t, Complete, s, None), Idle)
    ensures Run(lex, System(LoneStore(s, text, t, Building, s, Some(ORIGIN)), Opened(t, s, ORIGIN)), events, end)
  {
    var p := Posting(Key(w, s), 1);
    var read := BuildReads([DocRow(s, 1)], [p]);
    var begun := LoneStore(s, text, t, Building, s, Some(ORIGIN));
    var posted := System(LoneStore(s, text, t, Building, s, Some(p.key)), Writing(t, p.key, []));
    end := System(LoneStore(s, text, t, Complete, s, None), Idle);
    LoneBuild(lex, t, s, text, w);
    LoneCapsuleSnapshot(lex, t, s, text, w, begun.capsules);
    RunFirst(lex, posted, BuildPosts, [], end);
    RunFirst(lex, System(begun, Writing(t, ORIGIN, [p])), BuildPosts, [BuildPosts], end);
    var posting := [BuildPosts] + [BuildPosts];
    RunFirst(lex, System(begun, Filling(t, ORIGIN, [DocRow(s, 1)], [p])), BuildFills, posting, end);
    RunFirst(lex, System(begun, Opened(t, s, ORIGIN)), read, [BuildFills] + posting, end);
    events := [read] + ([BuildFills] + posting);
  }

  /** Concretely: a one-word capsule at a seq below 1 invalidates the fresh index, the next build writes nothing for
      it (it asks for rows above `coalesce(max(seq), 0)`), and recall then trusts the empty index. */
  lemma LowCapsuleIsMissed(lex: Lexer, t: string, s: int, text: string, w: Word)
    returns (events: seq<Event>, end: System)
    requires s <= 0 && lex.tokens(t, text) == [w] && w != ""
    ensures Run(lex, System(FreshStore(t), Idle), events, end)
    ensures end == System(LoneStore(s, text, t, Complete, s, None), Idle) && ReadTermIndex(end.db, t) == Some((0, 0))
    ensures Stored(end.db) != Recompute(lex, t, end.db.capsules)
  {
    var insert := RawInserts(s, Some(text));
    var invalid := LoneStore(s, text, t, Invalid, 0, None);
    LoneBegins(t, s, text);
    var building;
    building, end := LoneRun(lex, t, s, text, w);
    RunFirst(lex, System(invalid, Resetting(t)), BuildResets, building, end);
    RunFirst(lex, System(invalid, Idle), BuildStarts(t), [BuildResets] + building, end);
    RunFirst(lex, System(FreshStore(t), Idle), insert, [BuildStarts(t)] + ([BuildResets] + building), end);
    events := [insert] + ([BuildStarts(t)] + ([BuildResets] + building));
    assert s in RecomputeDocuments(lex, t, end.db.capsules);
  }

  /** A writer then numbers its capsule one above, which may still be below 1, and that one is indexed. */
  lemma NextCapsuleIsIndexed(lex: Lexer, t: string, s: int, text: string, more: string)
    requires s <= 0
    ensures
      var db := LoneStore(s, text, t, Complete, s, None);
      var after := Insert(lex, t, db, s + 1, more);
      && Newer(db, s + 1) && after.documents.Keys == {s + 1} && after.state.covered == s + 1
      && ReadTermIndex(after, t).Some?
  {
    var db := LoneStore(s, text, t, Complete, s, None);
    NewestOf(db, s);
    NewestOf(Insert(lex, t, db, s + 1, more), s + 1);
  }
}
