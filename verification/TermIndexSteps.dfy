/** What each transaction does to an index that answers, and how much of a build it does, told by the rows. */
module TermIndexSteps {
  import opened Tables
  import opened TermIndex
  import opened TermIndexInvariant
  import opened TermIndexRuns
  import opened Words

  /** The index answers exactly if its objects stand, it is complete, its tokenizer is the reader's, and it covers every
      capsule, and 0 where there is none; it answers with its totals. */
  lemma AnswersIff(db: Db, t: string)
    ensures ReadTermIndex(db, t).Some? <==>
      && db.intact && db.state.phase == Complete && db.state.tokenizer == t
      && (forall s | s in db.capsules :: s <= db.state.covered) && (db.capsules == map[] ==> db.state.covered >= 0)
    ensures ReadTermIndex(db, t).Some? ==> ReadTermIndex(db, t) == Some((db.state.documents, db.state.tokens))
  {
    if db.capsules != map[] {
      assert Newest(db) in db.capsules.Keys;
    }
  }

  /** The index of a new store answers for nothing. */
  lemma FreshAnswers(t: string)
    ensures ReadTermIndex(FreshStore(t), t) == Some((0, 0))
    ensures FreshStore(t).capsules == map[] && FreshStore(t).documents == map[] && FreshStore(t).postings == map[]
  {
  }

  // ---- the triggers --------------------------------------------------------------

  ghost predicate Invalidated(db: Db, after: Db, capsules: Capsules, when: bool) {
    after == db.(capsules := capsules, state := if when then db.state.(phase := Invalid) else db.state)
  }

  /** A trigger invalidates an index whose objects stand, and only then: on an insert of a text it says it covers, on an
      update that changes a row and leaves a text or takes a document's, on a delete of a document. */
  lemma TriggersAre(db: Db, s: int, moved: int, json: Option<string>)
    ensures Invalidated(db, RawInsert(db, s, json), db.capsules[s := json],
                        db.intact && json != None && s <= db.state.covered)
    ensures s in db.capsules ==>
      Invalidated(db, RawUpdate(db, s, moved, json), (db.capsules - {s})[moved := json],
                  db.intact && !(moved == s && json == db.capsules[s]) && (json != None || s in db.documents))
    ensures Invalidated(db, RawDelete(db, s), db.capsules - {s}, db.intact && s in db.documents)
  {
  }

  /** The statements the machine lets any process make: every one that SQLite's key of `seq` accepts. */
  lemma StatementsAccepted(db: Db, s: int, moved: int, json: Option<string>)
    ensures Accepts(db, RawInserts(s, json)) <==> s !in db.capsules
    ensures Accepts(db, RawUpdates(s, moved, json)) <==> s in db.capsules && moved !in db.capsules.Keys - {s}
    ensures Accepts(db, RawDeletes(s))
  {
  }

  // ---- the writers ---------------------------------------------------------------

  /** An ingestion into an index that answers adds one document and its words, and the index answers on exactly if the
      new capsule is numbered above those it says it covers. */
  lemma InsertAnswers(lex: Lexer, t: string, db: Db, s: int, text: string)
    requires ReadTermIndex(db, t).Some? && Newer(db, s)
    ensures
      var words, after := lex.tokens(t, text), Insert(lex, t, db, s, text);
      && (ReadTermIndex(after, t) ==
          if s > db.state.covered then Some((db.state.documents + 1, db.state.tokens + |words|)) else None)
      && after.capsules == db.capsules[s := Some(text)] && after.documents == db.documents[s := |words|]
      && (forall k :: k in after.postings <==> k in db.postings || (k.doc == s && k.word in words))
      && (forall k | k in after.postings ::
            after.postings[k] == if k.doc == s && k.word in words then multiset(words)[k.word] else db.postings[k])
  {
    var after := Insert(lex, t, db, s, text);
    AnswersIff(after, t);
  }

  /** Into one that does not answer it only writes its row. */
  lemma InsertWaits(lex: Lexer, t: string, db: Db, s: int, text: string)
    requires ReadTermIndex(db, t).None?
    ensures Insert(lex, t, db, s, text) == RawInsert(db, s, Some(text))
  {
  }

  /** Forgetting a document of an index that answers takes it, its words and its length away; the index answers on. */
  lemma ForgetAnswers(lex: Lexer, t: string, db: Db, s: int)
    requires ReadTermIndex(db, t).Some? && Live(db.capsules, s)
    ensures
      var words, after := lex.tokens(t, db.capsules[s].value), Forget(lex, t, db, s);
      && after.capsules == db.capsules[s := None] && after.documents == db.documents - {s}
      && (s in db.documents ==>
            && ReadTermIndex(after, t) == Some((db.state.documents - 1, db.state.tokens - db.documents[s]))
            && after.postings.Keys == set k | k in db.postings && !(k.doc == s && k.word in words))
      && (s !in db.documents ==> ReadTermIndex(after, t) == ReadTermIndex(db, t) && after.postings == db.postings)
      && (forall k | k in after.postings :: after.postings[k] == db.postings[k])
  {
    var after := Forget(lex, t, db, s);
    assert (db.capsules - {s})[s := None] == db.capsules[s := None];
    assert after.capsules.Keys == db.capsules.Keys;
    AnswersIff(after, t);
    AnswersIff(db, t);
  }

  /** Forgetting leaves an index whose objects are damaged, or an invalid one, to its triggers; one of another tokenizer
      it invalidates. */
  lemma ForgetUntrusted(lex: Lexer, t: string, db: Db, s: int)
    requires Live(db.capsules, s)
    ensures !db.intact || db.state.phase == Invalid ==> Unindex(lex, t, db, s) == db
    ensures db.intact && db.state.phase != Invalid && db.state.tokenizer != t ==>
      Unindex(lex, t, db, s) == db.(state := db.state.(phase := Invalid))
  {
  }

  /** Missing or foreign objects are replaced by empty ones that do not answer; intact ones are left alone. */
  lemma ObjectsAdded(db: Db, t: string)
    ensures AddObjects(db, t) ==
      if db.intact then db else Db(db.capsules, true, map[], map[], State(0, Invalid, None, t, 0, 0), 0)
    ensures !db.intact ==> forall reader :: ReadTermIndex(AddObjects(db, t), reader).None?
  {
  }

  // ---- how much a transaction does -------------------------------------------------

  /** The rows above a document are taken one by one and in order. */
  lemma {:induction false} AboveAreTaken(rows: seq<DocRow>, more: seq<DocRow>, r: DocRow, done: int)
    ensures After(rows + more, done) == After(rows, done) + After(more, done)
    ensures After([r], done) == if r.doc > done then [r] else []
    decreases |rows|
  {
    assert [r][1..] == [];
    if rows == [] {
      assert rows + more == more;
    } else {
      assert (rows + more)[1..] == rows[1..] + more;
      AboveAreTaken(rows[1..], more, r, done);
    }
  }

  /** And so are the live ones. */
  lemma {:induction false} LiveAreTaken(rows: seq<DocRow>, more: seq<DocRow>, r: DocRow, c: Capsules)
    ensures LiveRows(rows + more, c) == LiveRows(rows, c) + LiveRows(more, c)
    ensures LiveRows([r], c) == if r.doc in c && c[r.doc] != None then [r] else []
    decreases |rows|
  {
    assert [r][1..] == [];
    if rows == [] {
      assert rows + more == more;
    } else {
      assert (rows + more)[1..] == rows[1..] + more;
      LiveAreTaken(rows[1..], more, r, c);
    }
  }

  /** A build's transaction takes two hundred thousand rows, or all where fewer are left. */
  lemma BatchTakes<T>(rows: seq<T>)
    ensures Batch(rows) <= rows && |Batch(rows)| == if |rows| < 200_000 then |rows| else 200_000
  {
  }

  function Ahead(db: Db, covered: int): set<int> {
    set s | s in db.capsules && s > covered
  }

  lemma AheadOfLast(db: Db, covered: int, n: nat)
    requires 0 < n <= |Ascending(Ahead(db, covered))|
    ensures |Ahead(db, Ascending(Ahead(db, covered))[n - 1])| == |Ahead(db, covered)| - n
  {
    var ahead := Ahead(db, covered);
    var last := Ascending(ahead)[n - 1];
    assert last in Ascending(ahead);
    AscendingParts(ahead, n);
    assert Ahead(db, last) == set s | s in ahead && s > last;
  }

  lemma CatchUpStops(db: Db)
    ensures
      var rows, ahead := CatchUpRows(db), |Ahead(db, db.state.covered)|;
      if ahead == 0 then rows == []
      else rows != [] && |Ahead(db, rows[|rows| - 1])| == if ahead < 500 then 0 else ahead - 500
  {
    var ahead := Ahead(db, db.state.covered);
    assert ahead == set s | s in db.capsules.Keys && s > db.state.covered;
    AscendingCounts(ahead);
    if ahead != {} {
      AheadOfLast(db, db.state.covered, if |ahead| < 500 then |ahead| else 500);
    }
  }

  /** A catch-up takes five hundred capsules above those covered, the least first, or all where fewer are left. */
  lemma CatchUpTakes(lex: Lexer, t: string, db: Db)
    ensures
      var after, ahead := CatchUp(lex, t, db), |Ahead(db, db.state.covered)|;
      if db.intact && db.state.phase == Complete && db.state.tokenizer == t && ahead > 0 then
        && after.state.phase == Complete && after.state.tokenizer == t && after.capsules == db.capsules
        && |Ahead(db, after.state.covered)| == if ahead < 500 then 0 else ahead - 500
      else after == db
  {
    CatchUpStops(db);
  }
}
