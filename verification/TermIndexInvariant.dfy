/** What every transaction on the index keeps, one lemma a transaction. */
module TermIndexInvariant {
  import opened Words
  import opened Tables
  import opened TermIndex

  /** `k` is a posting that the indexed documents should have. */
  ghost predicate Entry(lex: Lexer, db: Db, k: Key) {
    k.doc in db.documents && Live(db.capsules, k.doc)
    && k.word in lex.tokens(db.state.tokenizer, db.capsules[k.doc].value)
  }

  /** The postings are exactly the entries (through the cursor, while a build runs). */
  ghost predicate PostingsExact(lex: Lexer, db: Db) {
    && (forall k: Key :: k in db.postings <==>
          Entry(lex, db, k) && (db.state.cursor.Some? ==> k.AtMost(db.state.cursor.value)))
    && (forall k: Key | k in db.postings && Live(db.capsules, k.doc) ::
          db.postings[k] == Frequency(lex, db.state.tokenizer, db.capsules[k.doc].value, k.word))
  }

  /** Documents are covered live capsules with their token counts, and the totals add up. */
  ghost predicate DocumentsExact(lex: Lexer, db: Db) {
    && (forall s | s in db.documents ::
          db.floor < s <= db.state.covered && Live(db.capsules, s)
          && db.documents[s] == |lex.tokens(db.state.tokenizer, db.capsules[s].value)|)
    && db.state.documents == |db.documents|
    && db.state.tokens == Sum(db.documents)
  }

  ghost predicate AllDocuments(db: Db) {
    forall s | Live(db.capsules, s) && db.floor < s <= db.state.covered :: s in db.documents
  }

  /** No live capsule below an indexed one is missing. */
  ghost predicate PrefixClosed(db: Db) {
    forall s, d | d in db.documents && Live(db.capsules, s) && db.floor < s <= d :: s in db.documents
  }

  /** The index invariant: silent about a damaged or invalidated index. */
  ghost predicate Inv(lex: Lexer, db: Db) {
    db.intact && db.state.phase != Invalid ==>
      && db.floor <= 0 && db.floor <= db.state.covered
      && DocumentsExact(lex, db)
      && PostingsExact(lex, db)
      && (db.state.phase == Complete ==> db.state.cursor.None? && AllDocuments(db))
      && (db.state.phase == Building ==>
            && db.state.cursor.Some? && db.floor == FloorOf(db.state.covered)
            && PrefixClosed(db)
            && (db.state.cursor != Some(ORIGIN) ==> AllDocuments(db)))
  }

  lemma FreshIsExact(lex: Lexer, t: string)
    ensures Inv(lex, FreshStore(t))
  {
  }

  lemma ResetIsExact(lex: Lexer, db: Db, covered: int, phase: Phase, t: string)
    requires phase != Complete
    ensures Inv(lex, Reset(db, covered, phase, t))
  {
  }

  // ---- raw statements --------------------------------------------------------

  /** An index whose rows, totals and documents' texts did not change is as exact as it was. */
  lemma UntouchedIsExact(lex: Lexer, db: Db, after: Db)
    requires DocumentsExact(lex, db) && PostingsExact(lex, db)
    requires after.documents == db.documents && after.postings == db.postings && after.state == db.state
    requires after.floor == db.floor
    requires forall d | d in db.documents :: d in after.capsules && after.capsules[d] == db.capsules[d]
    ensures DocumentsExact(lex, after) && PostingsExact(lex, after)
  {
    forall k: Key
      ensures Entry(lex, after, k) <==> Entry(lex, db, k)
    {
    }
  }

  /** A statement no trigger answers: the documents keep their texts, and no covered capsule came alive. */
  ghost predicate Unwatched(db: Db, after: Db) {
    && after == db.(capsules := after.capsules)
    && (forall d | d in db.documents && d in db.capsules :: d in after.capsules && after.capsules[d] == db.capsules[d])
    && (forall s | Live(after.capsules, s) && s <= db.state.covered :: Live(db.capsules, s))
  }

  lemma UnwatchedKeeps(lex: Lexer, db: Db, after: Db)
    requires Inv(lex, db) && (after.intact && after.state.phase != Invalid ==> Unwatched(db, after))
    ensures Inv(lex, after)
  {
    if after.intact && after.state.phase != Invalid {
      UntouchedIsExact(lex, db, after);
    }
  }

  lemma InsertUnwatched(db: Db, s: int, json: Option<string>)
    requires s !in db.capsules
    ensures var after := RawInsert(db, s, json);
            after.intact && after.state.phase != Invalid ==> Unwatched(db, after)
  {
  }

  lemma DeleteUnwatched(db: Db, s: int)
    ensures var after := RawDelete(db, s);
            after.intact && after.state.phase != Invalid ==> Unwatched(db, after)
  {
  }

  lemma UpdateUnwatched(db: Db, s: int, moved: int, json: Option<string>)
    requires s in db.capsules && (moved == s || moved !in db.capsules)
    ensures var after := RawUpdate(db, s, moved, json);
            after.intact && after.state.phase != Invalid ==> Unwatched(db, after)
  {
  }

  lemma RawInsertKeeps(lex: Lexer, db: Db, s: int, json: Option<string>)
    requires Inv(lex, db) && s !in db.capsules
    ensures Inv(lex, RawInsert(db, s, json))
  {
    InsertUnwatched(db, s, json);
    UnwatchedKeeps(lex, db, RawInsert(db, s, json));
  }

  lemma RawDeleteKeeps(lex: Lexer, db: Db, s: int)
    requires Inv(lex, db)
    ensures Inv(lex, RawDelete(db, s))
  {
    DeleteUnwatched(db, s);
    UnwatchedKeeps(lex, db, RawDelete(db, s));
  }

  lemma RawUpdateKeeps(lex: Lexer, db: Db, s: int, moved: int, json: Option<string>)
    requires Inv(lex, db) && s in db.capsules && (moved == s || moved !in db.capsules)
    ensures Inv(lex, RawUpdate(db, s, moved, json))
  {
    UpdateUnwatched(db, s, moved, json);
    UnwatchedKeeps(lex, db, RawUpdate(db, s, moved, json));
  }

  // ---- the writers that keep the index ---------------------------------------

  lemma IndexDocumentCounts(lex: Lexer, db: Db, s: int)
    requires DocumentsExact(lex, db)
    requires Live(db.capsules, s) && db.floor < s <= db.state.covered && s !in db.documents
    ensures DocumentsExact(lex, IndexDocument(lex, db.state.tokenizer, db, s, db.capsules[s].value))
  {
    var t := db.state.tokenizer;
    var after := IndexDocument(lex, t, db, s, db.capsules[s].value);
    SumInsert(db.documents, s, |lex.tokens(t, db.capsules[s].value)|);
    assert after.documents.Keys == db.documents.Keys + {s};
  }

  lemma IndexDocumentPosts(lex: Lexer, db: Db, s: int)
    requires PostingsExact(lex, db) && db.state.cursor.None?
    requires Live(db.capsules, s) && s !in db.documents
    ensures PostingsExact(lex, IndexDocument(lex, db.state.tokenizer, db, s, db.capsules[s].value))
  {
    var t := db.state.tokenizer;
    var text := db.capsules[s].value;
    var after := IndexDocument(lex, t, db, s, text);
    var added := DocumentPostings(lex, t, s, text);
    forall k: Key
      ensures Entry(lex, after, k) <==> Entry(lex, db, k) || k in added
    {
      assert k in added <==> k.doc == s && k.word in lex.tokens(t, text);
    }
  }

  /** One document added to an exact index whose cursor is not set. */
  lemma IndexDocumentExact(lex: Lexer, db: Db, s: int)
    requires DocumentsExact(lex, db) && PostingsExact(lex, db) && db.state.cursor.None?
    requires Live(db.capsules, s) && db.floor < s <= db.state.covered && s !in db.documents
    ensures
      var after := IndexDocument(lex, db.state.tokenizer, db, s, db.capsules[s].value);
      DocumentsExact(lex, after) && PostingsExact(lex, after)
  {
    IndexDocumentCounts(lex, db, s);
    IndexDocumentPosts(lex, db, s);
  }

  /** The store holding one more, not yet indexed, newest capsule. */
  function Covering(db: Db, s: int, text: string): Db {
    db.(capsules := db.capsules[s := Some(text)], state := db.state.(covered := s))
  }

  lemma CoveringExact(lex: Lexer, db: Db, s: int, text: string)
    requires DocumentsExact(lex, db) && PostingsExact(lex, db) && s !in db.capsules && db.state.covered < s
    ensures DocumentsExact(lex, Covering(db, s, text)) && PostingsExact(lex, Covering(db, s, text))
  {
    var after := Covering(db, s, text);
    assert forall k: Key :: Entry(lex, after, k) <==> Entry(lex, db, k);
  }

  lemma InsertKeeps(lex: Lexer, t: string, db: Db, s: int, text: string)
    requires Inv(lex, db) && Newer(db, s)
    ensures Inv(lex, Insert(lex, t, db, s, text))
  {
    var after := RawInsert(db, s, Some(text));
    RawInsertKeeps(lex, db, s, Some(text));
    if ReadTermIndex(db, t).Some? && after.state.phase != Invalid {
      IndexedInsertKeeps(lex, db, s, text);
    }
  }

  lemma InsertIndexes(lex: Lexer, db: Db, s: int, text: string)
    requires Newer(db, s) && ReadTermIndex(db, db.state.tokenizer).Some? && db.state.covered < s
    ensures Insert(lex, db.state.tokenizer, db, s, text)
         == IndexDocument(lex, db.state.tokenizer, Covering(db, s, text), s, text)
  {
  }

  lemma IndexedInsertKeeps(lex: Lexer, db: Db, s: int, text: string)
    requires Inv(lex, db) && Newer(db, s) && ReadTermIndex(db, db.state.tokenizer).Some? && db.state.covered < s
    ensures Inv(lex, Insert(lex, db.state.tokenizer, db, s, text))
  {
    CoveringExact(lex, db, s, text);
    forall x | Live(Covering(db, s, text).capsules, x) && db.floor < x < s
      ensures x in db.documents
    {
      assert x in db.capsules.Keys;
    }
    IndexNewest(lex, Covering(db, s, text), s);
    InsertIndexes(lex, db, s, text);
  }

  /** Indexing the newest capsule of a complete index keeps it complete. */
  lemma IndexNewest(lex: Lexer, db: Db, s: int)
    requires DocumentsExact(lex, db) && PostingsExact(lex, db) && db.state.cursor.None?
    requires db.floor < s == db.state.covered
    requires Live(db.capsules, s) && s !in db.documents
    requires db.state.phase == Complete && db.floor <= 0
    requires forall x | Live(db.capsules, x) && db.floor < x < s :: x in db.documents
    ensures Inv(lex, IndexDocument(lex, db.state.tokenizer, db, s, db.capsules[s].value))
  {
    IndexDocumentExact(lex, db, s);
    NewestCompletes(lex, db, s);
  }

  lemma NewestCompletes(lex: Lexer, db: Db, s: int)
    requires db.floor < s == db.state.covered && Live(db.capsules, s)
    requires forall x | Live(db.capsules, x) && db.floor < x < s :: x in db.documents
    ensures
      var after := IndexDocument(lex, db.state.tokenizer, db, s, db.capsules[s].value);
      && AllDocuments(after) && after.state.covered == s
      && after.state.phase == db.state.phase && after.state.cursor == db.state.cursor
  {
  }

  lemma UnindexExact(lex: Lexer, db: Db, s: int)
    requires DocumentsExact(lex, db) && PostingsExact(lex, db)
    requires db.intact && db.state.phase != Invalid && s in db.documents
    ensures
      var after := Unindex(lex, db.state.tokenizer, db, s);
      DocumentsExact(lex, after) && PostingsExact(lex, after) && after.documents == db.documents - {s}
  {
    var t := db.state.tokenizer;
    var after := Unindex(lex, t, db, s);
    SumWithout(db.documents, s);
    assert db.documents.Keys == after.documents.Keys + {s};
    var gone := DocumentPostings(lex, t, s, db.capsules[s].value);
    assert forall k: Key :: k in gone <==> k.doc == s && k.word in lex.tokens(t, db.capsules[s].value);
    assert forall k: Key :: Entry(lex, after, k) <==> Entry(lex, db, k) && k !in gone;
  }

  lemma NullTextExact(lex: Lexer, db: Db, s: int)
    requires DocumentsExact(lex, db) && PostingsExact(lex, db) && s in db.capsules && s !in db.documents
    ensures
      var after := db.(capsules := db.capsules[s := None]);
      DocumentsExact(lex, after) && PostingsExact(lex, after)
  {
    var after := db.(capsules := db.capsules[s := None]);
    assert forall k: Key :: Entry(lex, after, k) <==> Entry(lex, db, k);
  }

  lemma ForgetIs(lex: Lexer, db: Db, s: int)
    requires Live(db.capsules, s) && db.intact && db.state.phase != Invalid && s in db.documents
    ensures
      var mid := Unindex(lex, db.state.tokenizer, db, s);
      Forget(lex, db.state.tokenizer, db, s) == mid.(capsules := mid.capsules[s := None])
  {
    var mid := Unindex(lex, db.state.tokenizer, db, s);
    assert (mid.capsules - {s})[s := None] == mid.capsules[s := None];
  }

  lemma IndexedForgetKeeps(lex: Lexer, db: Db, s: int)
    requires Inv(lex, db) && Live(db.capsules, s) && db.intact && db.state.phase != Invalid && s in db.documents
    ensures Inv(lex, Forget(lex, db.state.tokenizer, db, s))
  {
    UnindexExact(lex, db, s);
    var mid := Unindex(lex, db.state.tokenizer, db, s);
    NullTextExact(lex, mid, s);
    ForgetIs(lex, db, s);
    var after := Forget(lex, db.state.tokenizer, db, s);
    assert forall x | Live(after.capsules, x) :: x != s && Live(db.capsules, x);
  }

  lemma ForgetKeeps(lex: Lexer, t: string, db: Db, s: int)
    requires Inv(lex, db) && Live(db.capsules, s)
    ensures Inv(lex, Forget(lex, t, db, s))
  {
    if db.intact && db.state.phase != Invalid && db.state.tokenizer == t {
      if s in db.documents {
        IndexedForgetKeeps(lex, db, s);
      } else {
        RawUpdateKeeps(lex, db, s, s, None);
      }
    }
  }

  // ---- the build -------------------------------------------------------------

  ghost predicate Sorted(rows: seq<DocRow>) {
    forall i, j | 0 <= i < j < |rows| :: rows[i].doc < rows[j].doc
  }

  ghost predicate KeySorted(rows: seq<Posting>) {
    forall i, j | 0 <= i < j < |rows| :: rows[i].key.Before(rows[j].key)
  }

  ghost predicate HasDoc(rows: seq<DocRow>, s: int) {
    exists r :: r in rows && r.doc == s
  }

  ghost predicate HasKey(rows: seq<Posting>, k: Key) {
    exists p :: p in rows && p.key == k
  }

  /** A row of a live capsule still states that capsule's length. */
  ghost predicate RowTrue(lex: Lexer, db: Db, r: DocRow) {
    r.doc <= db.state.covered
    && (Live(db.capsules, r.doc) && db.floor < r.doc ==>
          r.length == |lex.tokens(db.state.tokenizer, db.capsules[r.doc].value)|)
  }

  /** What the builder's document list knows of the store. */
  ghost predicate LengthsFor(lex: Lexer, db: Db, lengths: seq<DocRow>) {
    && Sorted(lengths)
    && (forall s | Live(db.capsules, s) && db.floor < s <= db.state.covered && s !in db.documents :: HasDoc(lengths, s))
    && (forall r | r in lengths :: RowTrue(lex, db, r))
  }

  ghost predicate PostingTrue(lex: Lexer, db: Db, p: Posting) {
    p.key.doc <= db.state.covered
    && (Live(db.capsules, p.key.doc) && db.floor < p.key.doc ==>
          && p.key.word in lex.tokens(db.state.tokenizer, db.capsules[p.key.doc].value)
          && p.tf == Frequency(lex, db.state.tokenizer, db.capsules[p.key.doc].value, p.key.word))
  }

  /** What the builder's posting list knows: in order, true, and complete above the cursor. */
  ghost predicate RowsFor(lex: Lexer, db: Db, cursor: Key, rows: seq<Posting>) {
    && KeySorted(rows)
    && (forall p | p in rows :: cursor.Before(p.key) && PostingTrue(lex, db, p))
    && (forall k: Key | Live(db.capsules, k.doc) && db.floor < k.doc <= db.state.covered
          && k.word in lex.tokens(db.state.tokenizer, db.capsules[k.doc].value)
          && cursor.Before(k) :: HasKey(rows, k))
  }

  lemma {:induction false} AfterFacts(rows: seq<DocRow>, done: int)
    requires Sorted(rows)
    ensures Sorted(After(rows, done))
    ensures forall r :: r in After(rows, done) <==> r in rows && r.doc > done
  {
    if rows != [] {
      var tail := After(rows[1..], done);
      AfterFacts(rows[1..], done);
      assert rows == [rows[0]] + rows[1..];
      forall i | 0 <= i < |tail|
        ensures rows[0].doc < tail[i].doc
      {
        assert tail[i] in tail && tail[i] in rows[1..];
      }
    }
  }

  lemma {:induction false} LiveRowsFacts(rows: seq<DocRow>, c: Capsules)
    requires Sorted(rows)
    ensures Sorted(LiveRows(rows, c))
    ensures forall r :: r in LiveRows(rows, c) <==> r in rows && Live(c, r.doc)
  {
    if rows != [] {
      var tail := LiveRows(rows[1..], c);
      LiveRowsFacts(rows[1..], c);
      assert rows == [rows[0]] + rows[1..];
      forall i | 0 <= i < |tail|
        ensures rows[0].doc < tail[i].doc
      {
        assert tail[i] in tail && tail[i] in rows[1..];
      }
    }
  }

  /** No row of a document transaction names a document already there: its INSERT cannot fail. */
  ghost predicate NewDocuments(db: Db, rows: seq<DocRow>) {
    Sorted(rows) && forall r | r in rows :: r.doc !in db.documents
  }

  /** The store after the first row of a document transaction. */
  function AddOne(db: Db, r: DocRow): Db {
    db.(documents := db.documents[r.doc := r.length],
        state := db.state.(documents := db.state.documents + 1, tokens := db.state.tokens + r.length))
  }

  lemma AddOneExact(lex: Lexer, db: Db, r: DocRow)
    requires DocumentsExact(lex, db) && r.doc !in db.documents
    requires db.floor < r.doc && Live(db.capsules, r.doc) && RowTrue(lex, db, r)
    ensures DocumentsExact(lex, AddOne(db, r))
    ensures forall x :: RowTrue(lex, AddOne(db, r), x) == RowTrue(lex, db, x)
  {
    SumInsert(db.documents, r.doc, r.length);
    assert AddOne(db, r).documents.Keys == db.documents.Keys + {r.doc};
  }

  lemma {:induction false} AddDocumentsExact(lex: Lexer, db: Db, rows: seq<DocRow>)
    requires DocumentsExact(lex, db) && NewDocuments(db, rows)
    requires forall r | r in rows :: db.floor < r.doc && Live(db.capsules, r.doc) && RowTrue(lex, db, r)
    ensures DocumentsExact(lex, AddDocuments(db, rows))
    ensures AddDocuments(db, rows) ==
      db.(documents := AddDocuments(db, rows).documents,
          state := db.state.(documents := AddDocuments(db, rows).state.documents,
                             tokens := AddDocuments(db, rows).state.tokens))
    ensures forall s :: s in AddDocuments(db, rows).documents <==>
      s in db.documents || exists r :: r in rows && r.doc == s
    decreases |rows|
  {
    if rows != [] {
      AddOneExact(lex, db, rows[0]);
      AddDocumentsExact(lex, AddOne(db, rows[0]), rows[1..]);
      assert rows == [rows[0]] + rows[1..];
    }
  }

  /** The document transaction of a build, up to its commit. */
  function Fill(db: Db, lengths: seq<DocRow>): Db {
    AddDocuments(db, LiveRows(NextBatch(db, lengths), db.capsules))
  }

  lemma BatchFacts(db: Db, lengths: seq<DocRow>)
    requires Sorted(lengths)
    ensures
      var done := MaxOrZero(db.documents.Keys);
      var batch := NextBatch(db, lengths);
      && Sorted(batch)
      && batch <= After(lengths, done)
      && NewDocuments(db, LiveRows(batch, db.capsules))
      && (forall r :: r in LiveRows(batch, db.capsules) <==> r in batch && Live(db.capsules, r.doc))
      && (forall r | r in batch :: r in lengths && r.doc > done)
  {
    AfterFacts(lengths, MaxOrZero(db.documents.Keys));
    LiveRowsFacts(NextBatch(db, lengths), db.capsules);
  }

  /** A live capsule the build still owes is above the highest document and on the builder's list. */
  lemma OwedIsPending(lex: Lexer, db: Db, lengths: seq<DocRow>, s: int)
    requires DocumentsExact(lex, db) && PrefixClosed(db) && LengthsFor(lex, db, lengths)
    requires db.floor == FloorOf(db.state.covered)
    requires Live(db.capsules, s) && db.floor < s <= db.state.covered && s !in db.documents
    ensures exists r :: r in After(lengths, MaxOrZero(db.documents.Keys)) && r.doc == s
  {
    AfterFacts(lengths, MaxOrZero(db.documents.Keys));
    var r :| r in lengths && r.doc == s;
    assert r.doc > MaxOrZero(db.documents.Keys);
  }

  lemma SortedPrefix(rows: seq<DocRow>, batch: seq<DocRow>, r: DocRow, d: DocRow)
    requires Sorted(rows) && batch <= rows && r in rows && d in batch && r.doc <= d.doc
    ensures r in batch
  {
    var i :| 0 <= i < |rows| && rows[i] == r;
    var j :| 0 <= j < |batch| && batch[j] == d;
    assert rows[j] == d;
    assert batch[i] == r;
  }

  lemma FillPrefixClosed(lex: Lexer, db: Db, lengths: seq<DocRow>, s: int, d: int)
    requires DocumentsExact(lex, db) && PrefixClosed(db) && LengthsFor(lex, db, lengths)
    requires db.floor == FloorOf(db.state.covered)
    requires Live(db.capsules, s) && db.floor < s <= d && s !in db.documents
    requires exists r :: r in LiveRows(NextBatch(db, lengths), db.capsules) && r.doc == d
    ensures exists r :: r in LiveRows(NextBatch(db, lengths), db.capsules) && r.doc == s
  {
    var done := MaxOrZero(db.documents.Keys);
    BatchFacts(db, lengths);
    AfterFacts(lengths, done);
    var batch := NextBatch(db, lengths);
    var rd :| rd in LiveRows(batch, db.capsules) && rd.doc == d;
    assert RowTrue(lex, db, rd);
    OwedIsPending(lex, db, lengths, s);
    var r :| r in After(lengths, done) && r.doc == s;
    SortedPrefix(After(lengths, done), batch, r, rd);
  }

  /** A document transaction keeps the invariant and what the builder knows; no INSERT in it can
      meet an existing document. */
  lemma FillKeeps(lex: Lexer, db: Db, t: string, cursor: Key, lengths: seq<DocRow>)
    requires Inv(lex, db) && Owns(db, t, cursor) && LengthsFor(lex, db, lengths)
    ensures Inv(lex, Fill(db, lengths)) && Owns(Fill(db, lengths), t, cursor)
    ensures Fill(db, lengths).capsules == db.capsules && Fill(db, lengths).state.covered == db.state.covered
    ensures LengthsFor(lex, Fill(db, lengths), lengths)
    ensures NewDocuments(db, LiveRows(NextBatch(db, lengths), db.capsules))
    ensures forall s :: s in Fill(db, lengths).documents <==>
      s in db.documents || exists r :: r in LiveRows(NextBatch(db, lengths), db.capsules) && r.doc == s
  {
    BatchFacts(db, lengths);
    var live := LiveRows(NextBatch(db, lengths), db.capsules);
    AddDocumentsExact(lex, db, live);
    var after := Fill(db, lengths);
    assert forall r | r in lengths :: RowTrue(lex, after, r) == RowTrue(lex, db, r);
    forall s, d | d in after.documents && Live(after.capsules, s) && after.floor < s <= d
      ensures s in after.documents
    {
      if s !in db.documents {
        if d !in db.documents {
          FillPrefixClosed(lex, db, lengths, s, d);
        }
      }
    }
    FillPostings(lex, db, t, cursor, live, after);
  }

  /** Documents added before the first posting slice owe no posting yet; later none are added. */
  lemma FillPostings(lex: Lexer, db: Db, t: string, cursor: Key, live: seq<DocRow>, after: Db)
    requires Inv(lex, db) && Owns(db, t, cursor) && DocumentsExact(lex, after)
    requires after == db.(documents := after.documents, state := after.state)
    requires after.state == db.state.(documents := after.state.documents, tokens := after.state.tokens)
    requires forall s :: s in after.documents <==> s in db.documents || exists r :: r in live && r.doc == s
    ensures PostingsExact(lex, after)
  {
    forall k: Key | k.AtMost(cursor)
      ensures Entry(lex, after, k) <==> Entry(lex, db, k)
    {
      assert AllDocuments(db) || cursor == ORIGIN;
      assert Entry(lex, after, k) ==> db.floor < k.doc <= db.state.covered;
    }
  }

  /** When no row is pending, every covered live capsule is a document. */
  lemma NothingPending(lex: Lexer, db: Db, t: string, cursor: Key, lengths: seq<DocRow>)
    requires Inv(lex, db) && Owns(db, t, cursor) && LengthsFor(lex, db, lengths)
    requires NextBatch(db, lengths) == []
    ensures AllDocuments(db)
  {
    forall s | Live(db.capsules, s) && db.floor < s <= db.state.covered
      ensures s in db.documents
    {
      if s !in db.documents {
        OwedIsPending(lex, db, lengths, s);
        assert false;
      }
    }
  }

  /** Dropping a batch of forgotten capsules from the list loses no live one. */
  lemma DropKeeps(lex: Lexer, db: Db, t: string, cursor: Key, lengths: seq<DocRow>)
    requires Inv(lex, db) && Owns(db, t, cursor) && LengthsFor(lex, db, lengths)
    requires NextBatch(db, lengths) != [] && LiveRows(NextBatch(db, lengths), db.capsules) == []
    ensures
      var batch := NextBatch(db, lengths);
      LengthsFor(lex, db, After(lengths, batch[|batch| - 1].doc))
  {
    var done := MaxOrZero(db.documents.Keys);
    BatchFacts(db, lengths);
    AfterFacts(lengths, done);
    var batch := NextBatch(db, lengths);
    var last := batch[|batch| - 1];
    AfterFacts(lengths, last.doc);
    forall s | Live(db.capsules, s) && db.floor < s <= db.state.covered && s !in db.documents
      ensures HasDoc(After(lengths, last.doc), s)
    {
      OwedIsPending(lex, db, lengths, s);
      var r :| r in After(lengths, done) && r.doc == s;
      if r.doc <= last.doc {
        SortedPrefix(After(lengths, done), batch, r, last);
        assert false;
      }
    }
  }

  // ---- posting slices --------------------------------------------------------

  lemma {:induction false} AddPostingsFacts(db: Db, rows: seq<Posting>)
    ensures AddPostings(db, rows) == db.(postings := AddPostings(db, rows).postings)
    ensures forall k: Key :: k in AddPostings(db, rows).postings <==>
      k in db.postings || exists p :: p in rows && p.key == k && k.doc in db.documents
    ensures forall k: Key | k in AddPostings(db, rows).postings ::
      || (k in db.postings && AddPostings(db, rows).postings[k] == db.postings[k])
      || exists p :: p in rows && p.key == k && p.tf == AddPostings(db, rows).postings[k]
    decreases |rows|
  {
    if rows != [] {
      assert rows == [rows[0]] + rows[1..];
      if rows[0].key.doc in db.documents {
        AddPostingsFacts(db.(postings := db.postings[rows[0].key := rows[0].tf]), rows[1..]);
      } else {
        AddPostingsFacts(db, rows[1..]);
      }
    }
  }

  lemma KeySortedPrefix(rows: seq<Posting>, n: nat, p: Posting)
    requires KeySorted(rows) && 0 < n <= |rows| && p in rows
    ensures p in rows[..n] <==> p.key.AtMost(rows[n - 1].key)
  {
    var i :| 0 <= i < |rows| && rows[i] == p;
    BeforeIsStrictTotal(p.key, rows[n - 1].key, p.key);
    if i < n {
      assert rows[..n][i] == p;
      assert i < n - 1 ==> rows[i].key.Before(rows[n - 1].key);
    } else {
      assert rows[n - 1].key.Before(rows[i].key);
      forall j | 0 <= j < n
        ensures rows[j] != p
      {
        assert rows[j].key.Before(rows[i].key);
        LessIrreflexive(p.key.word);
      }
    }
  }

  /** No posting of the slice is already stored: a resumed build cannot insert a duplicate key. */
  ghost predicate NewPostings(db: Db, batch: seq<Posting>) {
    KeySorted(batch) && forall p | p in batch :: p.key !in db.postings
  }

  lemma CursorIsBelow(lex: Lexer, db: Db, t: string, cursor: Key, rows: seq<Posting>)
    requires Inv(lex, db) && Owns(db, t, cursor) && RowsFor(lex, db, cursor, rows)
    ensures NewPostings(db, Batch(rows))
  {
    forall p | p in Batch(rows)
      ensures p.key !in db.postings
    {
      assert p in rows;
      BeforeIsStrictTotal(cursor, p.key, cursor);
    }
  }

  /** After a slice ending at `last`, the entries through `last` are those stored plus the slice. */
  lemma SliceCovers(lex: Lexer, db: Db, t: string, cursor: Key, rows: seq<Posting>, n: nat, k: Key)
    requires Inv(lex, db) && Owns(db, t, cursor) && RowsFor(lex, db, cursor, rows) && AllDocuments(db)
    requires 0 < n <= |rows|
    ensures Entry(lex, db, k) && k.AtMost(rows[n - 1].key) <==>
      k in db.postings || exists p :: p in rows[..n] && p.key == k && k.doc in db.documents
  {
    var last := rows[n - 1].key;
    assert rows[n - 1] in rows;
    BeforeIsStrictTotal(cursor, last, k);
    BeforeIsStrictTotal(k, cursor, last);
    if Entry(lex, db, k) && cursor.Before(k) {
      var p :| p in rows && p.key == k;
      KeySortedPrefix(rows, n, p);
    }
    forall p | p in rows[..n] && p.key == k && k.doc in db.documents
      ensures Entry(lex, db, k) && k.AtMost(last)
    {
      assert p in rows;
      KeySortedPrefix(rows, n, p);
    }
  }

  lemma SliceExact(lex: Lexer, db: Db, t: string, cursor: Key, rows: seq<Posting>, n: nat)
    requires Inv(lex, db) && Owns(db, t, cursor) && RowsFor(lex, db, cursor, rows) && AllDocuments(db)
    requires 0 < n <= |rows|
    ensures PostingsExact(lex, PostSlice(db, rows[..n]))
  {
    var after := PostSlice(db, rows[..n]);
    AddPostingsFacts(db, rows[..n]);
    forall k: Key
      ensures k in after.postings <==> Entry(lex, after, k) && k.AtMost(rows[n - 1].key)
    {
      SliceCovers(lex, db, t, cursor, rows, n, k);
    }
    forall k: Key | k in after.postings && Live(after.capsules, k.doc)
      ensures after.postings[k] == Frequency(lex, after.state.tokenizer, after.capsules[k.doc].value, k.word)
    {
      SliceCovers(lex, db, t, cursor, rows, n, k);
      if !(k in db.postings && after.postings[k] == db.postings[k]) {
        var p :| p in rows[..n] && p.key == k && p.tf == after.postings[k];
        assert PostingTrue(lex, db, p);
      }
    }
  }

  lemma RestOfRows(lex: Lexer, db: Db, cursor: Key, rows: seq<Posting>, n: nat)
    requires RowsFor(lex, db, cursor, rows) && 0 < n <= |rows|
    ensures RowsFor(lex, db, rows[n - 1].key, rows[n..])
  {
    forall p | p in rows[n..]
      ensures rows[n - 1].key.Before(p.key)
    {
    }
    var last := rows[n - 1];
    assert last in rows;
    forall k: Key | Live(db.capsules, k.doc) && db.floor < k.doc <= db.state.covered
          && k.word in lex.tokens(db.state.tokenizer, db.capsules[k.doc].value)
          && last.key.Before(k)
      ensures HasKey(rows[n..], k)
    {
      BeforeIsStrictTotal(cursor, last.key, k);
      var p :| p in rows && p.key == k;
      KeySortedPrefix(rows, n, p);
      BeforeIsStrictTotal(last.key, k, last.key);
      assert rows == rows[..n] + rows[n..];
    }
  }

  /** A posting transaction keeps the invariant and leaves the rest of the rows to write. */
  lemma PostSliceKeeps(lex: Lexer, db: Db, t: string, cursor: Key, rows: seq<Posting>)
    requires Inv(lex, db) && Owns(db, t, cursor) && RowsFor(lex, db, cursor, rows) && AllDocuments(db)
    ensures Inv(lex, PostSlice(db, Batch(rows)))
    ensures rows == [] ==> PostSlice(db, Batch(rows)).state.phase == Complete
    ensures rows != [] ==>
      var next := rows[|Batch(rows)| - 1].key;
      var after := PostSlice(db, Batch(rows));
      Owns(after, t, next) && AllDocuments(after) && RowsFor(lex, after, next, rows[|Batch(rows)|..])
  {
    if rows == [] {
      FinishExact(lex, db, t, cursor);
    } else {
      var n := |Batch(rows)|;
      assert Batch(rows) == rows[..n];
      AddPostingsFacts(db, rows[..n]);
      SliceExact(lex, db, t, cursor, rows, n);
      RestOfRows(lex, db, cursor, rows, n);
      var next := rows[n - 1].key;
      assert rows[n - 1] in rows;
      var after := PostSlice(db, Batch(rows));
      assert forall p :: PostingTrue(lex, after, p) == PostingTrue(lex, db, p);
    }
  }

  lemma FinishExact(lex: Lexer, db: Db, t: string, cursor: Key)
    requires Inv(lex, db) && Owns(db, t, cursor) && RowsFor(lex, db, cursor, []) && AllDocuments(db)
    ensures Inv(lex, PostSlice(db, []))
  {
    var after := PostSlice(db, []);
    forall k: Key
      ensures k in after.postings <==> Entry(lex, after, k)
    {
      BeforeIsStrictTotal(k, cursor, k);
      assert Entry(lex, db, k) == Entry(lex, after, k);
    }
  }

  // ---- the catch-up ----------------------------------------------------------

  lemma CoverMore(lex: Lexer, db: Db, covered: int)
    requires DocumentsExact(lex, db) && PostingsExact(lex, db) && db.state.covered <= covered
    ensures
      var after := db.(state := db.state.(covered := covered));
      DocumentsExact(lex, after) && PostingsExact(lex, after)
  {
    var after := db.(state := db.state.(covered := covered));
    assert forall k: Key :: Entry(lex, after, k) <==> Entry(lex, db, k);
  }

  lemma {:induction false} CoveringFirst(lex: Lexer, t: string, db: Db, docs: seq<int>, covered: int)
    ensures
      IndexAll(lex, t, db.(state := db.state.(covered := covered)), docs)
      == IndexAll(lex, t, db, docs).(state := IndexAll(lex, t, db, docs).state.(covered := covered))
    decreases |docs|
  {
    if docs != [] {
      if Live(db.capsules, docs[0]) {
        CoveringFirst(lex, t, IndexDocument(lex, t, db, docs[0], db.capsules[docs[0]].value), docs[1..], covered);
      } else {
        CoveringFirst(lex, t, db, docs[1..], covered);
      }
    }
  }

  /** Only the index tables and totals differ. */
  ghost predicate IndexedFrom(db: Db, after: Db) {
    && after.capsules == db.capsules && after.intact == db.intact && after.floor == db.floor
    && after.state == db.state.(documents := after.state.documents, tokens := after.state.tokens)
  }

  lemma {:induction false} IndexAllExact(lex: Lexer, db: Db, docs: seq<int>)
    requires DocumentsExact(lex, db) && PostingsExact(lex, db) && db.state.cursor.None?
    requires StrictlyAscending(docs)
    requires forall s | s in docs :: db.floor < s <= db.state.covered && s !in db.documents
    ensures DocumentsExact(lex, IndexAll(lex, db.state.tokenizer, db, docs))
    ensures PostingsExact(lex, IndexAll(lex, db.state.tokenizer, db, docs))
    ensures IndexedFrom(db, IndexAll(lex, db.state.tokenizer, db, docs))
    ensures forall s :: s in IndexAll(lex, db.state.tokenizer, db, docs).documents <==>
      s in db.documents || (s in docs && Live(db.capsules, s))
    decreases |docs|
  {
    if docs != [] {
      assert docs == [docs[0]] + docs[1..];
      if Live(db.capsules, docs[0]) {
        IndexDocumentExact(lex, db, docs[0]);
        RestIsAfter(docs);
        IndexAllExact(lex, OneMore(lex, db, docs[0]), docs[1..]);
      } else {
        IndexAllExact(lex, db, docs[1..]);
      }
    }
  }

  lemma RestIsAfter(docs: seq<int>)
    requires docs != [] && StrictlyAscending(docs)
    ensures StrictlyAscending(docs[1..])
    ensures forall s | s in docs[1..] :: s in docs && docs[0] < s
  {
  }

  function OneMore(lex: Lexer, db: Db, s: int): Db
    requires Live(db.capsules, s)
    ensures IndexedFrom(db, OneMore(lex, db, s))
    ensures OneMore(lex, db, s).documents.Keys == db.documents.Keys + {s}
  {
    IndexDocument(lex, db.state.tokenizer, db, s, db.capsules[s].value)
  }

  /** A chunk takes, of the capsules above the covered, exactly those up to its last. */
  lemma CatchUpReaches(db: Db)
    requires CatchUpRows(db) != []
    ensures
      var rows := CatchUpRows(db);
      var last := rows[|rows| - 1];
      StrictlyAscending(rows) && db.state.covered < last
      && forall s :: s in rows <==> s in db.capsules && db.state.covered < s <= last
  {
    var rows := CatchUpRows(db);
    var last := rows[|rows| - 1];
    var above := Ascending(set s | s in db.capsules.Keys && s > db.state.covered);
    assert above[|rows| - 1] == last && last in above;
    forall s
      ensures s in rows <==> s in db.capsules && db.state.covered < s <= last
    {
      if s in rows {
        var i :| 0 <= i < |rows| && rows[i] == s;
        assert above[i] == s && s in above;
      }
      if s in db.capsules && db.state.covered < s <= last {
        assert s in above;
        var i :| 0 <= i < |above| && above[i] == s;
        assert i < |rows| && rows[i] == s;
      }
    }
  }

  lemma CatchUpKeeps(lex: Lexer, t: string, db: Db)
    requires Inv(lex, db)
    ensures Inv(lex, CatchUp(lex, t, db))
  {
    var rows := CatchUpRows(db);
    if db.intact && db.state.phase == Complete && db.state.tokenizer == t && rows != [] {
      var last := rows[|rows| - 1];
      CatchUpReaches(db);
      CoverMore(lex, db, last);
      IndexAllExact(lex, db.(state := db.state.(covered := last)), rows);
      CoveringFirst(lex, t, db, rows, last);
    }
  }
}
