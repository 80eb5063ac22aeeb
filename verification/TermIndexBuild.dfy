/** The builder's own loops: reading the tokens outside the write lock, the document and
    posting transactions, and the catch-up, with other writers between any two transactions. */
module TermIndexBuild {
  import opened Words
  import opened Tables
  import opened TermIndex
  import opened TermIndexInvariant
  import opened TermIndexRuns

  // ---- reading the tokens ----------------------------------------------------

  /** The builder's dictionary: for each word the `(seq, tf)` pairs read so far, in seq order. */
  type Pairs = map<Word, seq<(int, nat)>>

  predicate Wanted(lex: Lexer, c: Capsules, t: string, cursor: Key, k: Key) {
    Live(c, k.doc) && k.word in lex.tokens(t, c[k.doc].value) && cursor.Before(k)
  }

  /** The pairs of one word over the documents read, in the order read. */
  ghost function WordPairs(lex: Lexer, c: Capsules, t: string, cursor: Key, docs: seq<int>, w: Word): seq<(int, nat)> {
    if docs == [] then []
    else
      var s := docs[|docs| - 1];
      var before := WordPairs(lex, c, t, cursor, docs[..|docs| - 1], w);
      if Wanted(lex, c, t, cursor, Key(w, s)) then before + [(s, Frequency(lex, t, c[s].value, w))] else before
  }

  function Lookup(pairs: Pairs, w: Word): seq<(int, nat)> {
    if w in pairs then pairs[w] else []
  }

  lemma {:induction false} WordPairsFacts(
      lex: Lexer, c: Capsules, t: string, cursor: Key, docs: seq<int>, w: Word)
    requires StrictlyAscending(docs)
    ensures
      var ps := WordPairs(lex, c, t, cursor, docs, w);
      && (forall i, j | 0 <= i < j < |ps| :: ps[i].0 < ps[j].0)
      && (forall p :: p in ps <==>
            p.0 in docs && Wanted(lex, c, t, cursor, Key(w, p.0)) && p.1 == Frequency(lex, t, c[p.0].value, w))
  {
    if docs != [] {
      var init := docs[..|docs| - 1];
      var s := docs[|docs| - 1];
      WordPairsFacts(lex, c, t, cursor, init, w);
      assert docs == init + [s];
      var before := WordPairs(lex, c, t, cursor, init, w);
      forall i | 0 <= i < |before|
        ensures before[i].0 < s
      {
        assert before[i] in before && before[i].0 in init;
      }
    }
  }

  /** One document's words, each to the end of its list. */
  method AddWords(lex: Lexer, c: Capsules, t: string, cursor: Key, ghost docs: seq<int>, pairs: Pairs, s: int)
    returns (r: Pairs)
    requires Live(c, s)
    requires forall w :: Lookup(pairs, w) == WordPairs(lex, c, t, cursor, docs, w)
    ensures forall w :: Lookup(r, w) == WordPairs(lex, c, t, cursor, docs + [s], w)
  {
    r := pairs;
    var text := c[s].value;
    var words := set w | w in lex.tokens(t, text);
    var todo := words;
    assert (docs + [s])[..|docs|] == docs;
    while todo != {}
      invariant todo <= words
      invariant forall w | w in todo :: Lookup(r, w) == WordPairs(lex, c, t, cursor, docs, w)
      invariant forall w | w !in todo :: Lookup(r, w) == WordPairs(lex, c, t, cursor, docs + [s], w)
      decreases todo
    {
      var word :| word in todo;
      todo := todo - {word};
      if cursor.Before(Key(word, s)) {
        r := r[word := Lookup(r, word) + [(s, Frequency(lex, t, text, word))]];
      }
    }
  }

  /** One word's pairs as posting rows. */
  function RowsOf(w: Word, ps: seq<(int, nat)>): (r: seq<Posting>)
    ensures |r| == |ps| && forall i | 0 <= i < |ps| :: r[i] == Posting(Key(w, ps[i].0), ps[i].1)
  {
    seq(|ps|, i requires 0 <= i < |ps| => Posting(Key(w, ps[i].0), ps[i].1))
  }

  lemma RowsOfSorted(
      lex: Lexer, c: Capsules, t: string, cursor: Key, docs: seq<int>, w: Word, rows: seq<Posting>)
    requires StrictlyAscending(docs) && KeySorted(rows)
    requires forall p | p in rows :: Less(p.key.word, w)
    ensures
      var more := RowsOf(w, WordPairs(lex, c, t, cursor, docs, w));
      && KeySorted(rows + more)
      && forall p :: p in more <==>
           p.key.word == w && p.key.doc in docs && Wanted(lex, c, t, cursor, p.key)
           && p.tf == Frequency(lex, t, c[p.key.doc].value, w)
  {
    var ps := WordPairs(lex, c, t, cursor, docs, w);
    var more := RowsOf(w, ps);
    WordPairsFacts(lex, c, t, cursor, docs, w);
    forall p: Posting
      ensures p in more <==> p.key.word == w && (p.key.doc, p.tf) in ps
    {
      if p.key.word == w && (p.key.doc, p.tf) in ps {
        var i :| 0 <= i < |ps| && ps[i] == (p.key.doc, p.tf);
        assert more[i] == p;
      }
    }
    forall i | 0 <= i < |rows|
      ensures rows[i] in rows
    {
    }
  }

  ghost predicate LengthsOf(lex: Lexer, c: Capsules, t: string, docs: seq<int>, lengths: seq<DocRow>) {
    |lengths| == |docs|
    && forall j | 0 <= j < |docs| ::
         Live(c, docs[j]) && lengths[j].doc == docs[j] && lengths[j].length == |lex.tokens(t, c[docs[j]].value)|
  }

  /** One pass over the documents: their lengths, and the dictionary of their wanted postings. */
  method ReadDocuments(lex: Lexer, c: Capsules, t: string, cursor: Key, docs: seq<int>)
    returns (lengths: seq<DocRow>, pairs: Pairs)
    requires forall s | s in docs :: Live(c, s)
    ensures LengthsOf(lex, c, t, docs, lengths)
    ensures forall w :: Lookup(pairs, w) == WordPairs(lex, c, t, cursor, docs, w)
  {
    pairs := map[];
    lengths := [];
    var i := 0;
    while i < |docs|
      invariant 0 <= i <= |docs|
      invariant LengthsOf(lex, c, t, docs[..i], lengths)
      invariant forall w :: Lookup(pairs, w) == WordPairs(lex, c, t, cursor, docs[..i], w)
    {
      var s := docs[i];
      assert s in docs;
      lengths := lengths + [DocRow(s, |lex.tokens(t, c[s].value)|)];
      assert docs[..i] + [s] == docs[..i + 1];
      pairs := AddWords(lex, c, t, cursor, docs[..i], pairs, s);
      i := i + 1;
    }
    assert docs[..|docs|] == docs;
  }

  ghost predicate Flattened(
      lex: Lexer, c: Capsules, t: string, cursor: Key, docs: seq<int>, words: set<Word>, rows: seq<Posting>) {
    && KeySorted(rows)
    && forall p: Posting :: p in rows <==>
        p.key.word in words && p.key.doc in docs && Wanted(lex, c, t, cursor, p.key)
        && p.tf == Frequency(lex, t, c[p.key.doc].value, p.key.word)
  }

  /** The rows of the next word, after those of lesser words. */
  lemma FlattenMore(
      lex: Lexer, c: Capsules, t: string, cursor: Key, docs: seq<int>, done: set<Word>, rows: seq<Posting>, w: Word)
    requires StrictlyAscending(docs) && Flattened(lex, c, t, cursor, docs, done, rows)
    requires forall v | v in done :: Less(v, w)
    ensures Flattened(lex, c, t, cursor, docs, done + {w}, rows + RowsOf(w, WordPairs(lex, c, t, cursor, docs, w)))
  {
    RowsOfSorted(lex, c, t, cursor, docs, w, rows);
  }

  /** `ordered()`: the dictionary's words in order, each word's pairs in order. */
  method Ordered(lex: Lexer, c: Capsules, t: string, cursor: Key, docs: seq<int>, pairs: Pairs)
    returns (rows: seq<Posting>)
    requires StrictlyAscending(docs)
    requires forall w :: Lookup(pairs, w) == WordPairs(lex, c, t, cursor, docs, w)
    ensures Flattened(lex, c, t, cursor, docs, pairs.Keys, rows)
  {
    var words := SortedWords(pairs.Keys);
    ghost var done: set<Word> := {};
    rows := [];
    var k := 0;
    while k < |words|
      invariant 0 <= k <= |words|
      invariant forall w :: w in done <==> w in words[..k]
      invariant Flattened(lex, c, t, cursor, docs, done, rows)
    {
      var word := words[k];
      assert word in words;
      assert forall w | w in done :: w in words[..k] && Less(w, word);
      FlattenMore(lex, c, t, cursor, docs, done, rows, word);
      rows := rows + RowsOf(word, pairs[word]);
      done := done + {word};
      assert words[..k + 1] == words[..k] + [word];
      k := k + 1;
    }
    assert words[..|words|] == words;
    assert done == pairs.Keys;
  }

  /** The token read: every live capsule through `through`, in one snapshot. */
  method ReadTokens(lex: Lexer, c: Capsules, t: string, through: int, cursor: Key)
    returns (lengths: seq<DocRow>, rows: seq<Posting>)
    ensures IsSnapshot(lex, c, Opened(t, through, cursor), lengths, rows)
  {
    var docs := Ascending(set s | s in c.Keys && Live(c, s) && s <= through);
    var pairs;
    lengths, pairs := ReadDocuments(lex, c, t, cursor, docs);
    rows := Ordered(lex, c, t, cursor, docs, pairs);
    SnapshotRead(lex, c, t, through, cursor, docs, lengths, pairs, rows);
  }

  lemma SnapshotRead(
      lex: Lexer, c: Capsules, t: string, through: int, cursor: Key,
      docs: seq<int>, lengths: seq<DocRow>, pairs: Pairs, rows: seq<Posting>)
    requires StrictlyAscending(docs) && forall s :: s in docs <==> Live(c, s) && s <= through
    requires LengthsOf(lex, c, t, docs, lengths)
    requires forall w :: Lookup(pairs, w) == WordPairs(lex, c, t, cursor, docs, w)
    requires Flattened(lex, c, t, cursor, docs, pairs.Keys, rows)
    ensures IsSnapshot(lex, c, Opened(t, through, cursor), lengths, rows)
  {
    forall r: DocRow
      ensures r in lengths <==> Live(c, r.doc) && r.doc <= through && r.length == |lex.tokens(t, c[r.doc].value)|
    {
      if r.doc in docs {
        var j :| 0 <= j < |docs| && docs[j] == r.doc;
        assert lengths[j] in lengths;
      }
      if r in lengths {
        var j :| 0 <= j < |lengths| && lengths[j] == r;
        assert docs[j] in docs;
      }
    }
    forall p: Posting | p.key.doc in docs && Wanted(lex, c, t, cursor, p.key)
      ensures p.key.word in pairs.Keys
    {
      WordPairsFacts(lex, c, t, cursor, docs, p.key.word);
      assert (p.key.doc, Frequency(lex, t, c[p.key.doc].value, p.key.word))
        in WordPairs(lex, c, t, cursor, docs, p.key.word);
    }
  }

  // ---- the build loops -------------------------------------------------------

  lemma {:induction false} RunJoin(lex: Lexer, a: System, xs: seq<Event>, b: System, ys: seq<Event>, c: System)
    requires Run(lex, a, xs, b) && Run(lex, b, ys, c)
    ensures Run(lex, a, xs + ys, c)
    decreases |xs|
  {
    if xs == [] {
      assert xs + ys == ys;
    } else {
      RunJoin(lex, Step(lex, a, xs[0]), xs[1..], b, ys, c);
      assert (xs + ys)[1..] == xs[1..] + ys;
    }
  }

  lemma RunThen(lex: Lexer, a: System, xs: seq<Event>, b: System, e: Event)
    requires Run(lex, a, xs, b) && Enabled(lex, b, e)
    ensures Run(lex, a, xs + [e], Step(lex, b, e))
  {
    assert Run(lex, Step(lex, b, e), [], Step(lex, b, e));
    RunJoin(lex, a, xs, b, [e], Step(lex, b, e));
  }

  /** The documents the build still has to write. */
  ghost function Owed(db: Db, lengths: seq<DocRow>): set<DocRow> {
    set r | r in lengths && Live(db.capsules, r.doc) && db.floor < r.doc && r.doc !in db.documents
  }

  /** Other writers never add to what the build owes. */
  lemma OwedShrinks(lex: Lexer, db: Db, after: Db, t: string, cursor: Key, lengths: seq<DocRow>)
    requires Rely(db, after, t, cursor) && Owns(after, t, cursor) && LengthsFor(lex, db, lengths)
    ensures Owed(after, lengths) <= Owed(db, lengths)
  {
    forall r | r in Owed(after, lengths)
      ensures r in Owed(db, lengths)
    {
      assert RowTrue(lex, db, r);
    }
  }

  lemma SubsetCount<T>(a: set<T>, b: set<T>)
    requires a <= b
    ensures |a| <= |b|
    ensures a != b ==> |a| < |b|
  {
    assert b == a + (b - a);
  }

  /** A document transaction that writes a row pays part of the debt. */
  lemma FillPays(lex: Lexer, db: Db, t: string, cursor: Key, lengths: seq<DocRow>)
    requires Inv(lex, db) && Owns(db, t, cursor) && LengthsFor(lex, db, lengths)
    requires LiveRows(NextBatch(db, lengths), db.capsules) != []
    ensures |Owed(Fill(db, lengths), lengths)| < |Owed(db, lengths)|
  {
    FillKeeps(lex, db, t, cursor, lengths);
    BatchFacts(db, lengths);
    var r := LiveRows(NextBatch(db, lengths), db.capsules)[0];
    assert r in LiveRows(NextBatch(db, lengths), db.capsules);
    assert r in Owed(db, lengths) && r !in Owed(Fill(db, lengths), lengths);
    SubsetCount(Owed(Fill(db, lengths), lengths), Owed(db, lengths));
  }

  /** Dropping a batch of forgotten capsules shortens the list. */
  lemma DropShortens(db: Db, lengths: seq<DocRow>)
    requires Sorted(lengths) && NextBatch(db, lengths) != []
    ensures
      var batch := NextBatch(db, lengths);
      var rest := After(lengths, batch[|batch| - 1].doc);
      |rest| < |lengths| && Owed(db, rest) <= Owed(db, lengths)
  {
    BatchFacts(db, lengths);
    var batch := NextBatch(db, lengths);
    var last := batch[|batch| - 1];
    AfterFacts(lengths, last.doc);
    AfterLength(lengths, last.doc);
    assert last in lengths;
  }

  lemma {:induction false} AfterLength(rows: seq<DocRow>, done: int)
    ensures |After(rows, done)| <= |rows|
    ensures (exists r :: r in rows && r.doc <= done) ==> |After(rows, done)| < |rows|
  {
    if rows != [] {
      AfterLength(rows[1..], done);
      assert rows == [rows[0]] + rows[1..];
    }
  }

  ghost predicate AllForeign(others: seq<seq<Event>>) {
    forall i, j | 0 <= i < |others| && 0 <= j < |others[i]| :: Foreign(others[i][j])
  }

  ghost predicate Quiet(others: seq<seq<Event>>) {
    forall i | 0 <= i < |others| :: others[i] == []
  }

  lemma RelyChain(a: Db, b: Db, c: Db)
    requires forall t, k :: Rely(a, b, t, k)
    requires forall t, k :: Rely(b, c, t, k)
    ensures forall t, k :: Rely(a, c, t, k)
  {
    forall t, k
      ensures Rely(a, c, t, k)
    {
      assert Rely(a, b, t, k) && Rely(b, c, t, k);
    }
  }

  /** One store file. `others` is what other processes do before each of the builder's next
      transactions; proving a method for every `others` proves it for every interleaving. */
  class StoreFile {
    var db: Db
    var others: seq<seq<Event>>

    constructor (db: Db, others: seq<seq<Event>>)
      ensures this.db == db && this.others == others
    {
      this.db := db;
      this.others := others;
    }

    /** The write lock is free: the others take their turn. Statements SQLite refuses do nothing. */
    method Yield(lex: Lexer, ghost b: Builder) returns (ghost trace: seq<Event>)
      requires Inv(lex, db) && AllForeign(others)
      modifies this
      ensures Inv(lex, db) && AllForeign(others)
      ensures others == if old(others) == [] then [] else old(others)[1..]
      ensures Run(lex, System(old(db), b), trace, System(db, b))
      ensures forall t, k :: Rely(old(db), db, t, k)
      ensures Quiet(old(others)) ==> db == old(db) && Quiet(others)
    {
      trace := [];
      if others == [] {
        return;
      }
      var turn := others[0];
      var i := 0;
      while i < |turn|
        invariant 0 <= i <= |turn|
        invariant others == old(others)
        invariant Inv(lex, db)
        invariant Run(lex, System(old(db), b), trace, System(db, b))
        invariant forall t, k :: Rely(old(db), db, t, k)
        invariant turn == [] ==> db == old(db)
      {
        var e := turn[i];
        if Accepts(db, e) {
          ghost var before := db;
          ForeignKeepsInv(lex, db, e);
          forall t, k
            ensures Rely(db, Apply(lex, db, e), t, k)
          {
            ForeignRely(lex, db, e, t, k);
          }
          RelyChain(old(db), db, Apply(lex, db, e));
          RunThen(lex, System(old(db), b), trace, System(db, b), e);
          trace := trace + [e];
          db := Apply(lex, db, e);
        }
        i := i + 1;
      }
      others := others[1..];
    }

    /** `_build_term_index`: it makes only the machine's steps, ends whatever the others do, and
        ends with a complete index of this tokenizer when they do nothing. */
    method BuildTermIndex(lex: Lexer, t: string) returns (ghost trace: seq<Event>)
      requires Inv(lex, db) && AllForeign(others)
      modifies this
      ensures Inv(lex, db) && AllForeign(others)
      ensures |others| <= |old(others)|
      ensures Run(lex, System(old(db), Idle), trace, System(db, Idle))
      ensures Quiet(old(others)) ==>
        && Quiet(others) && db.intact && db.state.phase == Complete && db.state.tokenizer == t
        && db.capsules == old(db).capsules
        && db.state.covered == if Begin(old(db), t).Resetting? then Newest(old(db)) else old(db).state.covered
    {
      var through, cursor;
      ghost var start := System(db, Idle);
      trace := Yield(lex, Idle);
      RunThen(lex, start, trace, System(db, Idle), BuildStarts(t));
      trace := trace + [BuildStarts(t)];
      if db.intact && db.state.phase == Complete && db.state.tokenizer == t {
        return;
      }
      if db.intact && db.state.phase == Building && db.state.tokenizer == t && db.state.cursor.Some? {
        through, cursor := db.state.covered, db.state.cursor.value;
      } else {
        cursor := ORIGIN;
        through, trace := ResetTransaction(lex, t, start, trace);
      }
      trace := Fills(lex, t, through, cursor, start, trace);
    }

    /** The reset, over whatever the others committed since the state was read. */
    method ResetTransaction(lex: Lexer, t: string, ghost start: System, ghost sofar: seq<Event>)
      returns (through: int, ghost trace: seq<Event>)
      requires Inv(lex, db) && AllForeign(others)
      requires Run(lex, start, sofar, System(db, Resetting(t)))
      modifies this
      ensures Inv(lex, db) && AllForeign(others) && |others| <= |old(others)|
      ensures BuilderInv(lex, db, Opened(t, through, ORIGIN)) && Owns(db, t, ORIGIN)
      ensures Run(lex, start, trace, System(db, Opened(t, through, ORIGIN)))
      ensures Quiet(old(others)) ==> Quiet(others) && db == Reset(old(db), Newest(old(db)), Building, t)
    {
      ghost var head := db;
      ghost var more := Yield(lex, Resetting(t));
      RunJoin(lex, start, sofar, System(head, Resetting(t)), more, System(db, Resetting(t)));
      RunThen(lex, start, sofar + more, System(db, Resetting(t)), BuildResets);
      trace := sofar + more + [BuildResets];
      ResetKeeps(lex, db, t);
      through := Newest(db);
      db := Reset(db, through, Building, t);
    }

    /** The token read, outside the write lock, then the build's two loops. */
    method Fills(lex: Lexer, t: string, through: int, cursor: Key, ghost start: System, ghost sofar: seq<Event>)
      returns (ghost trace: seq<Event>)
      requires Inv(lex, db) && AllForeign(others)
      requires BuilderInv(lex, db, Opened(t, through, cursor))
      requires Run(lex, start, sofar, System(db, Opened(t, through, cursor)))
      modifies this
      ensures Inv(lex, db) && AllForeign(others) && |others| <= |old(others)|
      ensures Run(lex, start, trace, System(db, Idle))
      ensures Quiet(old(others)) && Owns(old(db), t, cursor) ==>
        && Quiet(others) && db.intact && db.state.phase == Complete && db.state.tokenizer == t
        && db.capsules == old(db).capsules && db.state.covered == old(db).state.covered
    {
      ghost var b := Opened(t, through, cursor);
      ghost var before := db;
      ghost var more := Yield(lex, b);
      RelyKeepsBuilder(lex, before, db, b);
      RunJoin(lex, start, sofar, System(before, b), more, System(db, b));
      var lengths, rows := ReadTokens(lex, db.capsules, t, through, cursor);
      ReadKeeps(lex, db, b, lengths, rows);
      RunThen(lex, start, sofar + more, System(db, b), BuildReads(lengths, rows));
      var owned;
      owned, trace := Documents(lex, t, cursor, lengths, rows, start, sofar + more + [BuildReads(lengths, rows)]);
      if owned {
        trace := Posts(lex, t, cursor, rows, start, trace);
      }
    }

    /** The document transactions: the lengths of at most a slice of capsules each. */
    method Documents(lex: Lexer, t: string, cursor: Key, all: seq<DocRow>, rows: seq<Posting>,
                     ghost start: System, ghost sofar: seq<Event>)
      returns (owned: bool, ghost trace: seq<Event>)
      requires Inv(lex, db) && AllForeign(others)
      requires BuilderInv(lex, db, Filling(t, cursor, all, rows))
      requires Run(lex, start, sofar, System(db, Filling(t, cursor, all, rows)))
      modifies this
      ensures Inv(lex, db) && AllForeign(others) && |others| <= |old(others)|
      ensures owned ==> Owns(db, t, cursor)
      ensures var b := if owned then Writing(t, cursor, rows) else Idle;
        BuilderInv(lex, db, b) && Run(lex, start, trace, System(db, b))
      ensures Quiet(old(others)) && Owns(old(db), t, cursor) ==>
        && Quiet(others) && owned
        && db.capsules == old(db).capsules && db.state.covered == old(db).state.covered
    {
      var lengths := all;
      trace := sofar;
      owned := true;
      while true
        invariant owned
        invariant Inv(lex, db) && AllForeign(others) && |others| <= |old(others)|
        invariant BuilderInv(lex, db, Filling(t, cursor, lengths, rows))
        invariant Run(lex, start, trace, System(db, Filling(t, cursor, lengths, rows)))
        invariant Quiet(old(others)) && Owns(old(db), t, cursor) ==>
          && Quiet(others) && Owns(db, t, cursor)
          && db.capsules == old(db).capsules && db.state.covered == old(db).state.covered
        decreases |lengths| + |Owed(db, lengths)|
      {
        ghost var b := Filling(t, cursor, lengths, rows);
        trace := TakeTurn(lex, b, start, trace, BuildFills);
        FillStepKeeps(lex, db, b);
        var more;
        owned, more, lengths := FillTransaction(lex, t, cursor, lengths, rows);
        if !more {
          return;
        }
      }
    }

    /** One document transaction: `more` is false when the state is another's or nothing is pending. */
    method FillTransaction(lex: Lexer, t: string, cursor: Key, lengths: seq<DocRow>, ghost rows: seq<Posting>)
      returns (owned: bool, more: bool, rest: seq<DocRow>)
      requires Inv(lex, db) && BuilderInv(lex, db, Filling(t, cursor, lengths, rows))
      modifies this`db
      ensures owned == Owns(old(db), t, cursor) == Owns(db, t, cursor)
      ensures db.capsules == old(db).capsules && db.state.covered == old(db).state.covered
      ensures more ==> owned && |rest| + |Owed(db, rest)| < |lengths| + |Owed(old(db), lengths)|
      ensures FillStep(old(db), Filling(t, cursor, lengths, rows))
        == System(db, if more then Filling(t, cursor, rest, rows) else if owned then Writing(t, cursor, rows) else Idle)
    {
      rest, more := lengths, false;
      owned := Owns(db, t, cursor);
      if !owned {
        return;
      }
      var done := MaxOrZero(db.documents.Keys);
      var batch := Batch(After(lengths, done));
      if batch == [] {
        return;
      }
      more := true;
      var live := LiveRows(batch, db.capsules);
      if live == [] {
        DropShortens(db, lengths);
        rest := After(lengths, batch[|batch| - 1].doc);
        SubsetCount(Owed(db, rest), Owed(db, lengths));
      } else {
        FillPays(lex, db, t, cursor, lengths);
        FillKeeps(lex, db, t, cursor, lengths);
        db := AddDocuments(db, live);
      }
    }

    /** The others go first; then the builder's next transaction `e` is due. */
    method TakeTurn(lex: Lexer, ghost b: Builder, ghost start: System, ghost sofar: seq<Event>, ghost e: Event)
      returns (ghost trace: seq<Event>)
      requires Inv(lex, db) && AllForeign(others) && BuilderInv(lex, db, b)
      requires Run(lex, start, sofar, System(db, b))
      requires (e.BuildFills? && b.Filling?) || (e.BuildPosts? && b.Writing?)
      modifies this
      ensures Inv(lex, db) && AllForeign(others) && |others| <= |old(others)| && BuilderInv(lex, db, b)
      ensures Run(lex, start, trace, Step(lex, System(db, b), e))
      ensures Quiet(old(others)) ==> Quiet(others) && db == old(db)
      ensures Owns(db, b.t, b.cursor) ==> Owns(old(db), b.t, b.cursor)
      ensures b.Filling? && Owns(db, b.t, b.cursor) ==> |Owed(db, b.lengths)| <= |Owed(old(db), b.lengths)|
    {
      ghost var head := db;
      ghost var more := Yield(lex, b);
      RelyKeepsBuilder(lex, head, db, b);
      RunJoin(lex, start, sofar, System(head, b), more, System(db, b));
      RunThen(lex, start, sofar + more, System(db, b), e);
      trace := sofar + more + [e];
      assert Rely(head, db, b.t, b.cursor);
      if b.Filling? && Owns(db, b.t, b.cursor) {
        OwedShrinks(lex, head, db, b.t, b.cursor, b.lengths);
        SubsetCount(Owed(db, b.lengths), Owed(head, b.lengths));
      }
    }

    /** The posting transactions, in key order, each ending with the cursor of its last row. */
    method Posts(lex: Lexer, t: string, from: Key, all: seq<Posting>, ghost start: System, ghost sofar: seq<Event>)
      returns (ghost trace: seq<Event>)
      requires Inv(lex, db) && AllForeign(others)
      requires BuilderInv(lex, db, Writing(t, from, all)) && Owns(db, t, from)
      requires Run(lex, start, sofar, System(db, Writing(t, from, all)))
      modifies this
      ensures Inv(lex, db) && AllForeign(others) && |others| <= |old(others)|
      ensures Run(lex, start, trace, System(db, Idle))
      ensures Quiet(old(others)) ==>
        && Quiet(others) && db.intact && db.state.phase == Complete && db.state.tokenizer == t
        && db.capsules == old(db).capsules && db.state.covered == old(db).state.covered
    {
      var cursor, rows := from, all;
      trace := sofar;
      while true
        invariant Inv(lex, db) && AllForeign(others) && |others| <= |old(others)|
        invariant BuilderInv(lex, db, Writing(t, cursor, rows))
        invariant Run(lex, start, trace, System(db, Writing(t, cursor, rows)))
        invariant Quiet(old(others)) ==>
          && Quiet(others) && Owns(db, t, cursor)
          && db.capsules == old(db).capsules && db.state.covered == old(db).state.covered
        decreases |rows|
      {
        ghost var b := Writing(t, cursor, rows);
        trace := TakeTurn(lex, b, start, trace, BuildPosts);
        PostStepKeeps(lex, db, b);
        var more;
        more, cursor, rows := PostTransaction(t, cursor, rows);
        if !more {
          return;
        }
      }
    }

    /** One posting transaction, or the one that completes the index. */
    method PostTransaction(t: string, from: Key, all: seq<Posting>)
      returns (more: bool, cursor: Key, rows: seq<Posting>)
      modifies this`db
      ensures more == (Owns(old(db), t, from) && all != [])
      ensures more ==> |rows| < |all|
      ensures db.capsules == old(db).capsules && db.state.covered == old(db).state.covered
      ensures PostStep(old(db), Writing(t, from, all)) == System(db, if more then Writing(t, cursor, rows) else Idle)
      ensures Owns(old(db), t, from) ==>
        if more then Owns(db, t, cursor) else db.intact && db.state.phase == Complete && db.state.tokenizer == t
    {
      cursor, rows := from, all;
      more := false;
      if !Owns(db, t, from) {
        return;
      }
      var batch := Batch(all);
      if batch == [] {
        db := db.(state := db.state.(phase := Complete, cursor := None));
        return;
      }
      AddPostingsFacts(db, batch);
      more := true;
      var after := AddPostings(db, batch);
      cursor := batch[|batch| - 1].key;
      rows := all[|batch|..];
      db := after.(state := after.state.(cursor := Some(cursor)));
    }

    /** `_add_term_index`: the build, then the catch-up in short transactions. Left alone it ends with an index recall
        may read, unless it found one it need not reset that covers only negatives, and no capsules. */
    method AddTermIndex(lex: Lexer, t: string) returns (ghost trace: seq<Event>)
      requires Inv(lex, db) && AllForeign(others)
      modifies this
      ensures Inv(lex, db) && AllForeign(others)
      ensures Run(lex, System(old(db), Idle), trace, System(db, Idle))
      ensures Quiet(old(others)) ==>
        && db.capsules == old(db).capsules
        && (ReadTermIndex(db, t).None? <==> Emptied(old(db)) && !Begin(old(db), t).Resetting?)
    {
      ghost var start := System(db, Idle);
      trace := BuildTermIndex(lex, t);
      while ReadTermIndex(db, t).None?
        invariant Inv(lex, db) && AllForeign(others)
        invariant Run(lex, start, trace, System(db, Idle))
        invariant Quiet(old(others)) ==>
          && Quiet(others) && db.intact && db.state.phase == Complete && db.state.tokenizer == t
          && db.capsules == old(db).capsules
          && (Emptied(db) <==> Emptied(old(db)) && !Begin(old(db), t).Resetting?)
        decreases |others|, |set s | s in db.capsules.Keys && s > db.state.covered|
      {
        ghost var head := db;
        ghost var more := Yield(lex, Idle);
        RunJoin(lex, start, trace, System(head, Idle), more, System(db, Idle));
        RunThen(lex, start, trace + more, System(db, Idle), CatchesUp(t));
        trace := trace + more + [CatchesUp(t)];
        CatchUpKeeps(lex, t, db);
        var advanced := CatchUpTransaction(lex, t);
        if !advanced {
          return;
        }
      }
    }

    /** One chunk of the catch-up; false when the index is another's, or covers every capsule. */
    method CatchUpTransaction(lex: Lexer, t: string) returns (advanced: bool)
      modifies this`db
      ensures db == CatchUp(lex, t, old(db)) && db.capsules == old(db).capsules
      ensures old(db).capsules == map[] ==> db == old(db)
      ensures advanced ==>
        && |set s | s in db.capsules.Keys && s > db.state.covered|
           < |set s | s in old(db).capsules.Keys && s > old(db).state.covered|
        && db.intact && db.state.phase == Complete && db.state.tokenizer == t
      ensures !advanced && old(db).intact && old(db).state.phase == Complete && old(db).state.tokenizer == t ==>
        db == old(db) && (ReadTermIndex(db, t).None? <==> Emptied(db))
    {
      if !db.intact || db.state.phase != Complete || db.state.tokenizer != t {
        return false;
      }
      var rows := CatchUpRows(db);
      if rows == [] {
        NothingAbove(db, t);
        return false;
      }
      CatchUpAdvances(lex, t, db);
      CatchUpStays(lex, t, db);
      var indexed := IndexAll(lex, t, db, rows);
      db := indexed.(state := indexed.state.(covered := rows[|rows| - 1]));
      return true;
    }
  }

  lemma NothingAbove(db: Db, t: string)
    requires db.intact && db.state.phase == Complete && db.state.tokenizer == t && CatchUpRows(db) == []
    ensures ReadTermIndex(db, t).None? <==> Emptied(db)
  {
    var above := set s | s in db.capsules.Keys && s > db.state.covered;
    assert Ascending(above) == [];
    assert forall s | s in db.capsules.Keys :: s !in above;
  }

  lemma {:induction false} IndexAllStays(lex: Lexer, t: string, db: Db, docs: seq<int>)
    ensures
      var after := IndexAll(lex, t, db, docs);
      after.intact == db.intact && after.state.phase == db.state.phase && after.state.tokenizer == db.state.tokenizer
    decreases |docs|
  {
    if docs != [] {
      if Live(db.capsules, docs[0]) {
        IndexAllStays(lex, t, IndexDocument(lex, t, db, docs[0], db.capsules[docs[0]].value), docs[1..]);
      } else {
        IndexAllStays(lex, t, db, docs[1..]);
      }
    }
  }

  lemma CatchUpStays(lex: Lexer, t: string, db: Db)
    requires db.intact && db.state.phase == Complete && db.state.tokenizer == t
    ensures CatchUp(lex, t, db).intact && CatchUp(lex, t, db).state.phase == Complete
        && CatchUp(lex, t, db).state.tokenizer == t
  {
    IndexAllStays(lex, t, db, CatchUpRows(db));
  }

  lemma CatchUpAdvances(lex: Lexer, t: string, db: Db)
    requires db.intact && db.state.phase == Complete && db.state.tokenizer == t && CatchUpRows(db) != []
    ensures |set s | s in CatchUp(lex, t, db).capsules.Keys && s > CatchUp(lex, t, db).state.covered|
          < |set s | s in db.capsules.Keys && s > db.state.covered|
  {
    var above := set s | s in db.capsules.Keys && s > db.state.covered;
    var rest := set s | s in CatchUp(lex, t, db).capsules.Keys && s > CatchUp(lex, t, db).state.covered;
    var rows := CatchUpRows(db);
    var last := rows[|rows| - 1];
    assert last in Ascending(above);
    assert last in above && last !in rest;
    SubsetCount(rest, above);
  }

  lemma NothingToCatch(db: Db)
    requires db.capsules == map[]
    ensures CatchUpRows(db) == []
  {
    assert (set s | s in db.capsules.Keys && s > db.state.covered) == {};
  }

  /** Such an ending is reached: an index built over one negative seq, whose capsule is then deleted. No build resets
      it and no catch-up has a row to read, so recall scans until the next ingestion. */
  lemma EmptiedIsReached(lex: Lexer, t: string, s: int, text: string, w: Word)
    returns (events: seq<Event>, end: System)
    requires s < 0 && lex.tokens(t, text) == [w] && w != ""
    ensures Run(lex, System(FreshStore(t), Idle), events, end)
    ensures Emptied(end.db) && Begin(end.db, t) == Idle
    ensures CatchUp(lex, t, end.db) == end.db && ReadTermIndex(end.db, t).None?
  {
    var built;
    events, built := LowCapsuleIsMissed(lex, t, s, text, w);
    RunThen(lex, System(FreshStore(t), Idle), events, built, RawDeletes(s));
    events, end := events + [RawDeletes(s)], Step(lex, built, RawDeletes(s));
    assert end.db.capsules == map[];
    NothingToCatch(end.db);
  }
}
