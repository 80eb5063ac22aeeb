/** `search_fts_scoped`: recall by the index when it answers, by the scan otherwise. */
module Recall {
  import opened Words
  import opened Tables
  import opened TermIndex
  import opened TermIndexInvariant
  import opened TermIndexRuns
  import opened Bm25

  /** The live texts as the scan tokenizes them. */
  function CorpusOf(lex: Lexer, t: string, c: Capsules): (r: Corpus)
    ensures forall s :: s in r <==> Live(c, s)
    ensures forall s | s in r && Live(c, s) :: r[s] == lex.tokens(t, c[s].value)
  {
    map s | s in c && c[s].Some? :: lex.tokens(t, c[s].value)
  }

  /** The rows of one word: `{seq: tf}`. */
  function WordRows(db: Db, w: Word): (m: map<int, nat>)
    ensures forall d :: d in m <==> Key(w, d) in db.postings
    ensures forall d | d in m && Key(w, d) in db.postings :: m[d] == db.postings[Key(w, d)]
  {
    var docs := set k | k in db.postings && k.word == w :: k.doc;
    assert forall d :: d in docs <==> Key(w, d) in db.postings;
    map d | d in docs :: db.postings[Key(w, d)]
  }

  /** The postings the search reads: those of the query words only. */
  function QueryPostings(db: Db, order: seq<Word>): Postings {
    map w | w in order :: WordRows(db, w)
  }

  /** The stored rows are the inverse of the live texts above the index's floor. */
  lemma StoredIsInverse(lex: Lexer, db: Db, t: string, order: seq<Word>)
    requires Inv(lex, db) && ReadTermIndex(db, t).Some?
    ensures
      var corpus := CorpusOf(lex, t, Above(db.capsules, db.floor));
      && IsInverse(QueryPostings(db, order), corpus, order)
      && db.documents == Lengths(corpus)
      && db.state.documents == |corpus| && db.state.tokens == Sum(Lengths(corpus))
  {
    var c := Above(db.capsules, db.floor);
    var corpus := CorpusOf(lex, t, c);
    RecallIsRecomputed(lex, db, t);
    var documents := RecomputeDocuments(lex, t, c);
    assert documents == Lengths(corpus) by {
      assert forall s :: s in documents <==> s in corpus;
    }
    assert |corpus| == |Lengths(corpus)| by {
      assert corpus.Keys == Lengths(corpus).Keys;
    }
    forall w | w in order
      ensures Found(QueryPostings(db, order), w).Keys == set d | d in corpus && w in corpus[d]
      ensures forall d | d in Found(QueryPostings(db, order), w) && d in corpus ::
        Found(QueryPostings(db, order), w)[d] == multiset(corpus[d])[w]
    {
      WordInverse(lex, db, t, w);
    }
  }

  lemma PostingInverse(lex: Lexer, db: Db, t: string, w: Word, d: int)
    requires db.postings == RecomputePostings(lex, t, Above(db.capsules, db.floor))
    ensures
      var corpus := CorpusOf(lex, t, Above(db.capsules, db.floor));
      && (d in WordRows(db, w) <==> d in corpus && w in corpus[d])
      && (d in WordRows(db, w) && d in corpus ==> WordRows(db, w)[d] == multiset(corpus[d])[w])
  {
    var c := Above(db.capsules, db.floor);
    assert Key(w, d) in db.postings <==> Live(c, d) && w in lex.tokens(t, c[d].value);
  }

  lemma WordInverse(lex: Lexer, db: Db, t: string, w: Word)
    requires db.postings == RecomputePostings(lex, t, Above(db.capsules, db.floor))
    ensures
      var corpus := CorpusOf(lex, t, Above(db.capsules, db.floor));
      && WordRows(db, w).Keys == (set d | d in corpus && w in corpus[d])
      && forall d | d in WordRows(db, w) && d in corpus :: WordRows(db, w)[d] == multiset(corpus[d])[w]
  {
    forall d
      ensures
        var corpus := CorpusOf(lex, t, Above(db.capsules, db.floor));
        && (d in WordRows(db, w) <==> d in corpus && w in corpus[d])
        && (d in WordRows(db, w) && d in corpus ==> WordRows(db, w)[d] == multiset(corpus[d])[w])
    {
      PostingInverse(lex, db, t, w, d);
    }
  }

  /** The scores of a search, whichever lane gave them: those of the scan over every live text. */
  method SearchScores<F(==)>(
      lex: Lexer, ar: Arithmetic<F>, db: Db, t: string, queries: Queries, order: seq<Word>, keep: set<int>)
    returns (scores: map<int, F>)
    requires Inv(lex, db)
    requires IsOrder(order, queries) && forall q | q in queries :: q != {}
    ensures
      var c := if ReadTermIndex(db, t).Some? then Above(db.capsules, db.floor) else db.capsules;
      var corpus := CorpusOf(lex, t, c);
      scores == ScanScores(ar, corpus, queries, order, keep * corpus.Keys)
    ensures ReadTermIndex(db, t).None? || NoneBelow(db.capsules, db.floor) ==>
      var corpus := CorpusOf(lex, t, db.capsules);
      scores == ScanScores(ar, corpus, queries, order, keep * corpus.Keys)
  {
    if NoneBelow(db.capsules, db.floor) {
      assert CorpusOf(lex, t, Above(db.capsules, db.floor)) == CorpusOf(lex, t, db.capsules);
    }
    var index := ReadTermIndex(db, t);
    if index.Some? {
      StoredIsInverse(lex, db, t, order);
      var (documents, tokens) := index.value;
      scores := IndexedScores(ar, QueryPostings(db, order), db.documents, queries, order, keep, documents, tokens,
                              CorpusOf(lex, t, Above(db.capsules, db.floor)));
    } else {
      var corpus := CorpusOf(lex, t, db.capsules);
      scores := Bm25Scores(ar, corpus, queries, order, keep * corpus.Keys);
    }
  }
}
