/** The two scorers of the term lane: the scan over every text and the walk over the postings.
    Arithmetic is any `F` with its own addition, so equality of scores is equality of the same
    additions in the same order, not of real sums. */
module Bm25 {
  import opened Words
  import opened Tables

  /** `term(tf, df, n, length, avg)` is `_bm25_term`; `ratio` is the division of two counts. */
  datatype Arithmetic<!F> = Arithmetic(
    zero: F, one: F, add: (F, F) -> F, ratio: (nat, nat) -> F, term: (nat, nat, nat, nat, F) -> F)

  /** The token list of every live document. */
  type Corpus = map<int, seq<Word>>
  type Postings = map<Word, map<int, nat>>
  type Queries = seq<set<Word>>

  /** `order` is the one iteration order of the union of the queries. */
  ghost predicate IsOrder(order: seq<Word>, queries: Queries) {
    && (forall i, j | 0 <= i < j < |order| :: order[i] != order[j])
    && (forall w :: w in order <==> exists q :: q in queries && w in q)
  }

  function Found(postings: Postings, w: Word): map<int, nat> {
    if w in postings then postings[w] else map[]
  }

  function Average<F(==)>(ar: Arithmetic<F>, tokens: nat, documents: nat): F {
    var avg := ar.ratio(tokens, documents);
    if avg == ar.zero then ar.one else avg
  }

  /** The left fold both scorers run: words the document lacks add nothing. */
  ghost function Score<F>(ar: Arithmetic<F>, order: seq<Word>, tf: Word -> nat, df: Word -> nat, n: nat, length: nat,
                          avg: F): F
  {
    if order == [] then ar.zero
    else
      var w := order[|order| - 1];
      var before := Score(ar, order[..|order| - 1], tf, df, n, length, avg);
      if tf(w) == 0 then before else ar.add(before, ar.term(tf(w), df(w), n, length, avg))
  }

  lemma {:induction false} ScoreSame<F>(
      ar: Arithmetic<F>, order: seq<Word>, tf: Word -> nat, df: Word -> nat,
      tf': Word -> nat, df': Word -> nat, n: nat, length: nat, avg: F)
    requires forall w | w in order :: tf(w) == tf'(w) && df(w) == df'(w)
    ensures Score(ar, order, tf, df, n, length, avg) == Score(ar, order, tf', df', n, length, avg)
  {
    if order != [] {
      ScoreSame(ar, order[..|order| - 1], tf, df, tf', df', n, length, avg);
    }
  }

  // ---- the scan --------------------------------------------------------------

  ghost predicate HasAll(words: seq<Word>, q: set<Word>) {
    forall w | w in q :: w in words
  }

  ghost predicate Matches(words: seq<Word>, queries: Queries) {
    exists q :: q in queries && HasAll(words, q)
  }

  function DocumentFrequency(corpus: Corpus, w: Word): nat {
    |set d | d in corpus && w in corpus[d]|
  }

  function Lengths(corpus: Corpus): map<int, nat> {
    map d | d in corpus :: |corpus[d]|
  }

  ghost function ScanScore<F>(ar: Arithmetic<F>, corpus: Corpus, order: seq<Word>, d: int): F
    requires d in corpus
  {
    var tokens := corpus[d];
    Score(ar, order, w => multiset(tokens)[w], w => DocumentFrequency(corpus, w), |corpus|, |tokens|,
          Average(ar, Sum(Lengths(corpus)), |corpus|))
  }

  /** What `bm25_scores` promises: the eligible matches, each with its fold. */
  ghost function ScanScores<F>(ar: Arithmetic<F>, corpus: Corpus, queries: Queries, order: seq<Word>,
                               eligible: set<int>): map<int, F>
  {
    map d | d in eligible && d in corpus && Matches(corpus[d], queries) :: ScanScore(ar, corpus, order, d)
  }

  method TotalTokens(corpus: Corpus) returns (n: nat)
    ensures n == Sum(Lengths(corpus))
  {
    n := 0;
    var rest := corpus;
    while rest != map[]
      invariant rest.Keys <= corpus.Keys && forall d | d in rest :: rest[d] == corpus[d]
      invariant n + Sum(Lengths(rest)) == Sum(Lengths(corpus))
      decreases |rest|
    {
      Inhabited(rest.Keys);
      var k: int :| k in rest.Keys;
      SumWithout(Lengths(rest), k);
      assert Lengths(rest - {k}) == Lengths(rest) - {k};
      n := n + |corpus[k]|;
      rest := rest - {k};
    }
  }

  /** `_lexical_words_cached(text).keys()`. */
  function WordSet(words: seq<Word>): (s: set<Word>)
    ensures forall w :: w in s <==> w in words
  {
    set w | w in words
  }

  lemma MatchesMore(words: seq<Word>, queries: Queries, q: set<Word>)
    ensures Matches(words, queries + [q]) <==> Matches(words, queries) || q <= WordSet(words)
  {
    if q <= WordSet(words) {
      assert q in queries + [q];
    }
    if Matches(words, queries) {
      var p :| p in queries && HasAll(words, p);
      assert p in queries + [q];
    }
  }

  method AnyMatches(words: seq<Word>, queries: Queries) returns (found: bool)
    ensures found == Matches(words, queries)
  {
    found := false;
    var held := WordSet(words);
    var i := 0;
    while i < |queries|
      invariant 0 <= i <= |queries|
      invariant found == Matches(words, queries[..i])
    {
      MatchesMore(words, queries[..i], queries[i]);
      assert queries[..i + 1] == queries[..i] + [queries[i]];
      if queries[i] <= held {
        found := true;
      }
      i := i + 1;
    }
    assert queries[..|queries|] == queries;
  }

  /** `bm25_scores`. */
  method Bm25Scores<F(==)>(ar: Arithmetic<F>, corpus: Corpus, queries: Queries, order: seq<Word>, eligible: set<int>)
    returns (scores: map<int, F>)
    requires IsOrder(order, queries) && eligible <= corpus.Keys
    ensures scores == ScanScores(ar, corpus, queries, order, eligible)
  {
    scores := map[];
    if queries == [] || corpus == map[] {
      return;
    }
    var n := |corpus|;
    var total := TotalTokens(corpus);
    var avg := Average(ar, total, n);
    var todo := eligible;
    while todo != {}
      invariant todo <= eligible
      invariant scores == ScanScores(ar, corpus, queries, order, eligible - todo)
      decreases todo
    {
      Inhabited(todo);
      var d: int :| d in todo;
      var left := todo - {d};
      assert eligible - left == (eligible - todo) + {d};
      var matched := AnyMatches(corpus[d], queries);
      if matched {
        var score := DocumentScore(ar, corpus, order, d, n, avg);
        scores := scores[d := score];
      }
      todo := left;
    }
    assert eligible - todo == eligible;
  }

  method DocumentScore<F(==)>(ar: Arithmetic<F>, corpus: Corpus, order: seq<Word>, d: int, n: nat, avg: F)
    returns (score: F)
    requires d in corpus && n == |corpus| && avg == Average(ar, Sum(Lengths(corpus)), n)
    ensures score == ScanScore(ar, corpus, order, d)
  {
    var tokens := corpus[d];
    ghost var tf := (w: Word) => multiset(tokens)[w];
    ghost var df := (w: Word) => DocumentFrequency(corpus, w);
    score := ar.zero;
    var i := 0;
    while i < |order|
      invariant 0 <= i <= |order|
      invariant score == Score(ar, order[..i], tf, df, n, |tokens|, avg)
    {
      var freq := multiset(tokens)[order[i]];
      assert order[..i + 1][..i] == order[..i];
      if freq != 0 {
        score := ar.add(score, ar.term(freq, DocumentFrequency(corpus, order[i]), n, |tokens|, avg));
      }
      i := i + 1;
    }
    assert order[..|order|] == order;
    ScoreSame(ar, order, tf, df, w => multiset(tokens)[w], w => DocumentFrequency(corpus, w), n, |tokens|, avg);
  }

  // ---- the postings ----------------------------------------------------------

  ghost predicate Holds(postings: Postings, d: int, q: set<Word>) {
    forall w | w in q :: d in Found(postings, w)
  }

  /** `term_matches`: intersect the postings of each query, unite the queries. */
  method TermMatches(postings: Postings, queries: Queries) returns (matches: set<int>)
    requires forall q | q in queries :: q != {}
    ensures forall d :: d in matches <==> exists q :: q in queries && Holds(postings, d, q)
  {
    matches := {};
    var i := 0;
    while i < |queries|
      invariant 0 <= i <= |queries|
      invariant forall d :: d in matches <==> exists q :: q in queries[..i] && Holds(postings, d, q)
    {
      var query := queries[i];
      assert query in queries;
      var first :| first in query;
      var words := query - {first};
      var found := Found(postings, first).Keys;
      while words != {}
        invariant words <= query
        invariant forall d :: d in found <==> Holds(postings, d, query - words)
        decreases words
      {
        var word :| word in words;
        assert query - (words - {word}) == (query - words) + {word};
        words := words - {word};
        found := found * Found(postings, word).Keys;
      }
      assert query - words == query;
      assert queries[..i + 1] == queries[..i] + [query];
      matches := matches + found;
      i := i + 1;
    }
    assert queries[..|queries|] == queries;
  }

  ghost function PostingScore<F>(ar: Arithmetic<F>, postings: Postings, order: seq<Word>, lengths: map<int, nat>,
                                 n: nat, avg: F, d: int): F
    requires d in lengths
  {
    Score(ar, order, w => if d in Found(postings, w) then Found(postings, w)[d] else 0,
          w => |Found(postings, w)|, n, lengths[d], avg)
  }

  /** What one word adds to every eligible match. */
  ghost function WithWord<F>(ar: Arithmetic<F>, scores: map<int, F>, found: map<int, nat>, lengths: map<int, nat>,
                             n: nat, avg: F): map<int, F>
    requires scores.Keys == lengths.Keys
  {
    map d | d in scores ::
      if d in found && found[d] != 0
      then ar.add(scores[d], ar.term(found[d], |found|, n, lengths[d], avg))
      else scores[d]
  }

  /** One word: walk the shorter of the scores and the word's postings. */
  method AddWord<F>(ar: Arithmetic<F>, before: map<int, F>, found: map<int, nat>, lengths: map<int, nat>, n: nat,
                    avg: F)
    returns (scores: map<int, F>)
    requires before.Keys == lengths.Keys
    ensures scores == WithWord(ar, before, found, lengths, n, avg)
  {
    var walk := if |before| < |found| then before.Keys else found.Keys;
    var pairs := set d | d in walk && d in before && d in found;
    scores := before;
    var todo := pairs;
    while todo != {}
      invariant todo <= pairs && scores.Keys == before.Keys
      invariant forall d | d in scores ::
        scores[d] == if d in pairs - todo then WithWord(ar, before, found, lengths, n, avg)[d] else before[d]
      decreases todo
    {
      Inhabited(todo);
      var d: int :| d in todo;
      todo := todo - {d};
      if found[d] != 0 {
        scores := scores[d := ar.add(scores[d], ar.term(found[d], |found|, n, lengths[d], avg))];
      }
    }
    assert pairs - todo == pairs;
    forall d | d in scores
      ensures scores[d] == WithWord(ar, before, found, lengths, n, avg)[d]
    {
      assert d !in pairs ==> d !in found;
    }
  }

  ghost function PostingScores<F>(ar: Arithmetic<F>, postings: Postings, order: seq<Word>, lengths: map<int, nat>,
                                  n: nat, avg: F): map<int, F>
  {
    map d | d in lengths :: PostingScore(ar, postings, order, lengths, n, avg, d)
  }

  lemma PostingScoresStep<F>(ar: Arithmetic<F>, postings: Postings, order: seq<Word>, i: nat, lengths: map<int, nat>,
                             n: nat, avg: F)
    requires i < |order|
    ensures PostingScores(ar, postings, order[..i + 1], lengths, n, avg)
         == WithWord(ar, PostingScores(ar, postings, order[..i], lengths, n, avg),
                     Found(postings, order[i]), lengths, n, avg)
  {
    assert order[..i + 1][..i] == order[..i];
  }

  /** The score map before the first word and after each one. */
  ghost predicate Stages<F>(
      ar: Arithmetic<F>, postings: Postings, order: seq<Word>, lengths: map<int, nat>, n: nat, avg: F,
      stages: seq<map<int, F>>)
  {
    && |stages| == |order| + 1
    && (forall k | 0 <= k < |stages| :: stages[k].Keys == lengths.Keys)
    && forall k | 0 <= k < |order| ::
         stages[k + 1] == WithWord(ar, stages[k], Found(postings, order[k]), lengths, n, avg)
  }

  lemma StagesOf<F>(ar: Arithmetic<F>, postings: Postings, order: seq<Word>, lengths: map<int, nat>, n: nat, avg: F)
    returns (stages: seq<map<int, F>>)
    ensures Stages(ar, postings, order, lengths, n, avg, stages)
    ensures stages[0] == map d | d in lengths :: ar.zero
    ensures stages[|order|] == PostingScores(ar, postings, order, lengths, n, avg)
  {
    stages := seq(|order| + 1, k requires 0 <= k <= |order| =>
        PostingScores(ar, postings, order[..k], lengths, n, avg));
    forall k | 0 <= k < |order|
      ensures stages[k + 1] == WithWord(ar, stages[k], Found(postings, order[k]), lengths, n, avg)
    {
      PostingScoresStep(ar, postings, order, k, lengths, n, avg);
    }
    assert order[..0] == [] && order[..|order|] == order;
  }

  /** The loop over the query words. */
  method AddWords<F>(
      ar: Arithmetic<F>, postings: Postings, order: seq<Word>, lengths: map<int, nat>, n: nat, avg: F,
      start: map<int, F>, ghost stages: seq<map<int, F>>)
    returns (scores: map<int, F>)
    requires Stages(ar, postings, order, lengths, n, avg, stages) && start == stages[0]
    ensures scores == stages[|order|]
  {
    scores := start;
    for i := 0 to |order|
      invariant scores == stages[i]
    {
      scores := AddWord(ar, scores, Found(postings, order[i]), lengths, n, avg);
    }
  }

  /** `bm25_postings_scores`. */
  method Bm25PostingsScores<F(==)>(
      ar: Arithmetic<F>, postings: Postings, queries: Queries, order: seq<Word>,
      lengths: map<int, nat>, documents: nat, tokens: nat)
    returns (scores: map<int, F>)
    requires IsOrder(order, queries)
    ensures queries == [] || documents == 0 ==> scores == map[]
    ensures queries != [] && documents != 0 ==>
      scores == PostingScores(ar, postings, order, lengths, documents, Average(ar, tokens, documents))
  {
    if queries == [] || documents == 0 {
      return map[];
    }
    var avg := Average(ar, tokens, documents);
    ghost var stages := StagesOf(ar, postings, order, lengths, documents, avg);
    scores := AddWords(ar, postings, order, lengths, documents, avg, map d | d in lengths :: ar.zero, stages);
  }

  // ---- the two agree ---------------------------------------------------------

  /** `postings` is the inverted index of `corpus`, as far as the words of `order` go. */
  ghost predicate IsInverse(postings: Postings, corpus: Corpus, order: seq<Word>) {
    forall w | w in order ::
      && Found(postings, w).Keys == (set d | d in corpus && w in corpus[d])
      && forall d | d in Found(postings, w) && d in corpus :: Found(postings, w)[d] == multiset(corpus[d])[w]
  }

  lemma PostingScoreIsScanScore<F>(ar: Arithmetic<F>, postings: Postings, corpus: Corpus, order: seq<Word>,
                                   lengths: map<int, nat>, avg: F, d: int)
    requires IsInverse(postings, corpus, order) && d in corpus && d in lengths && lengths[d] == |corpus[d]|
    ensures PostingScore(ar, postings, order, lengths, |corpus|, avg, d)
         == Score(ar, order, w => multiset(corpus[d])[w], w => DocumentFrequency(corpus, w), |corpus|, |corpus[d]|, avg)
  {
    var tf := (w: Word) => if d in Found(postings, w) then Found(postings, w)[d] else 0;
    var df := (w: Word) => |Found(postings, w)|;
    var tf' := (w: Word) => multiset(corpus[d])[w];
    var df' := (w: Word) => DocumentFrequency(corpus, w);
    forall w | w in order
      ensures tf(w) == tf'(w) && df(w) == df'(w)
    {
      assert d in Found(postings, w) <==> w in corpus[d];
    }
    ScoreSame(ar, order, tf, df, tf', df', |corpus|, |corpus[d]|, avg);
    ScoreSame(ar, order, tf, df, w => if d in Found(postings, w) then Found(postings, w)[d] else 0,
              w => |Found(postings, w)|, |corpus|, |corpus[d]|, avg);
    ScoreSame(ar, order, tf', df', w => multiset(corpus[d])[w], w => DocumentFrequency(corpus, w),
              |corpus|, |corpus[d]|, avg);
  }

  /** A document holds every word of a query in the postings exactly when it does in its text. */
  lemma HoldsIsMatches(postings: Postings, corpus: Corpus, queries: Queries, order: seq<Word>, d: int)
    requires IsOrder(order, queries) && IsInverse(postings, corpus, order)
    requires forall q | q in queries :: q != {}
    ensures (exists q :: q in queries && Holds(postings, d, q)) <==> d in corpus && Matches(corpus[d], queries)
  {
    forall q | q in queries
      ensures Holds(postings, d, q) <==> d in corpus && HasAll(corpus[d], q)
    {
      var some :| some in q;
      assert forall w | w in q :: w in order;
      assert forall w | w in q :: d in Found(postings, w) <==> d in corpus && w in corpus[d];
    }
  }

  /** The whole indexed search (postings, matches, fence, scorer) gives the scan's scores: the same
      documents, and for each the same additions in the same order. */
  method IndexedScores<F(==)>(
      ar: Arithmetic<F>, postings: Postings, lengths: map<int, nat>, queries: Queries, order: seq<Word>,
      keep: set<int>, documents: nat, tokens: nat, ghost corpus: Corpus)
    returns (scores: map<int, F>)
    requires IsOrder(order, queries) && forall q | q in queries :: q != {}
    requires IsInverse(postings, corpus, order)
    requires lengths == Lengths(corpus) && documents == |corpus| && tokens == Sum(Lengths(corpus))
    ensures scores == ScanScores(ar, corpus, queries, order, keep * corpus.Keys)
  {
    var matches := TermMatches(postings, queries);
    forall d
      ensures d in matches <==> d in corpus && Matches(corpus[d], queries)
    {
      HoldsIsMatches(postings, corpus, queries, order, d);
    }
    var eligible := map d | d in lengths && d in matches && d in keep :: lengths[d];
    scores := Bm25PostingsScores(ar, postings, queries, order, eligible, documents, tokens);
    PostingsAreScan(ar, postings, corpus, queries, order, keep, eligible);
    if documents == 0 {
      assert corpus == map[];
    }
  }

  lemma PostingsAreScan<F>(ar: Arithmetic<F>, postings: Postings, corpus: Corpus, queries: Queries, order: seq<Word>,
                           keep: set<int>, eligible: map<int, nat>)
    requires IsInverse(postings, corpus, order)
    requires forall d :: d in eligible <==> d in corpus && d in keep && Matches(corpus[d], queries)
    requires forall d | d in eligible :: eligible[d] == Lengths(corpus)[d]
    ensures
      PostingScores(ar, postings, order, eligible, |corpus|, Average(ar, Sum(Lengths(corpus)), |corpus|))
      == ScanScores(ar, corpus, queries, order, keep * corpus.Keys)
  {
    var avg := Average(ar, Sum(Lengths(corpus)), |corpus|);
    forall d | d in eligible
      ensures PostingScore(ar, postings, order, eligible, |corpus|, avg, d) == ScanScore(ar, corpus, order, d)
    {
      PostingScoreIsScanScore(ar, postings, corpus, order, eligible, avg, d);
    }
  }
}
