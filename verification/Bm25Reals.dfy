/** What the scorers' numbers are when their arithmetic is that of the reals. */
module Bm25Reals {
  import opened Bm25
  import opened Tables
  import opened Words

  /** The constants, the sum and the quotient of the reals; what one word adds is still any function. */
  ghost predicate IsReal(ar: Arithmetic<real>) {
    && ar.zero == 0.0 && ar.one == 1.0
    && (forall a, b :: ar.add(a, b) == a + b)
    && (forall a, b | b > 0 :: ar.ratio(a, b) == a as real / b as real)
  }

  // ---- the average -------------------------------------------------------------

  /** The average length times the documents is the tokens; without tokens it is one. */
  lemma AverageIsMean(ar: Arithmetic<real>, tokens: nat, documents: nat)
    requires IsReal(ar) && documents > 0
    ensures tokens > 0 ==> Average(ar, tokens, documents) * documents as real == tokens as real
    ensures tokens == 0 ==> Average(ar, tokens, documents) == 1.0
  {
  }

  lemma OnceMore(k: nat, n: nat)
    requires n > 0
    ensures k * n == k * (n - 1) + k
  {
  }

  lemma {:induction false} SumBetween(m: map<int, nat>, low: nat, high: nat)
    requires forall d | d in m :: low <= m[d] <= high
    ensures low * |m| <= Sum(m) <= high * |m|
    decreases |m|
  {
    if m != map[] {
      Inhabited(m.Keys);
      var d: int :| d in m;
      SumWithout(m, d);
      SumBetween(m - {d}, low, high);
      assert |m - {d}| == |m| - 1;
      OnceMore(low, |m|);
      OnceMore(high, |m|);
    }
  }

  lemma Scales(a: real, b: real, c: real)
    requires a < b && c > 0.0
    ensures a * c < b * c
  {
  }

  lemma MeanOfBounds(mean: real, total: nat, count: nat, low: nat, high: nat)
    requires count > 0 && mean * count as real == total as real && low * count <= total <= high * count
    ensures low as real <= mean <= high as real
  {
    if mean < low as real {
      Scales(mean, low as real, count as real);
    } else if mean > high as real {
      Scales(high as real, mean, count as real);
    }
  }

  lemma TotalBetween(corpus: Corpus, low: nat, high: nat)
    requires forall d | d in corpus :: low <= |corpus[d]| <= high
    ensures low * |corpus| <= Sum(Lengths(corpus)) <= high * |corpus|
    ensures Sum(Lengths(corpus)) > 0 ==> |corpus| > 0
  {
    var lengths := Lengths(corpus);
    assert lengths.Keys == corpus.Keys;
    assert |lengths| == |lengths.Keys| == |corpus.Keys|;
    SumBetween(lengths, low, high);
  }

  lemma AverageBetween(ar: Arithmetic<real>, total: nat, count: nat, low: nat, high: nat)
    requires IsReal(ar) && total > 0 && count > 0 && low * count <= total <= high * count
    ensures low as real <= Average(ar, total, count) <= high as real
  {
    AverageIsMean(ar, total, count);
    MeanOfBounds(Average(ar, total, count), total, count, low, high);
  }

  /** The mean length of a corpus with tokens lies between any bounds of its documents' lengths. */
  lemma MeanBetween(ar: Arithmetic<real>, corpus: Corpus, low: nat, high: nat)
    requires IsReal(ar) && Sum(Lengths(corpus)) > 0 && forall d | d in corpus :: low <= |corpus[d]| <= high
    ensures low as real <= Average(ar, Sum(Lengths(corpus)), |corpus|) <= high as real
  {
    TotalBetween(corpus, low, high);
    AverageBetween(ar, Sum(Lengths(corpus)), |corpus|, low, high);
  }

  lemma OneMean(a: real, b: real, total: real, count: real)
    requires count > 0.0 && a * count == total && b * count == total
    ensures a == b
  {
    if a < b {
      Scales(a, b, count);
    }
    if b < a {
      Scales(b, a, count);
    }
  }

  // ---- the scores --------------------------------------------------------------

  lemma OneFold(ar: Arithmetic<real>, w: Word, tf: Word -> nat, df: Word -> nat, n: nat, length: nat, avg: real)
    requires IsReal(ar)
    ensures Score(ar, [w], tf, df, n, length, avg)
         == if tf(w) == 0 then 0.0 else ar.term(tf(w), df(w), n, length, avg)
  {
    assert [w][..0] == [];
    assert Score(ar, [], tf, df, n, length, avg) == 0.0;
  }

  lemma FoldMore(ar: Arithmetic<real>, order: seq<Word>, w: Word, tf: Word -> nat, df: Word -> nat, n: nat, length: nat,
                 avg: real)
    requires IsReal(ar)
    ensures Score(ar, order + [w], tf, df, n, length, avg)
         == Score(ar, order, tf, df, n, length, avg) + Score(ar, [w], tf, df, n, length, avg)
  {
    OneFold(ar, w, tf, df, n, length, avg);
    assert (order + [w])[..|order|] == order;
  }

  lemma TokensOfHolder(corpus: Corpus, d: int)
    requires d in corpus && corpus[d] != []
    ensures Sum(Lengths(corpus)) > 0 && |corpus| > 0
  {
    SumWithout(Lengths(corpus), d);
  }

  /** What one query word adds to a document that holds it: a term of how often it does, how many documents do, how
      many there are, its length, and the mean length. */
  lemma OneWordScore(ar: Arithmetic<real>, corpus: Corpus, w: Word, d: int, mean: real)
    requires IsReal(ar) && d in corpus && w in corpus[d]
    requires mean * |corpus| as real == Sum(Lengths(corpus)) as real
    ensures ScanScore(ar, corpus, [w], d)
         == ar.term(multiset(corpus[d])[w], |set e | e in corpus && w in corpus[e]|, |corpus|, |corpus[d]|, mean)
  {
    TokensOfHolder(corpus, d);
    var total, words := Sum(Lengths(corpus)), corpus[d];
    AverageIsMean(ar, total, |corpus|);
    OneMean(Average(ar, total, |corpus|), mean, total as real, |corpus| as real);
    OneFold(ar, w, w => multiset(words)[w], w => DocumentFrequency(corpus, w), |corpus|, |words|, mean);
    assert w in multiset(words);
  }

  /** A word the document lacks adds nothing. */
  lemma AbsentWordScore(ar: Arithmetic<real>, corpus: Corpus, w: Word, d: int)
    requires IsReal(ar) && d in corpus && w !in corpus[d]
    ensures ScanScore(ar, corpus, [w], d) == 0.0
  {
    var words, avg := corpus[d], Average(ar, Sum(Lengths(corpus)), |corpus|);
    OneFold(ar, w, w => multiset(words)[w], w => DocumentFrequency(corpus, w), |corpus|, |words|, avg);
  }

  /** The words of a query add up. */
  lemma ScoresAddUp(ar: Arithmetic<real>, corpus: Corpus, order: seq<Word>, w: Word, d: int)
    requires IsReal(ar) && d in corpus
    ensures ScanScore(ar, corpus, order + [w], d) == ScanScore(ar, corpus, order, d) + ScanScore(ar, corpus, [w], d)
  {
    var words, avg := corpus[d], Average(ar, Sum(Lengths(corpus)), |corpus|);
    FoldMore(ar, order, w, w => multiset(words)[w], w => DocumentFrequency(corpus, w), |corpus|, |words|, avg);
  }
}
