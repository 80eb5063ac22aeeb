/** Which records count as near duplicates, told by counting their words. */
module DuplicateMeasure {
  import opened Consolidate
  import opened Tables
  import opened Words

  /** Four different words of three characters or more. */
  predicate SaysEnough(tokens: Tokenizer, text: string) {
    |set w | w in tokens(text) && |w| > 2| > 3
  }

  lemma HalfOf(c: real, shared: nat, larger: nat)
    requires larger > 0 && c == shared as real / larger as real
    ensures c >= 0.5 <==> 2 * shared >= larger
  {
    assert c * larger as real == shared as real;
    if c >= 0.5 {
      assert c * larger as real >= 0.5 * larger as real;
    } else {
      assert c * larger as real < 0.5 * larger as real;
    }
  }

  /** Two records are similar exactly if they share their taint, each says enough, and at least half of the larger
      vocabulary is common to both. */
  lemma SimilarIff(tokens: Tokenizer, r: Record, s: Record)
    ensures
      var a, b := (set w | w in tokens(r.content)), set w | w in tokens(s.content);
      Similar(tokens, r, s) <==>
        && r.tainted == s.tainted && SaysEnough(tokens, r.content) && SaysEnough(tokens, s.content)
        && 2 * |a * b| >= |a| && 2 * |a * b| >= |b|
  {
    var a, b := (set w | w in tokens(r.content)), set w | w in tokens(s.content);
    assert a == FullTokens(tokens, r.content) && b == FullTokens(tokens, s.content);
    LongIsEnough(tokens, r.content);
    LongIsEnough(tokens, s.content);
    if SaysEnough(tokens, r.content) {
      HasWords(tokens, r.content);
      HalfOf(Containment(a, b), |a * b|, if |a| < |b| then |b| else |a|);
    }
  }

  lemma LongIsEnough(tokens: Tokenizer, text: string)
    ensures SaysEnough(tokens, text) <==> |LongTokens(tokens, text)| >= 4
  {
    assert LongTokens(tokens, text) == set w | w in tokens(text) && |w| > 2;
  }

  lemma HasWords(tokens: Tokenizer, text: string)
    requires SaysEnough(tokens, text)
    ensures (set w | w in tokens(text)) != {}
  {
    var long := set w | w in tokens(text) && |w| > 2;
    assert Pick(long) in tokens(text);
  }

  /** The share of the larger vocabulary that is common to both. */
  lemma ContainmentIsShare(a: set<Word>, b: set<Word>)
    ensures
      var larger := if |a| < |b| then |b| else |a|;
      Containment(a, b) * larger as real == |a * b| as real
    ensures a * b == {} ==> Containment(a, b) == 0.0
  {
  }

  /** A score below the cap is the share in whole hundredths, the nearest, and of two as near the even one. */
  lemma ReportedHundredths(raw: real) returns (n: int)
    ensures raw < 0.995 ==>
      && ReportedScore(raw) * 100.0 == n as real
      && raw * 100.0 - 0.5 <= n as real <= raw * 100.0 + 0.5
      && (n as real == raw * 100.0 - 0.5 || n as real == raw * 100.0 + 0.5 ==> n % 2 == 0)
    ensures raw >= 0.995 ==> ReportedScore(raw) == 0.99
  {
    n := HalfEven(raw * 100.0);
  }

  /** Two different texts score as reported the share of the larger vocabulary they have in common. */
  lemma PairScoreIs(tokens: Tokenizer, r: Record, s: Record)
    ensures
      var share := Containment(set w | w in tokens(r.content), set w | w in tokens(s.content));
      PairScore(tokens, r, s) == if r.content == s.content then 1.0 else ReportedScore(share)
  {
    assert FullTokens(tokens, r.content) == set w | w in tokens(r.content);
    assert FullTokens(tokens, s.content) == set w | w in tokens(s.content);
  }

  // ---- the pool ------------------------------------------------------------------

  /** The pool is the active records not superseded, in order: each by itself is in or out, and the pools of
      two lists stand side by side. */
  lemma {:induction false} PoolIsActive(ordered: seq<Record>, more: seq<Record>, r: Record)
    ensures Pool(ordered + more) == Pool(ordered) + Pool(more)
    ensures Pool([r]) == if r.tier == Active && !r.superseded then [r] else []
    decreases |ordered|
  {
    assert [r][1..] == [];
    if ordered == [] {
      assert ordered + more == more;
    } else {
      assert (ordered + more)[1..] == ordered[1..] + more;
      PoolIsActive(ordered[1..], more, r);
    }
  }
}
