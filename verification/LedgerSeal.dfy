/** The last hash of an accepted ledger seals every row of it, across the eras. */
module LedgerSeal {
  import opened AuditLine
  import opened Decimals
  import opened Journal
  import opened Words

  predicate IsHexDigit(c: char) {
    '0' <= c <= '9' || 'a' <= c <= 'f'
  }

  lemma HexDigitIs(c: char)
    ensures IsHexDigit(c) <==> c in HEX
  {
    assert forall i | 0 <= i < 10 :: HEX[i] as int == 48 + i;
    assert forall i | 10 <= i < 16 :: HEX[i] as int == 87 + i;
    if '0' <= c <= '9' {
      assert HEX[c as int - 48] == c;
    } else if 'a' <= c <= 'f' {
      assert HEX[c as int - 87] == c;
    }
  }

  /** Every digest is 64 lower-case hexadecimal digits. */
  ghost predicate Hexadecimal(sha: Digest) {
    forall x: string :: |sha(x)| == 64 && forall i | 0 <= i < 64 :: IsHexDigit(sha(x)[i])
  }

  /** No two of these texts share a digest. */
  ghost predicate CollisionFree(sha: Digest, inputs: set<string>) {
    forall x, y | x in inputs && y in inputs && sha(x) == sha(y) :: x == y
  }

  /** The timestamp a JSON row signs: parity falls back on the stored text. */
  function SignedAt(sha: Digest, era: nat, prev: string, e: Event): string {
    if era != 0 && sha(prev + ParityLine(e)) == e.chained then AtCanonical(e.at)
    else if e.storedAt.Some? then e.storedAt.value
    else AtCanonical(e.at)
  }

  /** What the row's hash covers after the hash before it. */
  function Text(sha: Digest, era: nat, prev: string, e: Event): string {
    if era == 1 then "\n" + PortLine(e)
    else JsonLine(e.seqno, SignedAt(sha, era, prev, e), e.actor, e.action, e.subject, e.reason)
  }

  lemma TextIsHashed(sha: Digest, era: nat, prev: string, e: Event)
    requires era <= PARITY && Matches(sha, era, prev, e)
    ensures sha(prev + Text(sha, era, prev, e)) == e.chained
    ensures Text(sha, era, prev, e)[..1] == if era == 1 then "\n" else "{"
  {
  }

  /** A row as the chain sees it. */
  datatype Link = Link(prev: string, text: string, hash: string)

  ghost predicate Hashed(sha: Digest, link: Link) {
    link.hash == sha(link.prev + link.text) && link.text != "" && !IsHexDigit(link.text[0])
  }

  ghost predicate Linked(sha: Digest, links: seq<Link>) {
    && (forall k | 0 <= k < |links| :: Hashed(sha, links[k]))
    && (forall k | 0 <= k < |links| :: Follows(links, k))
  }

  ghost predicate Follows(links: seq<Link>, k: nat)
    requires k < |links|
  {
    if k == 0 then links[k].prev == "" else links[k].prev == links[k - 1].hash
  }

  /** Every text the links were hashed from. */
  ghost function Inputs(links: seq<Link>): set<string> {
    set k | 0 <= k < |links| :: links[k].prev + links[k].text
  }

  lemma SplitAfterHash(p: string, q: string, x: string, y: string)
    requires p + x == q + y
    requires x != "" && !IsHexDigit(x[0]) && y != "" && !IsHexDigit(y[0])
    requires p == "" || (|p| == 64 && IsHexDigit(p[0]))
    requires q == "" || (|q| == 64 && IsHexDigit(q[0]))
    ensures p == q && x == y
  {
    assert p == "" <==> !IsHexDigit((p + x)[0]);
    assert q == "" <==> !IsHexDigit((q + y)[0]);
    assert |p| == |q|;
    assert p == (p + x)[..|p|] && q == (q + y)[..|q|];
    assert x == (p + x)[|p|..] && y == (q + y)[|q|..];
  }

  lemma SameHashSameLink(sha: Digest, a: Link, b: Link)
    requires Hexadecimal(sha) && CollisionFree(sha, {a.prev + a.text, b.prev + b.text})
    requires Hashed(sha, a) && Hashed(sha, b)
    requires a.prev == "" || (|a.prev| == 64 && IsHexDigit(a.prev[0]))
    requires b.prev == "" || (|b.prev| == 64 && IsHexDigit(b.prev[0]))
    requires a.hash == b.hash
    ensures a == b
  {
    SplitAfterHash(a.prev, b.prev, a.text, b.text);
  }

  lemma PrevIsDigest(sha: Digest, links: seq<Link>, k: nat)
    requires Hexadecimal(sha) && Linked(sha, links) && k < |links|
    ensures links[k].prev == "" <==> k == 0
    ensures k > 0 ==> |links[k].prev| == 64 && IsHexDigit(links[k].prev[0])
  {
    assert Follows(links, k);
    if k > 0 {
      assert Hashed(sha, links[k - 1]);
    }
  }

  lemma LinkedPrefix(sha: Digest, links: seq<Link>, n: nat)
    requires Linked(sha, links) && n <= |links|
    ensures Linked(sha, links[..n])
  {
    forall k | 0 <= k < n
      ensures Follows(links[..n], k)
    {
      assert Follows(links, k);
    }
  }

  /** Two chains, no two of whose texts share a digest, ending in one hash. */
  ghost predicate SameEnd(sha: Digest, these: seq<Link>, those: seq<Link>) {
    && Linked(sha, these) && Linked(sha, those)
    && CollisionFree(sha, Inputs(these) + Inputs(those))
    && these != [] && those != [] && these[|these| - 1].hash == those[|those| - 1].hash
  }

  /** The last links are one link, first in both chains or in neither. */
  lemma LastLinksAgree(sha: Digest, these: seq<Link>, those: seq<Link>)
    requires Hexadecimal(sha) && SameEnd(sha, these, those)
    ensures these[|these| - 1] == those[|those| - 1] && (|these| == 1 <==> |those| == 1)
  {
    var m, n := |these| - 1, |those| - 1;
    var a, b := these[m], those[n];
    assert a.prev + a.text in Inputs(these) && b.prev + b.text in Inputs(those);
    PrevIsDigest(sha, these, m);
    PrevIsDigest(sha, those, n);
    SameHashSameLink(sha, a, b);
  }

  /** Two chains ending in one hash are one chain. */
  lemma {:induction false} SameHeadSameChain(sha: Digest, these: seq<Link>, those: seq<Link>)
    requires Hexadecimal(sha) && SameEnd(sha, these, those)
    ensures these == those
    decreases |these|
  {
    LastLinksAgree(sha, these, those);
    if |these| > 1 {
      PrefixesAgree(sha, these, those);
      SameHeadSameChain(sha, these[..|these| - 1], those[..|those| - 1]);
    }
    SplitLast(these, those);
  }

  lemma SplitLast(these: seq<Link>, those: seq<Link>)
    requires these != [] && those != [] && these[|these| - 1] == those[|those| - 1]
    requires these[..|these| - 1] == those[..|those| - 1]
    ensures these == those
  {
    assert these == these[..|these| - 1] + [these[|these| - 1]];
    assert those == those[..|those| - 1] + [those[|those| - 1]];
  }

  lemma LastHash(links: seq<Link>, m: nat)
    requires 0 < m < |links| && Follows(links, m)
    ensures links[..m] != [] && links[..m][|links[..m]| - 1].hash == links[m].prev
  {
  }

  lemma PrefixesAgree(sha: Digest, these: seq<Link>, those: seq<Link>)
    requires SameEnd(sha, these, those) && |these| > 1 && |those| > 1
    requires these[|these| - 1] == those[|those| - 1]
    ensures SameEnd(sha, these[..|these| - 1], those[..|those| - 1])
  {
    var m, n := |these| - 1, |those| - 1;
    LinkedPrefix(sha, these, m);
    LinkedPrefix(sha, those, n);
    FewerInputs(sha, these, m, those, n);
    LastHash(these, m);
    LastHash(those, n);
  }

  lemma FewerInputs(sha: Digest, these: seq<Link>, m: nat, those: seq<Link>, n: nat)
    requires m <= |these| && n <= |those| && CollisionFree(sha, Inputs(these) + Inputs(those))
    ensures CollisionFree(sha, Inputs(these[..m]) + Inputs(those[..n]))
  {
    InputsOfPrefix(these, m);
    InputsOfPrefix(those, n);
  }

  lemma InputsOfPrefix(links: seq<Link>, n: nat)
    requires n <= |links|
    ensures Inputs(links[..n]) <= Inputs(links)
  {
    forall x | x in Inputs(links[..n])
      ensures x in Inputs(links)
    {
      var k :| 0 <= k < n && x == links[..n][k].prev + links[..n][k].text;
      assert x == links[k].prev + links[k].text;
    }
  }

  // ---- what the port's line determines ---------------------------------------

  function ReasonText(e: Event): string {
    if e.reason.Some? then e.reason.value else ""
  }

  predicate TabFree(e: Event) {
    '\t' !in e.actor && '\t' !in e.action && '\t' !in e.subject && '\t' !in ReasonText(e)
  }

  /** What a port's line can say of a row: no reason and an empty one print alike. */
  predicate SamePortFields(e: Event, f: Event) {
    && e.seqno == f.seqno && e.at == f.at
    && e.actor == f.actor && e.action == f.action && e.subject == f.subject && ReasonText(e) == ReasonText(f)
  }

  /** The text after the time: four fields between three tabs. */
  function PortTail(actor: string, action: string, subject: string, reason: string): string {
    actor + "\t" + (action + "\t" + (subject + "\t" + reason))
  }

  lemma RegroupLine<T>(i: seq<T>, tab: seq<T>, f: seq<T>, a: seq<T>, b: seq<T>, s: seq<T>, r: seq<T>)
    ensures i + tab + f + tab + a + tab + b + tab + s + tab + r
         == i + tab + (f + tab + (a + tab + (b + tab + (s + tab + r))))
  {
    Regroup(i + tab + f + tab + a + tab + b + tab, s, tab, r);
    Regroup(i + tab + f + tab + a + tab, b, tab, s + tab + r);
    Regroup(i + tab + f + tab, a, tab, b + tab + (s + tab + r));
    Regroup(i + tab, f, tab, a + tab + (b + tab + (s + tab + r)));
  }

  lemma PortLineParts(e: Event)
    ensures PortLine(e) == Integer(e.seqno) + "\t"
         + (FormatRfc3339(e.at) + "\t" + PortTail(e.actor, e.action, e.subject, ReasonText(e)))
  {
    RegroupLine(Integer(e.seqno), "\t", FormatRfc3339(e.at), e.actor, e.action, e.subject, ReasonText(e));
  }

  function Tabs(s: string): nat {
    multiset(s)['\t']
  }

  lemma CutAtTab(s: string, t: string, x: string, y: string)
    requires '\t' !in s && '\t' !in t && s + "\t" + x == t + "\t" + y
    ensures s == t && x == y
  {
    var all, other := s + "\t" + x, t + "\t" + y;
    assert all[|s|] == '\t' && other[|t|] == '\t';
    assert forall i | 0 <= i < |s| :: all[i] == s[i];
    assert forall i | 0 <= i < |t| :: other[i] == t[i];
    assert |s| == |t|;
    assert s == all[..|s|] && t == other[..|t|];
    assert x == all[|s| + 1..] && y == other[|t| + 1..];
  }

  lemma NumberHasNoTab(n: int)
    ensures '\t' !in Integer(n)
  {
    var digits := Decimal(if n < 0 then -n else n);
    assert forall i | 0 <= i < |digits| :: IsDigit(digits[i]);
  }

  lemma TimeHasNoTab(at: Instant)
    ensures '\t' !in FormatRfc3339(at)
  {
    var digits := Padded(at.micros, 6);
    assert forall i | 0 <= i < |digits| :: IsDigit(digits[i]);
  }

  lemma NumberDetermines(m: int, n: int)
    requires Integer(m) == Integer(n)
    ensures m == n
  {
    IntegerDetermines(m, n, "", "");
  }

  lemma FormatDetermines(a: Instant, b: Instant)
    requires FormatRfc3339(a) == FormatRfc3339(b)
    ensures a == b
  {
    assert |FormatRfc3339(a)| == if a.micros == 0 then 20 else 27;
    assert |FormatRfc3339(b)| == if b.micros == 0 then 20 else 27;
    if a.micros == 0 {
      assert a.second == FormatRfc3339(a)[..19] && b.second == FormatRfc3339(b)[..19];
    } else {
      Regroup(a.second, ".", Padded(a.micros, 6), "Z");
      Regroup(b.second, ".", Padded(b.micros, 6), "Z");
      CancelTail(a.second + ("." + Padded(a.micros, 6)), b.second + ("." + Padded(b.micros, 6)), "Z");
      SameFraction(a, b);
    }
  }

  lemma TabsOfTail(actor: string, action: string, subject: string, reason: string)
    ensures Tabs(PortTail(actor, action, subject, reason))
         == 3 + Tabs(actor) + Tabs(action) + Tabs(subject) + Tabs(reason)
  {
  }

  /** Four fields, the first row's without tabs: the second row's have none to spare. */
  lemma TailDetermines(a1: string, c1: string, s1: string, r1: string, a2: string, c2: string, s2: string, r2: string)
    requires '\t' !in a1 && '\t' !in c1 && '\t' !in s1 && '\t' !in r1
    requires PortTail(a1, c1, s1, r1) == PortTail(a2, c2, s2, r2)
    ensures a1 == a2 && c1 == c2 && s1 == s2 && r1 == r2
  {
    TabsOfTail(a1, c1, s1, r1);
    TabsOfTail(a2, c2, s2, r2);
    assert Tabs(a2) == 0 && Tabs(c2) == 0 && Tabs(s2) == 0;
    CutAtTab(a1, a2, c1 + "\t" + (s1 + "\t" + r1), c2 + "\t" + (s2 + "\t" + r2));
    CutAtTab(c1, c2, s1 + "\t" + r1, s2 + "\t" + r2);
    CutAtTab(s1, s2, r1, r2);
  }

  lemma TabFreeDetermines(e: Event, f: Event)
    requires TabFree(e) && PortLine(e) == PortLine(f)
    ensures SamePortFields(e, f)
    ensures e.seqno == f.seqno && e.at == f.at && e.actor == f.actor && e.action == f.action && e.subject == f.subject
    ensures e.reason == f.reason || {e.reason, f.reason} == {None, Some("")}
  {
    var x := PortTail(e.actor, e.action, e.subject, ReasonText(e));
    var y := PortTail(f.actor, f.action, f.subject, ReasonText(f));
    PortLineParts(e);
    PortLineParts(f);
    NumberHasNoTab(e.seqno);
    NumberHasNoTab(f.seqno);
    CutAtTab(Integer(e.seqno), Integer(f.seqno), FormatRfc3339(e.at) + "\t" + x, FormatRfc3339(f.at) + "\t" + y);
    NumberDetermines(e.seqno, f.seqno);
    TimeHasNoTab(e.at);
    TimeHasNoTab(f.at);
    CutAtTab(FormatRfc3339(e.at), FormatRfc3339(f.at), x, y);
    FormatDetermines(e.at, f.at);
    TailDetermines(e.actor, e.action, e.subject, ReasonText(e), f.actor, f.action, f.subject, ReasonText(f));
  }

  lemma SplitAtTab(s: string) returns (head: string, tail: string)
    requires '\t' in s
    ensures s == head + "\t" + tail
  {
    var i :| 0 <= i < |s| && s[i] == '\t';
    head, tail := s[..i], s[i + 1..];
  }

  lemma MoveRight<T>(head: seq<T>, tab: seq<T>, tail: seq<T>, field: seq<T>, rest: seq<T>)
    ensures head + tab + tail + tab + (field + tab + rest) == head + tab + (tail + tab + field + tab + rest)
    ensures head + tab + tail + tab + field == head + tab + (tail + tab + field)
  {
  }

  lemma SameTailSameLine(e: Event, f: Event)
    requires e.seqno == f.seqno && e.at == f.at
    requires PortTail(e.actor, e.action, e.subject, ReasonText(e))
        == PortTail(f.actor, f.action, f.subject, ReasonText(f))
    ensures PortLine(e) == PortLine(f)
  {
    PortLineParts(e);
    PortLineParts(f);
  }

  /** A tab inside a field can be read as a border: the line has a second reading. */
  lemma TabMoves(e: Event) returns (f: Event)
    requires !TabFree(e)
    ensures PortLine(f) == PortLine(e) && !SamePortFields(e, f)
  {
    var reason := ReasonText(e);
    if '\t' in e.actor {
      var head, tail := SplitAtTab(e.actor);
      f := e.(actor := head, action := tail + "\t" + e.action);
      MoveRight(head, "\t", tail, e.action, e.subject + "\t" + reason);
    } else if '\t' in e.action {
      var head, tail := SplitAtTab(e.action);
      f := e.(action := head, subject := tail + "\t" + e.subject);
      MoveRight(head, "\t", tail, e.subject, reason);
    } else if '\t' in e.subject {
      var head, tail := SplitAtTab(e.subject);
      f := e.(subject := head, reason := Some(tail + "\t" + reason));
      MoveRight(head, "\t", tail, reason, []);
    } else {
      var head, tail := SplitAtTab(reason);
      f := e.(subject := e.subject + "\t" + head, reason := Some(tail));
      MoveRight(e.subject, "\t", head, tail, []);
    }
    SameTailSameLine(e, f);
  }

  /** The port's line determines the fields it printed exactly when none of them holds a tab, and tells no reason
      from an empty one exactly when there is a reason to print. */
  lemma PortLineDeterminesIff(e: Event)
    ensures (forall f: Event | PortLine(f) == PortLine(e) :: SamePortFields(e, f)) <==> TabFree(e)
    ensures (forall f: Event | PortLine(f) == PortLine(e) :: SamePortFields(e, f) && f.reason == e.reason)
        <==> TabFree(e) && ReasonText(e) != ""
  {
    if TabFree(e) {
      forall f: Event | PortLine(f) == PortLine(e)
        ensures SamePortFields(e, f)
      {
        TabFreeDetermines(e, f);
      }
      if ReasonText(e) == "" {
        var f := e.(reason := if e.reason.Some? then None else Some(""));
        SameTailSameLine(e, f);
      }
    } else {
      var f := TabMoves(e);
    }
  }

  // ---- the ledger as a chain -------------------------------------------------

  function LinkOf(sha: Digest, era: nat, prev: string, e: Event): Link {
    Link(prev, Text(sha, era, prev, e), e.chained)
  }

  lemma LinkIsHashed(sha: Digest, era: nat, prev: string, e: Event)
    requires era <= PARITY && Matches(sha, era, prev, e)
    ensures Hashed(sha, LinkOf(sha, era, prev, e))
  {
    TextIsHashed(sha, era, prev, e);
    var text := Text(sha, era, prev, e);
    assert text[0] == text[..1][0];
  }

  lemma RowMatches(sha: Digest, events: seq<Event>, eras: seq<nat>, k: nat)
    requires Assigned(ByDigest(sha), events, eras) && k < |events|
    ensures eras[k] <= PARITY && Matches(sha, eras[k], Prev(events, k), events[k])
  {
    assert RowHolds(ByDigest(sha), events, eras, k);
  }

  /** What two rows hashed from one text share. */
  ghost predicate SameSigned(sha: Digest, prev: string, era1: nat, e: Event, era2: nat, f: Event) {
    && (era1 == 1 <==> era2 == 1)
    && (era1 == 1 && TabFree(e) ==> SamePortFields(e, f))
    && (era1 != 1 ==>
          && e.seqno == f.seqno && e.actor == f.actor && e.action == f.action && e.subject == f.subject
          && e.reason == f.reason
          && SignedAt(sha, era1, prev, e) == SignedAt(sha, era2, prev, f))
  }

  /** Rows of one text are both the port's or both JSON; a JSON text yields every field it signed, and so
      does a port's line without a tab inside a field. */
  lemma SameTextSameFields(sha: Digest, era1: nat, prev: string, e: Event, era2: nat, f: Event)
    requires Text(sha, era1, prev, e) == Text(sha, era2, prev, f)
    ensures SameSigned(sha, prev, era1, e, era2, f)
  {
    assert era1 == 1 <==> Text(sha, era1, prev, e)[0] == '\n';
    assert era2 == 1 <==> Text(sha, era2, prev, f)[0] == '\n';
    if era1 != 1 {
      JsonLineDetermines(e.seqno, SignedAt(sha, era1, prev, e), e.actor, e.action, e.subject, e.reason,
                         f.seqno, SignedAt(sha, era2, prev, f), f.actor, f.action, f.subject, f.reason);
    } else if TabFree(e) {
      Cancel("\n", PortLine(e), PortLine(f));
      TabFreeDetermines(e, f);
    }
  }

  /** An accepted ledger, and the chain its rows make under the eras that explain them. */
  ghost predicate Signs(sha: Digest, events: seq<Event>, eras: seq<nat>, links: seq<Link>) {
    && events != [] && Assigned(ByDigest(sha), events, eras)
    && |links| == |events|
    && forall k | 0 <= k < |links| :: links[k] == LinkOf(sha, eras[k], Prev(events, k), events[k])
  }

  lemma SignedIsLinked(sha: Digest, events: seq<Event>, eras: seq<nat>, links: seq<Link>)
    requires Signs(sha, events, eras, links)
    ensures Linked(sha, links) && links != []
    ensures links[|links| - 1].hash == events[|events| - 1].chained
  {
    forall k | 0 <= k < |events|
      ensures Hashed(sha, links[k])
    {
      RowMatches(sha, events, eras, k);
      LinkIsHashed(sha, eras[k], Prev(events, k), events[k]);
    }
    assert forall k: nat | k < |links| :: Follows(links, k);
  }

  /** Two accepted ledgers ending in one hash have one length, and hash one text at every row. */
  lemma SameHeadSameLedger(sha: Digest, es: seq<Event>, eras: seq<nat>, these: seq<Link>, fs: seq<Event>,
                           otherEras: seq<nat>, those: seq<Link>)
    requires Hexadecimal(sha) && Signs(sha, es, eras, these) && Signs(sha, fs, otherEras, those)
    requires CollisionFree(sha, Inputs(these) + Inputs(those))
    requires es[|es| - 1].chained == fs[|fs| - 1].chained
    ensures |es| == |fs| && these == those
  {
    SignedIsLinked(sha, es, eras, these);
    SignedIsLinked(sha, fs, otherEras, those);
    assert SameEnd(sha, these, those);
    SameHeadSameChain(sha, these, those);
  }

  /** Ledgers of one chain agree at every row on the era's kind, and in the JSON eras on every field. */
  lemma SameLedgerSameFields(sha: Digest, es: seq<Event>, eras: seq<nat>, fs: seq<Event>, otherEras: seq<nat>,
                             links: seq<Link>, k: nat)
    requires Signs(sha, es, eras, links) && Signs(sha, fs, otherEras, links) && k < |links|
    ensures SameSigned(sha, links[k].prev, eras[k], es[k], otherEras[k], fs[k])
  {
    SameLinkSameSigned(sha, links[k], eras[k], Prev(es, k), es[k], otherEras[k], Prev(fs, k), fs[k]);
  }

  lemma SameLinkSameSigned(sha: Digest, link: Link, era1: nat, prev1: string, e: Event, era2: nat, prev2: string,
                           f: Event)
    requires link == LinkOf(sha, era1, prev1, e) == LinkOf(sha, era2, prev2, f)
    ensures prev1 == prev2 && SameSigned(sha, prev1, era1, e, era2, f)
  {
    SameTextSameFields(sha, era1, prev1, e, era2, f);
  }

  // ---- accepted ledgers ------------------------------------------------------

  /** Every text the verifier may hash on the way through a ledger: each row in each of the three forms. */
  ghost function Candidates(events: seq<Event>): set<string> {
    set k, era | 0 <= k < |events| && 0 <= era <= PARITY :: Prev(events, k) + Signed(era, events[k])
  }

  /** The chain an assignment of eras makes of a ledger. */
  ghost function Chain(sha: Digest, events: seq<Event>, eras: seq<nat>): seq<Link>
    requires |eras| == |events|
  {
    seq(|events|, k requires 0 <= k < |events| => LinkOf(sha, eras[k], Prev(events, k), events[k]))
  }

  lemma TextIsCandidate(sha: Digest, era: nat, prev: string, e: Event)
    requires era <= PARITY
    ensures exists form :: 0 <= form <= PARITY && Text(sha, era, prev, e) == Signed(form, e)
  {
    assert Text(sha, era, prev, e) == Signed(0, e) || Text(sha, era, prev, e) == Signed(1, e)
        || Text(sha, era, prev, e) == Signed(2, e);
  }

  lemma RowIsCandidate(sha: Digest, events: seq<Event>, eras: seq<nat>, k: nat)
    requires Assigned(ByDigest(sha), events, eras) && k < |events|
    ensures Prev(events, k) + Text(sha, eras[k], Prev(events, k), events[k]) in Candidates(events)
  {
    RowMatches(sha, events, eras, k);
    TextIsCandidate(sha, eras[k], Prev(events, k), events[k]);
  }

  lemma ChainInputs(sha: Digest, events: seq<Event>, eras: seq<nat>)
    requires Assigned(ByDigest(sha), events, eras)
    ensures Inputs(Chain(sha, events, eras)) <= Candidates(events)
  {
    forall x | x in Inputs(Chain(sha, events, eras))
      ensures x in Candidates(events)
    {
      var k :| 0 <= k < |events| && x == Chain(sha, events, eras)[k].prev + Chain(sha, events, eras)[k].text;
      RowIsCandidate(sha, events, eras, k);
    }
  }

  /** Two ledgers the verifier accepts, no two of whose texts share a digest, ending in one hash. */
  ghost predicate SealedAlike(sha: Digest, es: seq<Event>, fs: seq<Event>) {
    && Hexadecimal(sha) && CollisionFree(sha, Candidates(es) + Candidates(fs))
    && Acceptable(ByDigest(sha), es) && Acceptable(ByDigest(sha), fs)
    && es != [] && fs != [] && es[|es| - 1].chained == fs[|fs| - 1].chained
  }

  /** One reading of each of them makes one chain of both. */
  lemma ReadingsAgree(sha: Digest, es: seq<Event>, eras: seq<nat>, fs: seq<Event>, otherEras: seq<nat>)
    requires SealedAlike(sha, es, fs)
    requires Assigned(ByDigest(sha), es, eras) && Assigned(ByDigest(sha), fs, otherEras)
    ensures |es| == |fs| && Chain(sha, es, eras) == Chain(sha, fs, otherEras)
  {
    ChainInputs(sha, es, eras);
    ChainInputs(sha, fs, otherEras);
    SameHeadSameLedger(sha, es, eras, Chain(sha, es, eras), fs, otherEras, Chain(sha, fs, otherEras));
  }

  lemma RowsAgree(sha: Digest, es: seq<Event>, eras: seq<nat>, fs: seq<Event>, otherEras: seq<nat>, k: nat)
    requires SealedAlike(sha, es, fs) && k < |es|
    requires Assigned(ByDigest(sha), es, eras) && Assigned(ByDigest(sha), fs, otherEras)
    ensures |es| == |fs| && es[k].chained == fs[k].chained
    ensures SameSigned(sha, Prev(es, k), eras[k], es[k], otherEras[k], fs[k])
  {
    ReadingsAgree(sha, es, eras, fs, otherEras);
    var link := Chain(sha, es, eras)[k];
    assert link == Chain(sha, fs, otherEras)[k];
    SameLinkSameSigned(sha, link, eras[k], Prev(es, k), es[k], otherEras[k], Prev(fs, k), fs[k]);
  }

  /** The last hash of an accepted ledger seals it: its length, every row's hash and, however the eras are read,
      every field the row's form signs. */
  lemma AcceptedLedgersAgree(sha: Digest, es: seq<Event>, fs: seq<Event>)
    requires SealedAlike(sha, es, fs)
    ensures |es| == |fs| && forall k | 0 <= k < |es| :: es[k].chained == fs[k].chained
    ensures forall eras, otherEras, k | Assigned(ByDigest(sha), es, eras) && Assigned(ByDigest(sha), fs, otherEras)
                                        && 0 <= k < |es| ::
      SameSigned(sha, Prev(es, k), eras[k], es[k], otherEras[k], fs[k])
  {
    var some :| Assigned(ByDigest(sha), es, some);
    var other :| Assigned(ByDigest(sha), fs, other);
    ReadingsAgree(sha, es, some, fs, other);
    forall k | 0 <= k < |es|
      ensures es[k].chained == fs[k].chained
    {
      RowsAgree(sha, es, some, fs, other, k);
    }
    forall eras, otherEras, k | Assigned(ByDigest(sha), es, eras) && Assigned(ByDigest(sha), fs, otherEras)
                                && 0 <= k < |es|
      ensures SameSigned(sha, Prev(es, k), eras[k], es[k], otherEras[k], fs[k])
    {
      RowsAgree(sha, es, eras, fs, otherEras, k);
    }
  }
}
