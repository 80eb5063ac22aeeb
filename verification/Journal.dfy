/** The audit ledger's verifier: one hash chain, three historical forms, and a row that seals the last. */
module Journal {
  import opened AuditLine
  import opened Words

  const BOUNDARY_ACTOR := "nmemory"
  const BOUNDARY_ACTION := "journal:rust_parity"
  const BOUNDARY_SUBJECT := "audit_events"

  const PARITY := 2

  datatype Event = Event(
    seqno: int,
    at: Instant,
    actor: string,
    action: string,
    subject: string,
    reason: Option<string>,
    chained: string,
    storedAt: Option<string>)

  /** The hexadecimal digest of a text. */
  type Digest = string -> string

  // ---- what each era signs ---------------------------------------------------

  function RustLine(e: Event): string {
    JsonLine(e.seqno, if e.storedAt.Some? then e.storedAt.value else AtCanonical(e.at),
             e.actor, e.action, e.subject, e.reason)
  }

  function PortLine(e: Event): string {
    Integer(e.seqno) + "\t" + FormatRfc3339(e.at) + "\t" + e.actor + "\t" + e.action + "\t" + e.subject + "\t"
    + if e.reason.Some? then e.reason.value else ""
  }

  function ParityLine(e: Event): string {
    JsonLine(e.seqno, AtCanonical(e.at), e.actor, e.action, e.subject, e.reason)
  }

  /** What an era hashes after `prev`; only the port put a newline between the two. */
  function Signed(era: nat, e: Event): string {
    if era == 0 then RustLine(e) else if era == 1 then "\n" + PortLine(e) else ParityLine(e)
  }

  predicate Matches(sha: Digest, era: nat, prev: string, e: Event) {
    || sha(prev + Signed(era, e)) == e.chained
    || (era == PARITY && RustLine(e) != ParityLine(e) && sha(prev + RustLine(e)) == e.chained)
  }

  predicate IsBoundary(e: Event) {
    e.actor == BOUNDARY_ACTOR && e.action == BOUNDARY_ACTION && e.subject == BOUNDARY_SUBJECT && e.reason == None
  }

  predicate WearsTheShape(e: Event) {
    || e.action == BOUNDARY_ACTION
    || (e.actor == BOUNDARY_ACTOR && e.subject == BOUNDARY_SUBJECT && e.reason == None)
  }

  predicate Impostor(e: Event) {
    WearsTheShape(e) && !IsBoundary(e)
  }

  /** Whether a row's hash is what an era makes of the hash before it. */
  type Matcher = (nat, string, Event) -> bool

  function ByDigest(sha: Digest): Matcher {
    (era: nat, prev: string, e: Event) => Matches(sha, era, prev, e)
  }

  // ---- the verifier, one row at a time ---------------------------------------

  datatype State = State(prev: string, era: nat, boundaries: nat)

  const GENESIS := State("", 0, 0)

  /** The first era from the current one forward that reproduces the row's hash. */
  function FirstMatch(fits: Matcher, era: nat, prev: string, e: Event): Option<nat> {
    if era == 0 && fits(0, prev, e) then Some(0)
    else if era < 2 && fits(1, prev, e) then Some(1)
    else if era == 2 && fits(2, prev, e) then Some(2)
    else None
  }

  function Step(fits: Matcher, st: State, idx: nat, e: Event): Option<State> {
    if e.seqno != idx + 1 || Impostor(e) then None
    else if IsBoundary(e) then
      if st.era >= 2 || !fits(PARITY, st.prev, e) then None
      else Some(State(e.chained, PARITY, st.boundaries + 1))
    else
      var era := FirstMatch(fits, st.era, st.prev, e);
      if era.None? then None else Some(State(e.chained, era.value, st.boundaries))
  }

  function Replay(fits: Matcher, events: seq<Event>): Option<State> {
    if events == [] then Some(GENESIS)
    else
      var st := Replay(fits, events[..|events| - 1]);
      if st.None? then None else Step(fits, st.value, |events| - 1, events[|events| - 1])
  }

  lemma ReplayOneMore(fits: Matcher, events: seq<Event>, k: nat)
    requires k < |events|
    ensures Replay(fits, events[..k + 1])
         == if Replay(fits, events[..k]).None? then None else Step(fits, Replay(fits, events[..k]).value, k, events[k])
  {
    assert events[..k + 1][..k] == events[..k];
  }

  // ---- what it should accept -------------------------------------------------

  ghost predicate Sealed(events: seq<Event>, k: nat)
    requires k <= |events|
  {
    exists j :: 0 <= j < k && IsBoundary(events[j])
  }

  function Prev(events: seq<Event>, k: nat): string
    requires k <= |events|
  {
    if k == 0 then "" else events[k - 1].chained
  }

  /** Row `k` stands in the era given it: parity from the one boundary on, an older form before it. */
  ghost predicate RowHolds(fits: Matcher, events: seq<Event>, eras: seq<nat>, k: nat)
    requires k < |events| == |eras|
  {
    var e := events[k];
    && e.seqno == k + 1 && !Impostor(e)
    && eras[k] <= PARITY && fits(eras[k], Prev(events, k), e)
    && (IsBoundary(e) ==> eras[k] == PARITY && !Sealed(events, k))
    && (!IsBoundary(e) ==> (eras[k] == PARITY <==> Sealed(events, k)))
  }

  ghost predicate Assigned(fits: Matcher, events: seq<Event>, eras: seq<nat>) {
    && |eras| == |events|
    && (forall k | 0 <= k < |events| :: RowHolds(fits, events, eras, k))
    && (forall j, k | 0 <= j <= k < |eras| :: eras[j] <= eras[k])
  }

  /** Some assignment of eras, never going back, explains every row. */
  ghost predicate Acceptable(fits: Matcher, events: seq<Event>) {
    exists eras :: Assigned(fits, events, eras)
  }

  lemma AssignedPrefix(fits: Matcher, events: seq<Event>, eras: seq<nat>, k: nat)
    requires Assigned(fits, events, eras) && k <= |events|
    ensures Assigned(fits, events[..k], eras[..k])
  {
    forall j | 0 <= j < k
      ensures RowHolds(fits, events[..k], eras[..k], j)
    {
      assert RowHolds(fits, events, eras, j);
      SealedPrefix(events, k, j);
    }
  }

  lemma SealedPrefix(events: seq<Event>, k: nat, j: nat)
    requires j <= k <= |events|
    ensures Sealed(events[..k], j) <==> Sealed(events, j)
    ensures Prev(events[..k], j) == Prev(events, j)
  {
    if i :| 0 <= i < j && IsBoundary(events[i]) {
      assert IsBoundary(events[..k][i]);
    }
  }

  /** Acceptance is prefix-closed. */
  lemma AcceptableIsPrefixClosed(fits: Matcher, events: seq<Event>, k: nat)
    requires Acceptable(fits, events) && k <= |events|
    ensures Acceptable(fits, events[..k])
  {
    var eras :| Assigned(fits, events, eras);
    AssignedPrefix(fits, events, eras, k);
  }

  ghost predicate Describes(events: seq<Event>, st: State) {
    && st.prev == Prev(events, |events|)
    && st.era <= PARITY
    && (st.era == PARITY <==> Sealed(events, |events|))
    && st.boundaries == if Sealed(events, |events|) then 1 else 0
  }

  lemma SealedOneMore(events: seq<Event>)
    requires events != []
    ensures var n := |events|;
            Sealed(events, n) <==> Sealed(events[..n - 1], n - 1) || IsBoundary(events[n - 1])
  {
    var n := |events|;
    SealedPrefix(events, n - 1, n - 1);
    if IsBoundary(events[n - 1]) {
      assert Sealed(events, n);
    }
    if Sealed(events, n - 1) {
      var j :| 0 <= j < n - 1 && IsBoundary(events[j]);
      assert Sealed(events, n);
    }
  }

  lemma RowsOneMore(fits: Matcher, events: seq<Event>, before: seq<nat>, era: nat)
    requires events != [] && Assigned(fits, events[..|events| - 1], before)
    requires before != [] ==> before[|before| - 1] <= era
    requires RowHolds(fits, events, before + [era], |events| - 1)
    ensures Assigned(fits, events, before + [era])
  {
    var n := |events|;
    forall k | 0 <= k < n
      ensures RowHolds(fits, events, before + [era], k)
    {
      if k < n - 1 {
        assert RowHolds(fits, events[..n - 1], before, k);
        SealedPrefix(events, n - 1, k);
      }
    }
  }

  /** A step taken holds its row in the era it lands in, and never goes back. */
  lemma StepHolds(fits: Matcher, events: seq<Event>, st: State, eras: seq<nat>)
    requires events != [] && Describes(events[..|events| - 1], st) && |eras| == |events|
    requires var next := Step(fits, st, |events| - 1, events[|events| - 1]);
             next.Some? && eras[|events| - 1] == next.value.era
    ensures var now := Step(fits, st, |events| - 1, events[|events| - 1]).value;
            st.era <= now.era && Describes(events, now) && RowHolds(fits, events, eras, |events| - 1)
  {
    SealedOneMore(events);
    SealedPrefix(events, |events| - 1, |events| - 1);
  }

  /** A row that holds in some era no earlier than the current one is stepped over, into an era no later. */
  lemma HoldsSteps(fits: Matcher, events: seq<Event>, st: State, eras: seq<nat>)
    requires events != [] && Describes(events[..|events| - 1], st) && |eras| == |events|
    requires RowHolds(fits, events, eras, |events| - 1) && st.era <= eras[|events| - 1]
    ensures var next := Step(fits, st, |events| - 1, events[|events| - 1]);
            next.Some? && next.value.era <= eras[|events| - 1] && Describes(events, next.value)
  {
    SealedOneMore(events);
    SealedPrefix(events, |events| - 1, |events| - 1);
  }

  /** What the greedy verifier accepts, an assignment ending in its own era explains. */
  lemma {:induction false} ReplayIsSound(fits: Matcher, events: seq<Event>) returns (eras: seq<nat>)
    requires Replay(fits, events).Some?
    ensures Assigned(fits, events, eras) && Describes(events, Replay(fits, events).value)
    ensures events != [] ==> eras[|eras| - 1] == Replay(fits, events).value.era
    decreases |events|
  {
    if events == [] {
      eras := [];
    } else {
      var init := events[..|events| - 1];
      var before := ReplayIsSound(fits, init);
      eras := before + [Replay(fits, events).value.era];
      StepHolds(fits, events, Replay(fits, init).value, eras);
      RowsOneMore(fits, events, before, Replay(fits, events).value.era);
    }
  }

  /** Whatever an assignment explains, the greedy verifier accepts, in an era no later than the assignment's. */
  lemma {:induction false} ReplayIsComplete(fits: Matcher, events: seq<Event>, eras: seq<nat>)
    requires Assigned(fits, events, eras)
    ensures Replay(fits, events).Some? && Describes(events, Replay(fits, events).value)
    ensures events != [] ==> Replay(fits, events).value.era <= eras[|eras| - 1]
    decreases |events|
  {
    if events != [] {
      var n := |events|;
      AssignedPrefix(fits, events, eras, n - 1);
      ReplayIsComplete(fits, events[..n - 1], eras[..n - 1]);
      assert n > 1 ==> eras[..n - 1][n - 2] <= eras[n - 1];
      assert RowHolds(fits, events, eras, n - 1);
      HoldsSteps(fits, events, Replay(fits, events[..n - 1]).value, eras);
    }
  }

  datatype ChainStatus = Intact(count: nat) | Broken(seqno: int)

  /** The loop over the eras still open: the middle one closes only at the boundary. */
  method Infer(fits: Matcher, era: nat, prev: string, e: Event) returns (matched: Option<nat>)
    requires era <= PARITY
    ensures matched == FirstMatch(fits, era, prev, e)
    ensures matched.Some? ==> matched.value <= PARITY
  {
    var limit := if era < 2 then 2 else 3;
    matched := None;
    for candidate := era to limit
      invariant forall c: nat | era <= c < candidate :: !fits(c, prev, e)
    {
      if fits(candidate, prev, e) {
        return Some(candidate);
      }
    }
  }

  /** `verify_chain`. */
  method VerifyChain(fits: Matcher, events: seq<Event>) returns (status: ChainStatus)
    ensures status.Intact? <==> Acceptable(fits, events)
    ensures status.Intact? ==> status.count == |events| - if Sealed(events, |events|) then 1 else 0
    ensures status.Broken? ==> exists k ::
              && 0 <= k < |events| && status.seqno == events[k].seqno
              && Acceptable(fits, events[..k]) && !Acceptable(fits, events[..k + 1])
  {
    var prev: string, era: nat, boundaries: nat := "", 0, 0;
    for idx := 0 to |events|
      invariant era <= PARITY && Replay(fits, events[..idx]) == Some(State(prev, era, boundaries))
    {
      var e := events[idx];
      ReplayOneMore(fits, events, idx);
      if e.seqno != idx + 1 {
        Breaks(fits, events, idx);
        return Broken(e.seqno);
      }
      if WearsTheShape(e) && !IsBoundary(e) {
        Breaks(fits, events, idx);
        return Broken(e.seqno);
      }
      if IsBoundary(e) {
        if era >= 2 || !fits(PARITY, prev, e) {
          Breaks(fits, events, idx);
          return Broken(e.seqno);
        }
        prev, era, boundaries := e.chained, PARITY, boundaries + 1;
        continue;
      }
      var matched := Infer(fits, era, prev, e);
      if matched.None? {
        Breaks(fits, events, idx);
        return Broken(e.seqno);
      }
      era, prev := matched.value, e.chained;
    }
    assert events[..|events|] == events;
    var eras := ReplayIsSound(fits, events);
    return Intact(|events| - boundaries);
  }

  /** The row that stops the replay is the one after the longest acceptable prefix. */
  lemma Breaks(fits: Matcher, events: seq<Event>, k: nat)
    requires k < |events| && Replay(fits, events[..k]).Some? && Replay(fits, events[..k + 1]).None?
    ensures Acceptable(fits, events[..k]) && !Acceptable(fits, events[..k + 1]) && !Acceptable(fits, events)
  {
    var eras := ReplayIsSound(fits, events[..k]);
    if Acceptable(fits, events[..k + 1]) {
      var others :| Assigned(fits, events[..k + 1], others);
      ReplayIsComplete(fits, events[..k + 1], others);
    }
    if Acceptable(fits, events) {
      AcceptableIsPrefixClosed(fits, events, k + 1);
    }
  }
}
