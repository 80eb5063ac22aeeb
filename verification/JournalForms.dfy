/** What the three eras of the journal hash, byte by byte, and which rows are reserved. */
module JournalForms {
  import opened AuditLine
  import opened Journal
  import opened Words

  /** The object of the two JSON eras, under a time text. */
  function JsonText(e: Event, at: string): string {
    "{\"seq\":" + Integer(e.seqno) + ",\"at\":" + Quote(at) + ",\"actor\":" + Quote(e.actor) + ",\"action\":"
    + Quote(e.action) + ",\"subject\":" + Quote(e.subject) + ",\"reason\":"
    + (if e.reason.Some? then Quote(e.reason.value) else "null") + "}"
  }

  /** The middle era's line, under a time text. */
  function TabText(e: Event, time: string): string {
    Integer(e.seqno) + "\t" + time + "\t" + e.actor + "\t" + e.action + "\t" + e.subject + "\t"
    + if e.reason.Some? then e.reason.value else ""
  }

  lemma JsonTextIs(e: Event, at: string)
    ensures JsonLine(e.seqno, at, e.actor, e.action, e.subject, e.reason) == JsonText(e, at)
  {
    JsonLineText(e.seqno, at, e.actor, e.action, e.subject, e.reason);
  }

  lemma AfterNewline(prev: string, line: string)
    ensures prev + ("\n" + line) == prev + "\n" + line
  {
  }

  /** The first era hashes the stored time, the middle one tabs after a newline, the last the shortest time or else the
      stored one. */
  lemma EraBytes(sha: Digest, prev: string, e: Event, short: string, full: string)
    requires IsShortTime(short, e.at) && IsFullTime(full, e.at)
    ensures Matches(sha, 0, prev, e) <==>
      sha(prev + JsonText(e, if e.storedAt.Some? then e.storedAt.value else short)) == e.chained
    ensures Matches(sha, 1, prev, e) <==> sha(prev + "\n" + TabText(e, full)) == e.chained
    ensures Matches(sha, 2, prev, e) <==>
      || sha(prev + JsonText(e, short)) == e.chained
      || (e.storedAt.Some? && sha(prev + JsonText(e, e.storedAt.value)) == e.chained)
  {
    AtCanonicalIs(e.at, short);
    FormatRfc3339Is(e.at, full);
    JsonTextIs(e, short);
    if e.storedAt.Some? {
      JsonTextIs(e, e.storedAt.value);
    }
    AfterNewline(prev, PortLine(e));
  }

  /** A row is the boundary by all four fields, and an impostor by the action or by the other three but not both. */
  lemma ReservedByFields(e: Event)
    ensures IsBoundary(e) <==>
      e.actor == "nmemory" && e.action == "journal:rust_parity" && e.subject == "audit_events" && e.reason.None?
    ensures Impostor(e) <==>
      ((e.action == "journal:rust_parity")
        != (e.actor == "nmemory" && e.subject == "audit_events" && e.reason.None?))
  {
  }

  lemma OneRow(fits: Matcher, e: Event)
    requires !IsBoundary(e)
    ensures Acceptable(fits, [e]) <==> e.seqno == 1 && !Impostor(e) && (fits(0, "", e) || fits(1, "", e))
  {
    assert !Sealed([e], 0);
    if Acceptable(fits, [e]) {
      var eras :| Assigned(fits, [e], eras);
      assert RowHolds(fits, [e], eras, 0);
    }
    if e.seqno == 1 && !Impostor(e) && (fits(0, "", e) || fits(1, "", e)) {
      assert Assigned(fits, [e], [if fits(0, "", e) then 0 else 1]);
    }
  }

  lemma NothingBefore(line: string)
    ensures "" + line == line && "" + "\n" + line == "\n" + line
  {
  }

  /** A ledger of one plain row is accepted exactly when the row's hash is of its JSON object or, after a newline, of
      its tabbed line. */
  lemma OneRowAccepted(sha: Digest, e: Event, short: string, full: string)
    requires IsShortTime(short, e.at) && IsFullTime(full, e.at) && e.action != "journal:rust_parity"
    ensures Acceptable(ByDigest(sha), [e]) <==>
      && e.seqno == 1
      && !(e.actor == "nmemory" && e.subject == "audit_events" && e.reason.None?)
      && (|| sha(JsonText(e, if e.storedAt.Some? then e.storedAt.value else short)) == e.chained
          || sha("\n" + TabText(e, full)) == e.chained)
  {
    ReservedByFields(e);
    EraBytes(sha, "", e, short, full);
    NothingBefore(JsonText(e, if e.storedAt.Some? then e.storedAt.value else short));
    NothingBefore(TabText(e, full));
    OneRow(ByDigest(sha), e);
  }
}
