/** References to capsules: composed from a handle's columns, parsed, and resolved against the store. */
module HandleRefs {
  import opened Decimals
  import opened Handles
  import opened Words

  datatype Ref = Ref(prefix: string, number: nat, slug: Option<string>)

  /** The canonical id of capsule `n`. */
  function Id(n: nat): string {
    "cap-" + Decimal(n)
  }

  predicate StartsWith(s: string, head: string) {
    head <= s
  }

  predicate EndsWith(s: string, tail: string) {
    |tail| <= |s| && s[|s| - |tail|..] == tail
  }

  /** `compose_handle`. */
  function ComposeHandle(id: string, prefix: string, slug: Option<string>): string {
    var k := Hyphen(id);
    var number := if k < |id| then id[k + 1..] else id;
    var base := if EndsWith(prefix, "-" + number) then prefix else prefix + "-" + number;
    if slug.Some? && slug.value != "" then base + "-" + slug.value else base
  }

  /** The first known prefix the reference starts with. */
  function PrefixOf(s: string, from: nat): (k: nat)
    requires from <= |HANDLE_PREFIXES|
    ensures from <= k <= |HANDLE_PREFIXES|
    ensures k < |HANDLE_PREFIXES| ==> StartsWith(s, HANDLE_PREFIXES[k] + "-")
    ensures forall i | from <= i < k :: !StartsWith(s, HANDLE_PREFIXES[i] + "-")
    decreases |HANDLE_PREFIXES| - from
  {
    if from == |HANDLE_PREFIXES| || StartsWith(s, HANDLE_PREFIXES[from] + "-") then from else PrefixOf(s, from + 1)
  }

  function ParseTail(prefix: string, rest: string): Option<Ref> {
    var k := Hyphen(rest);
    var number, slug := rest[..k], if k < |rest| then Some(rest[k + 1..]) else None;
    if number == "" || !AllDigits(number) || number[0] == '0' || (slug.Some? && !ValidSlug(slug.value)) then None
    else if Value(number) <= 0 then None
    else Some(Ref(prefix, Value(number), slug))
  }

  /** `ParsedCapsuleRef.parse`; None for a reference it refuses. */
  function Parse(s: string): Option<Ref> {
    var k := PrefixOf(s, 0);
    if k == |HANDLE_PREFIXES| then None
    else ParseTail(HANDLE_PREFIXES[k], s[|HANDLE_PREFIXES[k]| + 1..])
  }

  /** Prefix, number and slug, spelled out. */
  function Spell(r: Ref): string {
    r.prefix + "-" + Decimal(r.number) + if r.slug.Some? then "-" + r.slug.value else ""
  }

  predicate SlugAllowed(slug: Option<string>) {
    slug.Some? ==> ValidSlug(slug.value)
  }

  predicate WellFormed(r: Ref) {
    r.prefix in HANDLE_PREFIXES && r.number > 0 && SlugAllowed(r.slug)
  }

  lemma NoHyphenInDecimal(n: nat, rest: string)
    requires rest == "" || rest[0] == '-'
    ensures Hyphen(Decimal(n) + rest) == |Decimal(n)|
  {
    var s := Decimal(n) + rest;
    assert forall i | 0 <= i < |Decimal(n)| :: s[i] == Decimal(n)[i] && IsDigit(s[i]);
    HyphenAt(s, |Decimal(n)|);
  }

  /** The four characters a known prefix and its hyphen open with. */
  function Stem(i: nat): (char, char, char, char)
    requires i < |HANDLE_PREFIXES|
  {
    match i
    case 0 => ('f', 'a', 'i', 'l')
    case 1 => ('b', 'r', 'a', 'i')
    case 2 => ('c', 'o', 'n', 's')
    case 3 => ('c', 'a', 'p', 'a')
    case 4 => ('p', 'r', 'o', 'c')
    case 5 => ('d', 'e', 'c', 'i')
    case 6 => ('f', 'a', 'c', 't')
    case 7 => ('t', 'a', 's', 'k')
    case 8 => ('e', 'p', 'i', 'c')
    case 9 => ('p', 'l', 'a', 'n')
    case 10 => ('d', 'o', 'c', '-')
    case 11 => ('d', 'o', 'd', '-')
    case _ => ('c', 'a', 'p', '-')
  }

  lemma StemOf(i: nat, s: string)
    requires i < |HANDLE_PREFIXES| && StartsWith(s, HANDLE_PREFIXES[i] + "-")
    ensures |s| >= 4 && (s[0], s[1], s[2], s[3]) == Stem(i)
  {
    var marker := HANDLE_PREFIXES[i] + "-";
    assert |marker| >= 4 && (marker[0], marker[1], marker[2], marker[3]) == Stem(i);
    assert s[0] == marker[0] && s[1] == marker[1] && s[2] == marker[2] && s[3] == marker[3];
  }

  /** No text starts with two known prefixes and a hyphen. */
  lemma OnePrefix(i: nat, j: nat, s: string)
    requires i < |HANDLE_PREFIXES| && j < |HANDLE_PREFIXES|
    requires StartsWith(s, HANDLE_PREFIXES[i] + "-") && StartsWith(s, HANDLE_PREFIXES[j] + "-")
    ensures i == j
  {
    StemOf(i, s);
    StemOf(j, s);
  }

  function SlugTail(slug: Option<string>): string {
    if slug.Some? then "-" + slug.value else ""
  }

  lemma ParseTailSound(prefix: string, rest: string, r: Ref)
    requires ParseTail(prefix, rest) == Some(r)
    ensures r.prefix == prefix && r.number > 0 && SlugAllowed(r.slug) && rest == Decimal(r.number) + SlugTail(r.slug)
  {
    var k := Hyphen(rest);
    DecimalOfValue(rest[..k]);
    CutAt(rest, k);
  }

  lemma CutAt<T>(s: seq<T>, k: nat)
    requires k <= |s|
    ensures s == s[..k] + s[k..]
    ensures if k < |s| then s[k..] == [s[k]] + s[k + 1..] else s[k..] == []
  {
  }

  lemma CutBack<T>(head: seq<T>, mark: T, tail: seq<T>)
    ensures var s := head + ([mark] + tail); s[..|head|] == head && s[|head| + 1..] == tail && s[|head|] == mark
    ensures (head + [])[..|head|] == head
  {
  }

  lemma ParseTailComplete(prefix: string, n: nat, slug: Option<string>)
    requires n > 0 && SlugAllowed(slug)
    ensures ParseTail(prefix, Decimal(n) + SlugTail(slug)) == Some(Ref(prefix, n, slug))
  {
    NoHyphenInDecimal(n, SlugTail(slug));
    ValueOfDecimal(n);
    CutBack(Decimal(n), '-', if slug.Some? then slug.value else "");
  }

  lemma KnownPrefix(s: string, k: nat)
    requires k < |HANDLE_PREFIXES| && StartsWith(s, HANDLE_PREFIXES[k] + "-")
    ensures PrefixOf(s, 0) == k
  {
    if PrefixOf(s, 0) < |HANDLE_PREFIXES| {
      OnePrefix(PrefixOf(s, 0), k, s);
    }
  }

  /** What follows the prefix and its hyphen. */
  function Rest(r: Ref): string {
    Decimal(r.number) + SlugTail(r.slug)
  }

  lemma SpellIsMarked(r: Ref)
    ensures Spell(r) == (r.prefix + "-") + Rest(r)
  {
  }

  lemma Unmarked(marker: string, rest: string)
    ensures marker <= marker + rest && (marker + rest)[|marker|..] == rest
  {
  }

  lemma SpelledParses(r: Ref)
    requires WellFormed(r)
    ensures Parse(Spell(r)) == Some(r)
  {
    var k :| 0 <= k < |HANDLE_PREFIXES| && HANDLE_PREFIXES[k] == r.prefix;
    SpellIsMarked(r);
    Unmarked(r.prefix + "-", Rest(r));
    KnownPrefix(Spell(r), k);
    ParseTailComplete(r.prefix, r.number, r.slug);
  }

  lemma ParsedIsSpelled(s: string, r: Ref)
    requires Parse(s) == Some(r)
    ensures WellFormed(r) && s == Spell(r)
  {
    var k := PrefixOf(s, 0);
    var marker := HANDLE_PREFIXES[k] + "-";
    ParseTailSound(HANDLE_PREFIXES[k], s[|marker|..], r);
    assert s == marker + s[|marker|..];
    SpellIsMarked(r);
  }

  /** A reference parses to `r` exactly when it is `r` spelled out: nothing else is accepted, and nothing is lost. */
  lemma ParseIffSpelled(s: string, r: Ref)
    ensures Parse(s) == Some(r) <==> WellFormed(r) && s == Spell(r)
  {
    if Parse(s) == Some(r) {
      ParsedIsSpelled(s, r);
    }
    if WellFormed(r) {
      SpelledParses(r);
    }
  }

  lemma PrefixEndsInALetter(prefix: string)
    requires prefix in HANDLE_PREFIXES
    ensures prefix != "" && 'a' <= prefix[|prefix| - 1] <= 'z'
  {
    var k :| 0 <= k < |HANDLE_PREFIXES| && HANDLE_PREFIXES[k] == prefix;
  }

  lemma IdSplits(n: nat)
    ensures Hyphen(Id(n)) == 3 && Id(n)[4..] == Decimal(n)
  {
    HyphenAt(Id(n), 3);
  }

  lemma EndsAlike(s: string, tail: string)
    requires tail != ""
    ensures EndsWith(s, tail) ==> s != "" && s[|s| - 1] == tail[|tail| - 1]
  {
    if EndsWith(s, tail) {
      assert s[|s| - |tail|..][|tail| - 1] == s[|s| - 1];
    }
  }

  lemma LettersEndNoNumber(prefix: string, n: nat)
    requires prefix in HANDLE_PREFIXES
    ensures !EndsWith(prefix, "-" + Decimal(n))
  {
    PrefixEndsInALetter(prefix);
    var tail := "-" + Decimal(n);
    assert IsDigit(tail[|tail| - 1]);
    EndsAlike(prefix, tail);
  }

  /** What `compose_handle` prints for a row of the handle table is the handle spelled out. */
  lemma ComposeSpells(r: Ref)
    requires WellFormed(r)
    ensures ComposeHandle(Id(r.number), r.prefix, r.slug) == Spell(r)
  {
    IdSplits(r.number);
    LettersEndNoNumber(r.prefix, r.number);
    if r.slug.Some? {
      assert r.slug.value != "";
      Reassociate(r.prefix + "-" + Decimal(r.number), r.slug.value);
    }
  }

  lemma Reassociate(base: string, slug: string)
    ensures base + "-" + slug == base + ("-" + slug)
  {
  }

  /** The round trip: a composed handle parses to the parts it was composed from. */
  lemma ParseCompose(r: Ref)
    requires WellFormed(r)
    ensures Parse(ComposeHandle(Id(r.number), r.prefix, r.slug)) == Some(r)
  {
    ComposeSpells(r);
    SpelledParses(r);
  }

  // ---- resolution ------------------------------------------------------------

  datatype Columns = Columns(prefix: string, slug: Option<string>)

  /** The handle table, by sequence: known prefixes, and slugs `slugify` made or a forget took away. */
  ghost predicate Table(handles: map<nat, Columns>) {
    forall n | n in handles :: WellFormed(Ref(handles[n].prefix, n, handles[n].slug))
  }

  function RowOf(handles: map<nat, Columns>, n: nat): Ref
    requires n in handles
  {
    Ref(handles[n].prefix, n, handles[n].slug)
  }

  function HandleOf(handles: map<nat, Columns>, n: nat): Option<string> {
    if n in handles then Some(ComposeHandle(Id(n), handles[n].prefix, handles[n].slug)) else None
  }

  datatype Resolution =
    | Resolved(id: string, handle: string)
    | NotFound(id: string)
    | InvalidRef
    | KindMismatch(id: string, expected: string)
    | SlugMismatch(id: string, expected: string)

  /** `resolve_capsule_ref`. */
  function Resolve(handles: map<nat, Columns>, reference: string): Resolution {
    var parsed := Parse(reference);
    if parsed.None? then InvalidRef
    else
      var r := parsed.value;
      var id := Id(r.number);
      var handle := HandleOf(handles, r.number);
      if handle.None? then NotFound(id)
      else if r.prefix == "cap" && r.slug.None? then Resolved(id, handle.value)
      else
        var stored := Parse(handle.value);
        if stored.None? then InvalidRef
        else if r.prefix != stored.value.prefix then KindMismatch(id, handle.value)
        else if r.slug.Some? && r.slug != stored.value.slug then SlugMismatch(id, handle.value)
        else Resolved(id, handle.value)
  }

  /** The three spellings of a capsule: its id, its short typed reference, and its handle. */
  predicate Names(handles: map<nat, Columns>, n: nat, reference: string)
    requires n in handles
  {
    var row := RowOf(handles, n);
    || reference == Spell(Ref("cap", n, None))
    || reference == Spell(row.(slug := None))
    || reference == Spell(row)
  }

  lemma CapIsKnown(n: nat)
    requires n > 0
    ensures WellFormed(Ref("cap", n, None)) && Spell(Ref("cap", n, None)) == Id(n)
  {
    assert HANDLE_PREFIXES[12] == "cap";
  }

  lemma StoredHandleParses(handles: map<nat, Columns>, n: nat)
    requires Table(handles) && n in handles
    ensures HandleOf(handles, n) == Some(Spell(RowOf(handles, n)))
    ensures Parse(Spell(RowOf(handles, n))) == Some(RowOf(handles, n))
  {
    ComposeSpells(RowOf(handles, n));
    SpelledParses(RowOf(handles, n));
  }

  /** A reference resolves to a stored capsule exactly when it is one of that capsule's three spellings. */
  lemma ResolvesIffNamed(handles: map<nat, Columns>, n: nat, reference: string)
    requires Table(handles) && n in handles
    ensures Resolve(handles, reference) == Resolved(Id(n), Spell(RowOf(handles, n))) <==> Names(handles, n, reference)
  {
    CapIsKnown(n);
    StoredHandleParses(handles, n);
    if Names(handles, n, reference) {
      NamedResolves(handles, n, reference);
    }
    if Resolve(handles, reference) == Resolved(Id(n), Spell(RowOf(handles, n))) {
      ResolvedIsNamed(handles, n, reference);
    }
  }

  lemma NamedResolves(handles: map<nat, Columns>, n: nat, reference: string)
    requires Table(handles) && n in handles && Names(handles, n, reference)
    ensures Resolve(handles, reference) == Resolved(Id(n), Spell(RowOf(handles, n)))
  {
    CapIsKnown(n);
    StoredHandleParses(handles, n);
    SpelledParses(Ref("cap", n, None));
    SpelledParses(RowOf(handles, n).(slug := None));
  }

  lemma IdDetermines(m: nat, n: nat)
    requires Id(m) == Id(n)
    ensures m == n
  {
    IdSplits(m);
    IdSplits(n);
    ValueOfDecimal(m);
    ValueOfDecimal(n);
  }

  lemma ResolvedIsNamed(handles: map<nat, Columns>, n: nat, reference: string)
    requires Table(handles) && n in handles && Resolve(handles, reference) == Resolved(Id(n), Spell(RowOf(handles, n)))
    ensures Names(handles, n, reference)
  {
    var r := Parse(reference).value;
    ParsedIsSpelled(reference, r);
    IdDetermines(r.number, n);
    StoredHandleParses(handles, n);
    assert r == Ref(r.prefix, n, r.slug);
  }
}
