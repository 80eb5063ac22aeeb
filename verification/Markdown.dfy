/** Splitting a Markdown document into chunks that keep every line of the body. */
module Markdown {
  import opened Tables
  import opened Words

  const MAX_MARKDOWN_CHUNK_CHARS := 4096

  // ---- lines -----------------------------------------------------------------

  predicate IsSpace(c: char) {
    c == ' ' || '\t' <= c <= '\r' || 28 <= c as int <= 31
  }

  /** `not line.strip()`. */
  predicate Blank(line: string) {
    forall i | 0 <= i < |line| :: IsSpace(line[i])
  }

  function LStrip(line: string): string {
    if line != "" && IsSpace(line[0]) then LStrip(line[1..]) else line
  }

  function RStrip(line: string): string {
    if line != "" && IsSpace(line[|line| - 1]) then RStrip(line[..|line| - 1]) else line
  }

  predicate IsFenceMarker(line: string) {
    "```" <= LStrip(line) || "~~~" <= LStrip(line)
  }

  lemma {:induction false} StripOfBlank(line: string)
    requires Blank(line)
    ensures LStrip(line) == ""
  {
    if line != "" {
      StripOfBlank(line[1..]);
    }
  }

  function DropLineEnds(line: string): string {
    if line != "" && (line[|line| - 1] == '\n' || line[|line| - 1] == '\r') then DropLineEnds(line[..|line| - 1])
    else line
  }

  function LeadingHashes(s: string): (n: nat)
    ensures n <= |s|
    ensures n > 0 ==> s[0] == '#'
  {
    if s != "" && s[0] == '#' then 1 + LeadingHashes(s[1..]) else 0
  }

  function HeadingLevel(line: string): (level: Option<nat>)
    ensures level.Some? ==> 1 <= level.value <= 6
  {
    var stripped := DropLineEnds(line);
    var hashes := LeadingHashes(stripped);
    if hashes == 0 || hashes > 6 then None
    else
      var rest := stripped[hashes..];
      if rest == "" || rest[0] == ' ' || rest[0] == '\t' then Some(hashes) else None
  }

  lemma {:induction false} EndsArePrefix(line: string)
    ensures DropLineEnds(line) <= line
  {
    if line != "" && (line[|line| - 1] == '\n' || line[|line| - 1] == '\r') {
      EndsArePrefix(line[..|line| - 1]);
    }
  }

  lemma HeadingIsNotBlank(line: string)
    requires HeadingLevel(line).Some?
    ensures !Blank(line)
  {
    EndsArePrefix(line);
    assert line[0] == '#';
  }

  predicate Opens(line: string) {
    RStrip(line) == "---"
  }

  predicate Shuts(line: string) {
    RStrip(line) == "---" || RStrip(line) == "..."
  }

  /** Past the front matter, if the document opens with one that closes; else the first line. */
  ghost predicate IsBodyStart(lines: seq<string>, start: nat) {
    && start <= |lines|
    && (start > 0 ==> start >= 2 && Opens(lines[0]) && Shuts(lines[start - 1])
                      && forall i | 1 <= i < start - 1 :: !Shuts(lines[i]))
    && (start == 0 ==> lines == [] || !Opens(lines[0]) || forall i | 1 <= i < |lines| :: !Shuts(lines[i]))
  }

  /** `body_start`. */
  method BodyStart(lines: seq<string>) returns (start: nat)
    ensures IsBodyStart(lines, start)
  {
    if lines == [] || !Opens(lines[0]) {
      return 0;
    }
    for i := 1 to |lines|
      invariant forall j | 1 <= j < i :: !Shuts(lines[j])
    {
      if Shuts(lines[i]) {
        return i + 1;
      }
    }
    return 0;
  }

  // ---- fences ----------------------------------------------------------------

  /** Whether line `i` continues a fence opened above it. */
  ghost function Inside(lines: seq<string>, start: nat, i: nat): bool
    requires start <= i <= |lines|
    decreases i
  {
    i > start && Inside(lines, start, i - 1) != IsFenceMarker(lines[i - 1])
  }

  ghost predicate Fenced(lines: seq<string>, start: nat, i: nat)
    requires start <= i < |lines|
  {
    Inside(lines, start, i) || IsFenceMarker(lines[i])
  }

  /** The flag of each body line: in a fence, or one of its two markers. */
  method Annotate(lines: seq<string>, start: nat) returns (fenced: seq<bool>)
    requires start <= |lines|
    ensures |fenced| == |lines| - start
    ensures forall k | 0 <= k < |fenced| :: fenced[k] == Fenced(lines, start, start + k)
  {
    fenced := [];
    var inFence := false;
    for idx := start to |lines|
      invariant |fenced| == idx - start && inFence == Inside(lines, start, idx)
      invariant forall k | 0 <= k < |fenced| :: fenced[k] == Fenced(lines, start, start + k)
    {
      if inFence {
        fenced := fenced + [true];
        if IsFenceMarker(lines[idx]) {
          inFence := false;
        }
      } else if IsFenceMarker(lines[idx]) {
        fenced := fenced + [true];
        inFence := true;
      } else {
        fenced := fenced + [false];
      }
    }
  }

  // ---- chunks ----------------------------------------------------------------

  datatype Chunk = Chunk(line: nat, text: string)

  /** Where a chunk comes from: lines `from` up to `to`, or a slice of one line too long to keep whole. */
  datatype Piece = Whole(from: nat, to: nat) | Part(at: nat, offset: nat)

  datatype Place = Place(line: nat, offset: nat)

  /** `"\n".join(lines)`. */
  function JoinLines(lines: seq<string>): string {
    if lines == [] then ""
    else if |lines| == 1 then lines[0]
    else JoinLines(lines[..|lines| - 1]) + "\n" + lines[|lines| - 1]
  }

  /** The length of lines `from` up to `end` joined. */
  ghost function JoinedSize(lines: seq<string>, from: nat, end: nat): nat
    requires from <= end <= |lines|
    decreases end
  {
    if from == end then 0
    else if from + 1 == end then |lines[from]|
    else JoinedSize(lines, from, end - 1) + 1 + |lines[end - 1]|
  }

  lemma {:induction false} JoinedSizeIsLength(lines: seq<string>, from: nat, end: nat)
    requires from <= end <= |lines|
    ensures |JoinLines(lines[from..end])| == JoinedSize(lines, from, end)
    decreases end
  {
    if from + 1 < end {
      assert lines[from..end][..end - from - 1] == lines[from..end - 1];
      JoinedSizeIsLength(lines, from, end - 1);
    }
  }

  function PieceText(lines: seq<string>, p: Piece): string
    requires InBounds(lines, p)
  {
    match p
    case Whole(from, to) => JoinLines(lines[from..to])
    case Part(at, offset) =>
      var end := offset + MAX_MARKDOWN_CHUNK_CHARS;
      lines[at][offset..if end < |lines[at]| then end else |lines[at]|]
  }

  ghost function PieceSize(lines: seq<string>, p: Piece): nat
    requires InBounds(lines, p)
  {
    match p
    case Whole(from, to) => JoinedSize(lines, from, to)
    case Part(at, offset) =>
      if offset + MAX_MARKDOWN_CHUNK_CHARS < |lines[at]| then MAX_MARKDOWN_CHUNK_CHARS else |lines[at]| - offset
  }

  lemma PieceSizeIsLength(lines: seq<string>, p: Piece)
    requires InBounds(lines, p)
    ensures |PieceText(lines, p)| == PieceSize(lines, p)
  {
    if p.Whole? {
      JoinedSizeIsLength(lines, p.from, p.to);
    }
  }

  predicate InBounds(lines: seq<string>, p: Piece) {
    match p
    case Whole(from, to) => from < to <= |lines|
    case Part(at, offset) => at < |lines| && offset < |lines[at]|
  }

  function Begin(p: Piece): Place {
    match p
    case Whole(from, _) => Place(from, 0)
    case Part(at, offset) => Place(at, offset)
  }

  function End(lines: seq<string>, p: Piece): Place
    requires InBounds(lines, p)
  {
    match p
    case Whole(_, to) => Place(to, 0)
    case Part(at, offset) =>
      if offset + MAX_MARKDOWN_CHUNK_CHARS < |lines[at]| then Place(at, offset + MAX_MARKDOWN_CHUNK_CHARS)
      else Place(at + 1, 0)
  }

  /** A piece the size limit allows: whole lines that fit together, or a slice of one that fits nowhere. */
  ghost predicate Fits(lines: seq<string>, p: Piece) {
    && InBounds(lines, p) && PieceSize(lines, p) <= MAX_MARKDOWN_CHUNK_CHARS
    && (p.Part? ==> |lines[p.at]| > MAX_MARKDOWN_CHUNK_CHARS)
  }

  /** A boundary the size limit alone makes. */
  ghost predicate Forced(lines: seq<string>, p: Piece, q: Piece)
    requires InBounds(lines, p) && InBounds(lines, q)
  {
    && End(lines, p) == Begin(q)
    && (p.Part? || q.Part? || PieceSize(lines, p) + 1 + |lines[q.from]| > MAX_MARKDOWN_CHUNK_CHARS)
  }

  /** Pieces that hold every character from line `a` up to a place, cut only where the size limit cuts. */
  ghost predicate PacksTo(lines: seq<string>, a: nat, end: Place, pieces: seq<Piece>) {
    && (forall k | 0 <= k < |pieces| :: Fits(lines, pieces[k]))
    && (if pieces == [] then end == Place(a, 0)
        else Begin(pieces[0]) == Place(a, 0) && End(lines, pieces[|pieces| - 1]) == end)
    && (forall k | 0 < k < |pieces| :: Forced(lines, pieces[k - 1], pieces[k]))
  }

  lemma PackOneMore(lines: seq<string>, a: nat, end: Place, pieces: seq<Piece>, p: Piece)
    requires PacksTo(lines, a, end, pieces) && Fits(lines, p) && Begin(p) == end
    requires pieces != [] ==> Forced(lines, pieces[|pieces| - 1], p)
    ensures PacksTo(lines, a, End(lines, p), pieces + [p])
  {
    var more := pieces + [p];
    forall k | 0 < k < |more|
      ensures Forced(lines, more[k - 1], more[k])
    {
      if k < |pieces| {
        assert Forced(lines, pieces[k - 1], pieces[k]);
      }
    }
  }

  ghost predicate ChunksOf(lines: seq<string>, chunks: seq<Chunk>, pieces: seq<Piece>) {
    && |chunks| == |pieces|
    && forall k | 0 <= k < |pieces| :: InBounds(lines, pieces[k])
         && chunks[k] == Chunk(Begin(pieces[k]).line + 1, PieceText(lines, pieces[k]))
  }

  lemma SliceOneMore(lines: seq<string>, a: nat, at: nat, offset: nat, chunks: seq<Chunk>, pieces: seq<Piece>)
    requires at < |lines| && offset < |lines[at]| && |lines[at]| > MAX_MARKDOWN_CHUNK_CHARS
    requires ChunksOf(lines, chunks, pieces) && PacksTo(lines, a, Place(at, offset), pieces)
    ensures var p := Part(at, offset);
            && ChunksOf(lines, chunks + [Chunk(at + 1, PieceText(lines, p))], pieces + [p])
            && PacksTo(lines, a, End(lines, p), pieces + [p])
  {
    PackOneMore(lines, a, Place(at, offset), pieces, Part(at, offset));
  }

  /** The slices of one line longer than a chunk. */
  method Slice(lines: seq<string>, a: nat, at: nat, chunks: seq<Chunk>, ghost pieces: seq<Piece>)
    returns (more: seq<Chunk>, ghost found: seq<Piece>)
    requires at < |lines| && |lines[at]| > MAX_MARKDOWN_CHUNK_CHARS
    requires ChunksOf(lines, chunks, pieces) && PacksTo(lines, a, Place(at, 0), pieces)
    ensures ChunksOf(lines, more, found) && PacksTo(lines, a, Place(at + 1, 0), found)
    ensures found != [] && found[|found| - 1].Part?
  {
    var line := lines[at];
    more, found := chunks, pieces;
    var offset := 0;
    while offset < |line|
      invariant ChunksOf(lines, more, found)
      invariant PacksTo(lines, a, if offset < |line| then Place(at, offset) else Place(at + 1, 0), found)
      invariant offset > 0 ==> found != [] && found[|found| - 1].Part?
    {
      var end := if offset + MAX_MARKDOWN_CHUNK_CHARS < |line| then offset + MAX_MARKDOWN_CHUNK_CHARS else |line|;
      SliceOneMore(lines, a, at, offset, more, found);
      more := more + [Chunk(at + 1, line[offset..end])];
      found := found + [Part(at, offset)];
      offset := offset + MAX_MARKDOWN_CHUNK_CHARS;
    }
  }

  /** The pending lines `from` up to `to`, as one chunk. */
  ghost predicate Pending(lines: seq<string>, from: nat, to: nat, pending: seq<string>, size: nat, pieces: seq<Piece>)
    requires forall k | 0 <= k < |pieces| :: InBounds(lines, pieces[k])
  {
    && from <= to <= |lines| && pending == lines[from..to]
    && size == JoinedSize(lines, from, to) <= MAX_MARKDOWN_CHUNK_CHARS
    && (pieces != [] ==>
          var last := pieces[|pieces| - 1];
          last.Part? || (from < to && PieceSize(lines, last) + 1 + |lines[from]| > MAX_MARKDOWN_CHUNK_CHARS))
  }

  lemma FlushOneMore(lines: seq<string>, a: nat, from: nat, to: nat, pending: seq<string>, size: nat,
                     pieces: seq<Piece>)
    requires PacksTo(lines, a, Place(from, 0), pieces) && Pending(lines, from, to, pending, size, pieces) && from < to
    ensures PacksTo(lines, a, Place(to, 0), pieces + [Whole(from, to)])
    ensures PieceText(lines, Whole(from, to)) == JoinLines(pending)
  {
    PackOneMore(lines, a, Place(from, 0), pieces, Whole(from, to));
  }

  /** The chunks made so far, and the lines still pending, on the way through one region. */
  ghost predicate Packing(lines: seq<string>, a: nat, i: nat, chunks: seq<Chunk>, pieces: seq<Piece>,
                          from: nat, pending: seq<string>, size: nat)
  {
    && ChunksOf(lines, chunks, pieces) && PacksTo(lines, a, Place(from, 0), pieces)
    && Pending(lines, from, i, pending, size, pieces)
  }

  method Flush(lines: seq<string>, ghost a: nat, ghost to: nat, chunks: seq<Chunk>, ghost pieces: seq<Piece>,
               from: nat, pending: seq<string>, ghost size: nat)
    returns (more: seq<Chunk>, ghost found: seq<Piece>)
    requires Packing(lines, a, to, chunks, pieces, from, pending, size)
    ensures ChunksOf(lines, more, found) && PacksTo(lines, a, Place(to, 0), found)
    ensures if pending == [] then more == chunks && found == pieces
            else found == pieces + [Whole(from, to)] && from < to && size == JoinedSize(lines, from, to)
  {
    more, found := chunks, pieces;
    if pending != [] {
      FlushOneMore(lines, a, from, to, pending, size, pieces);
      more := more + [Chunk(from + 1, JoinLines(pending))];
      found := found + [Whole(from, to)];
    }
  }

  /** A line that fits in a chunk joins the pending ones, or starts the next chunk. */
  method AddLine(lines: seq<string>, ghost a: nat, i: nat, chunks: seq<Chunk>, ghost pieces: seq<Piece>,
                 from: nat, pending: seq<string>, size: nat)
    returns (more: seq<Chunk>, ghost found: seq<Piece>, start: nat, waiting: seq<string>, waitingSize: nat)
    requires i < |lines| && |lines[i]| <= MAX_MARKDOWN_CHUNK_CHARS
    requires Packing(lines, a, i, chunks, pieces, from, pending, size)
    ensures Packing(lines, a, i + 1, more, found, start, waiting, waitingSize)
  {
    more, found, start, waiting, waitingSize := chunks, pieces, from, pending, size;
    var added := |lines[i]| + if pending != [] then 1 else 0;
    if pending != [] && size + added > MAX_MARKDOWN_CHUNK_CHARS {
      more, found := Flush(lines, a, i, chunks, pieces, from, pending, size);
      waiting, waitingSize := [], 0;
      added := |lines[i]|;
    }
    if waiting == [] {
      start := i;
    }
    PendOneMore(lines, from, i, pending, size, pieces, start, waiting, waitingSize, found);
    waiting := waiting + [lines[i]];
    waitingSize := waitingSize + added;
  }

  /** The line joins the lines pending, or is the first of the next chunk's. */
  lemma PendOneMore(lines: seq<string>, from: nat, i: nat, pending: seq<string>, size: nat, pieces: seq<Piece>,
                    start: nat, waiting: seq<string>, waitingSize: nat, found: seq<Piece>)
    requires i < |lines| && |lines[i]| <= MAX_MARKDOWN_CHUNK_CHARS
    requires forall k | 0 <= k < |pieces| :: InBounds(lines, pieces[k])
    requires Pending(lines, from, i, pending, size, pieces)
    requires if pending != [] && size + |lines[i]| + 1 > MAX_MARKDOWN_CHUNK_CHARS
             then start == i && waiting == [] && waitingSize == 0 && found == pieces + [Whole(from, i)]
                  && from < i && size == JoinedSize(lines, from, i)
             else start == (if pending == [] then i else from) && waiting == pending && waitingSize == size
                  && found == pieces
    ensures forall k | 0 <= k < |found| :: InBounds(lines, found[k])
    ensures Pending(lines, start, i + 1, waiting + [lines[i]],
                    waitingSize + |lines[i]| + (if waiting != [] then 1 else 0), found)
  {
    assert lines[start..i + 1] == lines[start..i] + [lines[i]];
    assert pending == [] ==> from == i;
  }

  /** One region's lines, `a` up to `b`: as many whole lines a chunk as fit, and longer lines in slices. */
  method Pack(lines: seq<string>, a: nat, b: nat) returns (chunks: seq<Chunk>)
    requires a < b <= |lines|
    ensures exists pieces :: ChunksOf(lines, chunks, pieces) && PacksTo(lines, a, Place(b, 0), pieces)
  {
    chunks := [];
    ghost var pieces := [];
    var pending: seq<string> := [];
    var pendingStart: nat, pendingSize: nat := a, 0;
    for i := a to b
      invariant Packing(lines, a, i, chunks, pieces, pendingStart, pending, pendingSize)
    {
      if |lines[i]| > MAX_MARKDOWN_CHUNK_CHARS {
        chunks, pieces := Flush(lines, a, i, chunks, pieces, pendingStart, pending, pendingSize);
        chunks, pieces := Slice(lines, a, i, chunks, pieces);
        pendingStart, pending, pendingSize := i + 1, [], 0;
      } else {
        chunks, pieces, pendingStart, pending, pendingSize :=
          AddLine(lines, a, i, chunks, pieces, pendingStart, pending, pendingSize);
      }
    }
    chunks, pieces := Flush(lines, a, b, chunks, pieces, pendingStart, pending, pendingSize);
  }

  // ---- where the document splits ---------------------------------------------

  /** A line and its heading level. */
  datatype Heading = Heading(at: nat, level: nat)

  ghost predicate IsHeading(lines: seq<string>, start: nat, h: Heading) {
    start <= h.at < |lines| && !Fenced(lines, start, h.at) && HeadingLevel(lines[h.at]) == Some(h.level)
  }

  ghost predicate AreHeadings(lines: seq<string>, start: nat, upTo: nat, headings: seq<Heading>) {
    && (forall k | 0 <= k < |headings| :: IsHeading(lines, start, headings[k]) && headings[k].at < upTo)
    && (forall j, k | 0 <= j < k < |headings| :: headings[j].at < headings[k].at)
    && (forall h | IsHeading(lines, start, h) && h.at < upTo :: h in headings)
  }

  method Headings(lines: seq<string>, start: nat, fenced: seq<bool>) returns (headings: seq<Heading>)
    requires start <= |lines| && |fenced| == |lines| - start
    requires forall k | 0 <= k < |fenced| :: fenced[k] == Fenced(lines, start, start + k)
    ensures AreHeadings(lines, start, |lines|, headings)
  {
    headings := [];
    for i := start to |lines|
      invariant AreHeadings(lines, start, i, headings)
    {
      assert fenced[i - start] == Fenced(lines, start, i);
      if !fenced[i - start] {
        var level := HeadingLevel(lines[i]);
        if level.Some? {
          headings := headings + [Heading(i, level.value)];
        }
      }
    }
  }

  function Count(headings: seq<Heading>, level: nat): nat {
    if headings == [] then 0
    else Count(headings[..|headings| - 1], level) + if headings[|headings| - 1].level == level then 1 else 0
  }

  /** The highest level that occurs twice or more, else the highest that occurs at all. */
  ghost predicate IsSplitLevel(headings: seq<Heading>, level: Option<nat>) {
    if level.None? then forall l | 1 <= l <= 6 :: Count(headings, l) == 0
    else
      && 1 <= level.value <= 6
      && if exists l :: 1 <= l <= 6 && Count(headings, l) >= 2
         then Count(headings, level.value) >= 2 && forall l | 1 <= l < level.value :: Count(headings, l) < 2
         else Count(headings, level.value) >= 1 && forall l | 1 <= l < level.value :: Count(headings, l) == 0
  }

  method SplitLevel(headings: seq<Heading>) returns (level: Option<nat>)
    requires forall k | 0 <= k < |headings| :: 1 <= headings[k].level <= 6
    ensures IsSplitLevel(headings, level)
  {
    var counts := new nat[6](_ => 0);
    for k := 0 to |headings|
      invariant forall l | 1 <= l <= 6 :: counts[l - 1] == Count(headings[..k], l)
    {
      assert headings[..k + 1][..k] == headings[..k];
      counts[headings[k].level - 1] := counts[headings[k].level - 1] + 1;
    }
    assert headings[..|headings|] == headings;
    for i := 0 to 6
      invariant forall l | 1 <= l <= i :: Count(headings, l) < 2
    {
      if counts[i] >= 2 {
        assert Count(headings, i + 1) >= 2;
        return Some(i + 1);
      }
    }
    for i := 0 to 6
      invariant forall l | 1 <= l <= i :: Count(headings, l) == 0
    {
      if counts[i] >= 1 {
        return Some(i + 1);
      }
    }
    return None;
  }

  lemma {:induction false} CountFinds(headings: seq<Heading>, h: Heading)
    requires h in headings
    ensures Count(headings, h.level) > 0
  {
    var init := headings[..|headings| - 1];
    if h != headings[|headings| - 1] {
      assert h in init;
      CountFinds(init, h);
    }
  }

  // ---- regions ---------------------------------------------------------------

  datatype Region = Region(from: nat, to: nat)

  ghost predicate AllBlank(lines: seq<string>, from: nat, to: nat)
    requires to <= |lines|
  {
    forall i | from <= i < to :: Blank(lines[i])
  }

  /** Non-empty stretches in order, none beginning inside a fence, that leave out only blank lines. */
  ghost predicate Divides(lines: seq<string>, start: nat, upTo: nat, regions: seq<Region>)
    requires start <= upTo <= |lines|
  {
    && (forall k | 0 <= k < |regions| ::
          start <= regions[k].from < regions[k].to <= upTo && !Inside(lines, start, regions[k].from))
    && (forall k | 0 < k < |regions| ::
          regions[k - 1].to <= regions[k].from && AllBlank(lines, regions[k - 1].to, regions[k].from))
    && (if regions == [] then AllBlank(lines, start, upTo)
        else AllBlank(lines, start, regions[0].from) && AllBlank(lines, regions[|regions| - 1].to, upTo))
  }

  lemma DivideOneMore(lines: seq<string>, start: nat, upTo: nat, regions: seq<Region>, r: Region)
    requires start <= upTo <= |lines| && Divides(lines, start, upTo, regions)
    requires upTo <= r.from < r.to <= |lines| && AllBlank(lines, upTo, r.from) && !Inside(lines, start, r.from)
    ensures Divides(lines, start, r.to, regions + [r])
  {
    var more := regions + [r];
    forall k | 0 < k < |more|
      ensures more[k - 1].to <= more[k].from && AllBlank(lines, more[k - 1].to, more[k].from)
    {
      if k < |regions| {
        assert AllBlank(lines, regions[k - 1].to, regions[k].from);
      }
    }
  }

  ghost predicate AreStarts(lines: seq<string>, start: nat, starts: seq<nat>) {
    && starts != [] && starts[0] == start
    && (forall j | 0 <= j < |starts| :: start <= starts[j] < |lines| && !Inside(lines, start, starts[j]))
    && Rising(starts)
  }

  ghost predicate Ordered(headings: seq<Heading>, start: nat) {
    && (forall k | 0 <= k < |headings| :: start <= headings[k].at)
    && (forall j, k | 0 <= j < k < |headings| :: headings[j].at < headings[k].at)
  }

  ghost predicate Rising(starts: seq<nat>) {
    forall i, j | 0 <= i < j < |starts| :: starts[i] < starts[j]
  }

  lemma RisingOneMore(starts: seq<nat>, at: nat)
    requires Rising(starts) && (starts != [] ==> starts[|starts| - 1] < at)
    ensures Rising(starts + [at])
  {
  }

  /** The body's first line, then each heading of the level among the first `k`. */
  ghost predicate Started(start: nat, level: nat, headings: seq<Heading>, k: nat, starts: seq<nat>)
    requires k <= |headings|
  {
    && starts != [] && starts[0] == start && Rising(starts)
    && starts[|starts| - 1] <= (if k == 0 then start else headings[k - 1].at)
    && (forall i | 0 < i < |starts| :: Heading(starts[i], level) in headings)
    && (forall i | 0 <= i < k && headings[i].level == level :: headings[i].at in starts)
  }

  lemma StartedOneMore(start: nat, level: nat, headings: seq<Heading>, k: nat, starts: seq<nat>)
    requires Ordered(headings, start) && k < |headings| && Started(start, level, headings, k, starts)
    ensures var h := headings[k];
            Started(start, level, headings, k + 1,
                    if h.level == level && h.at != start then starts + [h.at] else starts)
  {
    var h := headings[k];
    assert k > 0 ==> headings[k - 1].at < h.at;
    if h.level == level && h.at != start {
      StartedAt(start, level, headings, k, starts);
    } else {
      assert starts[0] in starts;
      forall i | 0 <= i <= k && headings[i].level == level
        ensures headings[i].at in starts
      {
      }
    }
  }

  lemma StartedAt(start: nat, level: nat, headings: seq<Heading>, k: nat, starts: seq<nat>)
    requires k < |headings| && Started(start, level, headings, k, starts)
    requires headings[k].level == level && starts[|starts| - 1] < headings[k].at
    ensures Started(start, level, headings, k + 1, starts + [headings[k].at])
  {
    var h := headings[k];
    var more := starts + [h.at];
    RisingOneMore(starts, h.at);
    assert h in headings && h == Heading(h.at, level);
    forall i | 0 < i < |more|
      ensures Heading(more[i], level) in headings
    {
      assert i < |starts| ==> more[i] == starts[i];
    }
    forall i | 0 <= i <= k && headings[i].level == level
      ensures headings[i].at in more
    {
      assert more[|starts|] == h.at;
      assert i < k ==> headings[i].at in starts;
    }
  }

  method Starts(start: nat, headings: seq<Heading>, level: nat) returns (starts: seq<nat>)
    requires Ordered(headings, start)
    ensures Started(start, level, headings, |headings|, starts)
  {
    starts := [start];
    for k := 0 to |headings|
      invariant Started(start, level, headings, k, starts)
    {
      StartedOneMore(start, level, headings, k, starts);
      if headings[k].level == level && headings[k].at != start {
        starts := starts + [headings[k].at];
      }
    }
  }

  lemma StartsAreHeadings(lines: seq<string>, start: nat, level: nat, headings: seq<Heading>, starts: seq<nat>)
    requires start < |lines| && (forall h | h in headings :: IsHeading(lines, start, h))
    requires Started(start, level, headings, |headings|, starts)
    ensures AreStarts(lines, start, starts)
    ensures forall k | 0 < k < |starts| :: IsHeading(lines, start, Heading(starts[k], level))
  {
    forall k | 0 < k < |starts|
      ensures IsHeading(lines, start, Heading(starts[k], level))
    {
      assert Heading(starts[k], level) in headings;
    }
  }

  /** Regions that leave out nothing. */
  ghost predicate Abut(regions: seq<Region>, start: nat, end: nat) {
    && regions != [] && regions[0].from == start && regions[|regions| - 1].to == end
    && forall k | 0 < k < |regions| :: regions[k - 1].to == regions[k].from
  }

  function RegionAt(starts: seq<nat>, end: nat, j: nat): Region
    requires j < |starts|
  {
    Region(starts[j], if j + 1 < |starts| then starts[j + 1] else end)
  }

  lemma StartsSpan(start: nat, end: nat, starts: seq<nat>, regions: seq<Region>)
    requires starts != [] && starts[0] == start && Rising(starts)
    requires forall j | 0 <= j < |starts| :: starts[j] < end
    requires |regions| == |starts| && forall j | 0 <= j < |starts| :: regions[j] == RegionAt(starts, end, j)
    ensures Abut(regions, start, end)
    ensures forall k | 0 <= k < |regions| :: start <= regions[k].from < regions[k].to <= end
  {
    forall k | 0 <= k < |regions|
      ensures start <= regions[k].from < regions[k].to <= end
    {
      assert k > 0 ==> starts[0] < starts[k];
      assert k + 1 < |starts| ==> starts[k] < starts[k + 1] < end;
    }
    forall k | 0 < k < |regions|
      ensures regions[k - 1].to == regions[k].from
    {
    }
  }

  lemma SpansDivide(lines: seq<string>, start: nat, regions: seq<Region>)
    requires start <= |lines| && Abut(regions, start, |lines|)
    requires forall k | 0 <= k < |regions| :: start <= regions[k].from < regions[k].to <= |lines|
    requires forall k | 0 <= k < |regions| :: !Inside(lines, start, regions[k].from)
    ensures Divides(lines, start, |lines|, regions)
  {
  }

  lemma StartsDivide(lines: seq<string>, start: nat, starts: seq<nat>, regions: seq<Region>)
    requires start < |lines| && AreStarts(lines, start, starts) && |regions| == |starts|
    requires forall j | 0 <= j < |starts| :: regions[j] == RegionAt(starts, |lines|, j)
    ensures Divides(lines, start, |lines|, regions) && Abut(regions, start, |lines|)
  {
    StartsSpan(start, |lines|, starts, regions);
    forall k | 0 <= k < |regions|
      ensures !Inside(lines, start, regions[k].from)
    {
      assert regions[k].from == starts[k];
    }
    SpansDivide(lines, start, regions);
  }

  /** The regions of a document split at its headings: one before the first, and one from each. */
  method HeadingRegions(lines: seq<string>, start: nat, headings: seq<Heading>, level: nat)
    returns (regions: seq<Region>)
    requires start < |lines| && AreHeadings(lines, start, |lines|, headings)
    ensures Divides(lines, start, |lines|, regions) && Abut(regions, start, |lines|)
    ensures forall h | h in headings && h.level == level :: exists k :: 0 <= k < |regions| && regions[k].from == h.at
    ensures forall k | 0 < k < |regions| :: IsHeading(lines, start, Heading(regions[k].from, level))
  {
    var starts := Starts(start, headings, level);
    regions := [];
    for j := 0 to |starts|
      invariant |regions| == j && forall i | 0 <= i < j :: regions[i] == RegionAt(starts, |lines|, i)
    {
      var to := if j + 1 < |starts| then starts[j + 1] else |lines|;
      regions := regions + [Region(starts[j], to)];
    }
    StartsAreHeadings(lines, start, level, headings, starts);
    StartsDivide(lines, start, starts, regions);
    forall h | h in headings && h.level == level
      ensures exists k :: 0 <= k < |regions| && regions[k].from == h.at
    {
      var i :| 0 <= i < |headings| && headings[i] == h;
      var k :| 0 <= k < |starts| && starts[k] == headings[i].at;
      assert regions[k].from == h.at;
    }
  }

  /** No blank line but those a fence holds. */
  ghost predicate Solid(lines: seq<string>, start: nat, from: nat, to: nat)
    requires start <= from && to <= |lines|
  {
    forall i | from <= i < to :: Fenced(lines, start, i) || !Blank(lines[i])
  }

  lemma BlankIsNoMarker(line: string)
    requires Blank(line)
    ensures !IsFenceMarker(line)
  {
    StripOfBlank(line);
  }

  /** The blocks closed before line `i`, and the one still open. */
  ghost predicate Blocks(lines: seq<string>, start: nat, i: nat, block: Option<nat>, regions: seq<Region>)
    requires start <= i <= |lines|
  {
    && (block.Some? ==>
          start <= block.value < i && !Inside(lines, start, block.value) && Solid(lines, start, block.value, i))
    && (block.None? ==> !Inside(lines, start, i))
    && Divides(lines, start, if block.Some? then block.value else i, regions)
    && (forall k | 0 <= k < |regions| :: Solid(lines, start, regions[k].from, regions[k].to))
    && Gapped(regions)
    && (regions != [] ==> regions[|regions| - 1].to < if block.Some? then block.value else i)
  }

  /** Regions with a line between any two. */
  ghost predicate Gapped(regions: seq<Region>) {
    forall k | 0 < k < |regions| :: regions[k - 1].to < regions[k].from
  }

  lemma CloseBlock(lines: seq<string>, start: nat, i: nat, block: nat, regions: seq<Region>)
    requires start <= i <= |lines| && Blocks(lines, start, i, Some(block), regions)
    ensures Divides(lines, start, i, regions + [Region(block, i)]) && Gapped(regions + [Region(block, i)])
    ensures forall k | 0 <= k <= |regions| ::
              Solid(lines, start, (regions + [Region(block, i)])[k].from, (regions + [Region(block, i)])[k].to)
  {
    DivideOneMore(lines, start, block, regions, Region(block, i));
  }

  lemma PassBlank(lines: seq<string>, start: nat, i: nat, regions: seq<Region>)
    requires start <= i < |lines| && Divides(lines, start, i, regions) && Blank(lines[i])
    ensures Divides(lines, start, i + 1, regions)
  {
  }

  lemma GrowBlock(lines: seq<string>, start: nat, i: nat, block: nat, regions: seq<Region>)
    requires start <= i < |lines| && Blocks(lines, start, i, Some(block), regions)
    requires Fenced(lines, start, i) || !Blank(lines[i])
    ensures Blocks(lines, start, i + 1, Some(block), regions)
  {
  }

  lemma OpenBlock(lines: seq<string>, start: nat, i: nat, regions: seq<Region>)
    requires start <= i < |lines| && Blocks(lines, start, i, None, regions)
    requires Fenced(lines, start, i) || !Blank(lines[i])
    ensures Blocks(lines, start, i + 1, Some(i), regions)
  {
  }

  lemma EndBlock(lines: seq<string>, start: nat, i: nat, block: nat, regions: seq<Region>)
    requires start <= i < |lines| && Blocks(lines, start, i, Some(block), regions)
    requires !Fenced(lines, start, i) && Blank(lines[i])
    ensures Blocks(lines, start, i + 1, None, regions + [Region(block, i)])
  {
    CloseBlock(lines, start, i, block, regions);
    PassBlank(lines, start, i, regions + [Region(block, i)]);
  }

  lemma SkipBlank(lines: seq<string>, start: nat, i: nat, regions: seq<Region>)
    requires start <= i < |lines| && Blocks(lines, start, i, None, regions)
    requires !Fenced(lines, start, i) && Blank(lines[i])
    ensures Blocks(lines, start, i + 1, None, regions)
  {
    PassBlank(lines, start, i, regions);
  }

  /** One line of the block loop: it opens a block or joins the open one, or it is blank and closes it. */
  method NextLine(lines: seq<string>, ghost start: nat, i: nat, fenced: bool, block: Option<nat>, regions: seq<Region>)
    returns (next: Option<nat>, more: seq<Region>)
    requires start <= i < |lines| && Blocks(lines, start, i, block, regions) && fenced == Fenced(lines, start, i)
    ensures Blocks(lines, start, i + 1, next, more)
  {
    next, more := block, regions;
    if fenced || !Blank(lines[i]) {
      if block.None? {
        OpenBlock(lines, start, i, regions);
        next := Some(i);
      } else {
        GrowBlock(lines, start, i, block.value, regions);
      }
    } else if block.Some? {
      EndBlock(lines, start, i, block.value, regions);
      next, more := None, regions + [Region(block.value, i)];
    } else {
      SkipBlank(lines, start, i, regions);
    }
  }

  /** The regions of a document without headings: its blocks. */
  method BlockRegions(lines: seq<string>, start: nat, fenced: seq<bool>) returns (regions: seq<Region>)
    requires start <= |lines| && |fenced| == |lines| - start
    requires forall k | 0 <= k < |fenced| :: fenced[k] == Fenced(lines, start, start + k)
    ensures Divides(lines, start, |lines|, regions) && Gapped(regions)
    ensures forall k | 0 <= k < |regions| :: Solid(lines, start, regions[k].from, regions[k].to)
  {
    regions := [];
    var block: Option<nat> := None;
    for i := start to |lines|
      invariant Blocks(lines, start, i, block, regions)
    {
      assert fenced[i - start] == Fenced(lines, start, i);
      block, regions := NextLine(lines, start, i, fenced[i - start], block, regions);
    }
    if block.Some? {
      CloseBlock(lines, start, |lines|, block.value, regions);
      regions := regions + [Region(block.value, |lines|)];
    }
  }

  // ---- the whole document ----------------------------------------------------

  /** Two pieces of different regions: only blank lines between them, and the second begins outside any fence. */
  ghost predicate Apart(lines: seq<string>, start: nat, p: Piece, q: Piece)
    requires InBounds(lines, p) && InBounds(lines, q)
  {
    && End(lines, p).offset == 0 && Begin(q).offset == 0
    && start <= End(lines, p).line <= Begin(q).line && AllBlank(lines, End(lines, p).line, Begin(q).line)
    && !Inside(lines, start, Begin(q).line)
  }

  ghost predicate Opening(lines: seq<string>, start: nat, p: Piece)
    requires start <= |lines| && InBounds(lines, p)
  {
    && Begin(p).offset == 0 && start <= Begin(p).line && AllBlank(lines, start, Begin(p).line)
    && !Inside(lines, start, Begin(p).line)
  }

  ghost predicate Linked(lines: seq<string>, start: nat, p: Piece, q: Piece) {
    Fits(lines, p) && Fits(lines, q) && (Forced(lines, p, q) || Apart(lines, start, p, q))
  }

  /**
   * The pieces tile the body up to line `upTo`, in order: they leave out only blank lines, and only the size limit
   * cuts inside a fence. Where else they are cut is `CutsRight`.
   */
  ghost predicate Tiles(lines: seq<string>, start: nat, upTo: nat, pieces: seq<Piece>)
    requires start <= upTo <= |lines|
  {
    && (forall k | 0 <= k < |pieces| :: Fits(lines, pieces[k]))
    && (forall k | 0 < k < |pieces| :: Linked(lines, start, pieces[k - 1], pieces[k]))
    && (if pieces == [] then AllBlank(lines, start, upTo)
        else
          var end := End(lines, pieces[|pieces| - 1]);
          && Opening(lines, start, pieces[0])
          && end.offset == 0 && end.line <= upTo && AllBlank(lines, end.line, upTo))
  }

  /** The first piece of a region is apart from the last piece before it. */
  lemma Junction(lines: seq<string>, start: nat, upTo: nat, pieces: seq<Piece>, a: nat, b: nat, more: seq<Piece>)
    requires start <= upTo <= a < b <= |lines| && pieces != [] && more != []
    requires Tiles(lines, start, upTo, pieces) && AllBlank(lines, upTo, a) && !Inside(lines, start, a)
    requires PacksTo(lines, a, Place(b, 0), more) && start <= End(lines, pieces[|pieces| - 1]).line
    ensures Linked(lines, start, pieces[|pieces| - 1], more[0])
  {
    var last, first := pieces[|pieces| - 1], more[0];
    assert Fits(lines, last) && Fits(lines, first);
    assert Apart(lines, start, last, first);
  }

  lemma TileOneMore(lines: seq<string>, start: nat, upTo: nat, pieces: seq<Piece>, a: nat, b: nat, more: seq<Piece>)
    requires start <= upTo <= a < b <= |lines|
    requires Tiles(lines, start, upTo, pieces) && AllBlank(lines, upTo, a) && !Inside(lines, start, a)
    requires more != [] && PacksTo(lines, a, Place(b, 0), more)
    requires pieces != [] ==> start <= End(lines, pieces[|pieces| - 1]).line
    ensures Tiles(lines, start, b, pieces + more)
  {
    var all, n := pieces + more, |pieces|;
    forall k | 0 < k < |all|
      ensures Linked(lines, start, all[k - 1], all[k])
    {
      if k < n {
        assert Linked(lines, start, pieces[k - 1], pieces[k]);
      } else if k > n {
        assert Forced(lines, more[k - n - 1], more[k - n]);
      } else {
        Junction(lines, start, upTo, pieces, a, b, more);
      }
    }
    assert all[|all| - 1] == more[|more| - 1];
    assert all[0] == if n > 0 then pieces[0] else more[0];
  }

  lemma TilePast(lines: seq<string>, start: nat, upTo: nat, pieces: seq<Piece>, to: nat)
    requires start <= upTo <= to <= |lines| && Tiles(lines, start, upTo, pieces) && AllBlank(lines, upTo, to)
    ensures Tiles(lines, start, to, pieces)
  {
  }

  /** From a line outside every fence, blank lines lead to one outside every fence. */
  lemma {:induction false} BlankStaysOutside(lines: seq<string>, start: nat, from: nat, end: nat)
    requires start <= from <= end <= |lines| && !Inside(lines, start, from) && AllBlank(lines, from, end)
    ensures !Inside(lines, start, end)
    decreases end
  {
    if from < end {
      BlankStaysOutside(lines, start, from, end - 1);
      BlankIsNoMarker(lines[end - 1]);
    }
  }

  /** `kept` is the region without its blank ends. */
  ghost predicate TrimmedTo(lines: seq<string>, r: Region, kept: Region)
    requires r.to <= |lines|
  {
    && r.from <= kept.from < kept.to <= r.to
    && AllBlank(lines, r.from, kept.from) && AllBlank(lines, kept.to, r.to)
    && !Blank(lines[kept.from]) && !Blank(lines[kept.to - 1])
  }

  /** The pieces of one region: none of a blank one, else its lines packed from the first to the last not blank. */
  ghost predicate RegionPacked(lines: seq<string>, r: Region, found: seq<Piece>)
    requires r.to <= |lines|
  {
    if AllBlank(lines, r.from, r.to) then found == []
    else exists kept :: TrimmedTo(lines, r, kept) && PacksTo(lines, kept.from, Place(kept.to, 0), found)
  }

  /** The first and last lines of a region that are not blank. */
  method Trim(lines: seq<string>, r: Region) returns (kept: Option<Region>)
    requires r.from < r.to <= |lines|
    ensures kept.None? ==> AllBlank(lines, r.from, r.to)
    ensures kept.Some? ==> TrimmedTo(lines, r, kept.value)
  {
    kept := None;
    for k := r.from to r.to
      invariant kept.None? ==> AllBlank(lines, r.from, k)
      invariant kept.Some? ==>
                  && r.from <= kept.value.from < kept.value.to <= k
                  && AllBlank(lines, r.from, kept.value.from) && AllBlank(lines, kept.value.to, k)
                  && !Blank(lines[kept.value.from]) && !Blank(lines[kept.value.to - 1])
    {
      if !Blank(lines[k]) {
        kept := Some(Region(if kept.None? then k else kept.value.from, k + 1));
      }
    }
  }

  ghost predicate StartsAt(pieces: seq<Piece>, line: nat) {
    exists k :: 0 <= k < |pieces| && Begin(pieces[k]) == Place(line, 0)
  }

  lemma PackInit(lines: seq<string>, a: nat, end: Place, pieces: seq<Piece>)
    requires PacksTo(lines, a, end, pieces) && pieces != []
    ensures PacksTo(lines, a, Begin(pieces[|pieces| - 1]), pieces[..|pieces| - 1])
  {
    var init := pieces[..|pieces| - 1];
    if init != [] {
      assert Forced(lines, pieces[|init| - 1], pieces[|init|]);
    }
    forall k | 0 < k < |init|
      ensures Forced(lines, init[k - 1], init[k])
    {
      assert Forced(lines, pieces[k - 1], pieces[k]);
    }
  }

  lemma {:induction false} PacksForward(lines: seq<string>, a: nat, end: Place, pieces: seq<Piece>)
    requires PacksTo(lines, a, end, pieces)
    ensures a <= end.line
    ensures forall k | 0 <= k < |pieces| :: a <= Begin(pieces[k]).line && End(lines, pieces[k]).line <= end.line
    decreases |pieces|
  {
    if pieces != [] {
      var init, last := pieces[..|pieces| - 1], pieces[|pieces| - 1];
      PackInit(lines, a, end, pieces);
      PacksForward(lines, a, Begin(last), init);
      forall k | 0 <= k < |pieces|
        ensures a <= Begin(pieces[k]).line && End(lines, pieces[k]).line <= end.line
      {
        if k < |init| {
          assert init[k] == pieces[k];
        }
      }
    }
  }

  /** What the regions done so far have become. */
  ghost predicate Split(lines: seq<string>, start: nat, upTo: nat, chunks: seq<Chunk>, pieces: seq<Piece>)
    requires start <= upTo <= |lines|
  {
    && ChunksOf(lines, chunks, pieces) && Tiles(lines, start, upTo, pieces)
    && (pieces != [] ==> start <= End(lines, pieces[|pieces| - 1]).line)
  }

  /** Pieces that stay within a region; its first line, if not blank, starts one. */
  ghost predicate Within(lines: seq<string>, r: Region, pieces: seq<Piece>)
    requires r.from < r.to <= |lines|
  {
    && (forall k | 0 <= k < |pieces| ::
          InBounds(lines, pieces[k]) && r.from <= Begin(pieces[k]).line && End(lines, pieces[k]).line <= r.to)
    && (!Blank(lines[r.from]) ==> StartsAt(pieces, r.from))
  }

  /** One region: blank ends trimmed, the rest packed. */
  method SplitRegion(lines: seq<string>, ghost start: nat, ghost upTo: nat, r: Region, chunks: seq<Chunk>,
                     ghost pieces: seq<Piece>)
    returns (more: seq<Chunk>, ghost found: seq<Piece>)
    requires start <= upTo <= r.from < r.to <= |lines|
    requires Split(lines, start, upTo, chunks, pieces) && AllBlank(lines, upTo, r.from) && !Inside(lines, start, r.from)
    ensures Split(lines, start, r.to, more, pieces + found) && Within(lines, r, found) && RegionPacked(lines, r, found)
  {
    var kept := Trim(lines, r);
    if kept.None? {
      TilePast(lines, start, upTo, pieces, r.from);
      TilePast(lines, start, r.from, pieces, r.to);
      assert pieces + [] == pieces;
      return chunks, [];
    }
    var packed := Pack(lines, kept.value.from, kept.value.to);
    found :| ChunksOf(lines, packed, found) && PacksTo(lines, kept.value.from, Place(kept.value.to, 0), found);
    PackedTiles(lines, start, upTo, r, kept.value.from, kept.value.to, pieces, found);
    PackedWithin(lines, r, kept.value.from, kept.value.to, found);
    ChunksAppend(lines, chunks, pieces, packed, found);
    more := chunks + packed;
  }

  lemma ChunksAppend(lines: seq<string>, chunks: seq<Chunk>, pieces: seq<Piece>, more: seq<Chunk>, found: seq<Piece>)
    requires ChunksOf(lines, chunks, pieces) && ChunksOf(lines, more, found)
    ensures ChunksOf(lines, chunks + more, pieces + found)
  {
  }

  lemma PackedTiles(lines: seq<string>, start: nat, upTo: nat, r: Region, a: nat, b: nat, pieces: seq<Piece>,
                    found: seq<Piece>)
    requires start <= upTo <= r.from <= a < b <= r.to <= |lines|
    requires Tiles(lines, start, upTo, pieces) && (pieces != [] ==> start <= End(lines, pieces[|pieces| - 1]).line)
    requires AllBlank(lines, upTo, r.from) && AllBlank(lines, r.from, a) && AllBlank(lines, b, r.to)
    requires !Inside(lines, start, r.from) && PacksTo(lines, a, Place(b, 0), found)
    ensures found != [] && Tiles(lines, start, r.to, pieces + found)
    ensures start <= End(lines, (pieces + found)[|pieces + found| - 1]).line
  {
    BlankStaysOutside(lines, start, r.from, a);
    TilePast(lines, start, upTo, pieces, r.from);
    TilePast(lines, start, r.from, pieces, a);
    assert found != [];
    TileOneMore(lines, start, a, pieces, a, b, found);
    TilePast(lines, start, b, pieces + found, r.to);
    assert (pieces + found)[|pieces + found| - 1] == found[|found| - 1];
  }

  lemma PackedWithin(lines: seq<string>, r: Region, a: nat, b: nat, found: seq<Piece>)
    requires r.from <= a < b <= r.to <= |lines| && AllBlank(lines, r.from, a) && PacksTo(lines, a, Place(b, 0), found)
    ensures Within(lines, r, found)
  {
    PacksForward(lines, a, Place(b, 0), found);
    if !Blank(lines[r.from]) {
      assert r.from == a && Begin(found[0]) == Place(a, 0);
    }
  }

  ghost predicate RegionKept(lines: seq<string>, r: Region, pieces: seq<Piece>)
    requires r.from < |lines|
  {
    !Blank(lines[r.from]) ==> StartsAt(pieces, r.from)
  }

  /** A region ends after `p`, and the next with anything to say begins before `q`. */
  ghost predicate Crosses(lines: seq<string>, before: Region, r: Region, p: Piece, q: Piece)
    requires InBounds(lines, p) && InBounds(lines, q)
  {
    && Parted(lines, p, q) && End(lines, p).line <= before.to
    && r.from <= Begin(q).line && AllBlank(lines, r.from, Begin(q).line)
  }

  /** A cut the size limit does not make: whole lines on both sides, and no blank line next to it. */
  ghost predicate Parted(lines: seq<string>, p: Piece, q: Piece)
    requires InBounds(lines, p) && InBounds(lines, q)
  {
    && End(lines, p).offset == 0 && Begin(q).offset == 0
    && 0 < End(lines, p).line <= Begin(q).line < |lines|
    && !Blank(lines[End(lines, p).line - 1]) && !Blank(lines[Begin(q).line])
  }

  ghost predicate CutIn(lines: seq<string>, regions: seq<Region>, p: Piece, q: Piece) {
    && InBounds(lines, p) && InBounds(lines, q)
    && (Forced(lines, p, q) || exists j :: 0 < j < |regions| && Crosses(lines, regions[j - 1], regions[j], p, q))
  }

  ghost predicate Cuts(lines: seq<string>, regions: seq<Region>, pieces: seq<Piece>) {
    forall k | 0 < k < |pieces| :: CutIn(lines, regions, pieces[k - 1], pieces[k])
  }

  /** The pieces begin and end with a line that says something. */
  ghost predicate CleanEnds(lines: seq<string>, pieces: seq<Piece>) {
    pieces != [] ==>
      var first, last := pieces[0], pieces[|pieces| - 1];
      && InBounds(lines, first) && InBounds(lines, last)
      && Begin(first).offset == 0 && !Blank(lines[Begin(first).line])
      && End(lines, last).offset == 0 && End(lines, last).line > 0 && !Blank(lines[End(lines, last).line - 1])
  }

  lemma PackedEnds(lines: seq<string>, r: Region, kept: Region, found: seq<Piece>)
    requires r.to <= |lines| && TrimmedTo(lines, r, kept) && PacksTo(lines, kept.from, Place(kept.to, 0), found)
    ensures found != [] && CleanEnds(lines, found)
    ensures Begin(found[0]) == Place(kept.from, 0) && End(lines, found[|found| - 1]) == Place(kept.to, 0)
  {
    assert Fits(lines, found[0]) && Fits(lines, found[|found| - 1]);
  }

  /** Region `j` joins the regions before it: the pieces are cut between them, and inside where the limit cuts. */
  lemma CutsOneMore(lines: seq<string>, regions: seq<Region>, j: nat, pieces: seq<Piece>, found: seq<Piece>)
    requires j < |regions| && regions[j].from < regions[j].to <= |lines| && RegionPacked(lines, regions[j], found)
    requires Cuts(lines, regions, pieces) && CleanEnds(lines, pieces)
    requires pieces != [] ==> j > 0 && regions[j - 1].to <= regions[j].from
                              && End(lines, pieces[|pieces| - 1]).line <= regions[j - 1].to
    ensures Cuts(lines, regions, pieces + found) && CleanEnds(lines, pieces + found)
    ensures pieces + found != [] ==> End(lines, (pieces + found)[|pieces + found| - 1]).line <= regions[j].to
  {
    if AllBlank(lines, regions[j].from, regions[j].to) {
      assert pieces + found == pieces;
    } else {
      var kept :| TrimmedTo(lines, regions[j], kept) && PacksTo(lines, kept.from, Place(kept.to, 0), found);
      PackedEnds(lines, regions[j], kept, found);
      JoinCuts(lines, regions, j, kept, pieces, found);
    }
  }

  lemma JoinCuts(lines: seq<string>, regions: seq<Region>, j: nat, kept: Region, pieces: seq<Piece>, found: seq<Piece>)
    requires j < |regions| && regions[j].to <= |lines| && TrimmedTo(lines, regions[j], kept)
    requires PacksTo(lines, kept.from, Place(kept.to, 0), found) && found != [] && CleanEnds(lines, found)
    requires Begin(found[0]) == Place(kept.from, 0)
    requires Cuts(lines, regions, pieces) && CleanEnds(lines, pieces)
    requires pieces != [] ==> j > 0 && regions[j - 1].to <= regions[j].from
                              && End(lines, pieces[|pieces| - 1]).line <= regions[j - 1].to
    ensures Cuts(lines, regions, pieces + found)
  {
    var all, n := pieces + found, |pieces|;
    forall k | 0 < k < |all|
      ensures CutIn(lines, regions, all[k - 1], all[k])
    {
      if k < n {
        assert CutIn(lines, regions, pieces[k - 1], pieces[k]);
      } else if k > n {
        assert Fits(lines, found[k - n - 1]) && Fits(lines, found[k - n]);
        assert Forced(lines, found[k - n - 1], found[k - n]);
      } else {
        assert Crosses(lines, regions[j - 1], regions[j], pieces[n - 1], found[0]);
      }
    }
  }

  method SplitRegions(lines: seq<string>, start: nat, regions: seq<Region>)
    returns (chunks: seq<Chunk>, ghost pieces: seq<Piece>)
    requires start <= |lines| && Divides(lines, start, |lines|, regions)
    ensures ChunksOf(lines, chunks, pieces) && Tiles(lines, start, |lines|, pieces)
    ensures forall k | 0 <= k < |regions| :: RegionKept(lines, regions[k], pieces)
    ensures forall p | p in pieces :: exists k :: 0 <= k < |regions| && InRegion(lines, regions[k], p)
    ensures Cuts(lines, regions, pieces) && CleanEnds(lines, pieces)
  {
    chunks, pieces := [], [];
    ghost var upTo := start;
    for j := 0 to |regions|
      invariant upTo == if j == 0 then start else regions[j - 1].to
      invariant j == 0 ==> pieces == [] && chunks == []
      invariant j > 0 ==> Split(lines, start, upTo, chunks, pieces)
      invariant forall k | 0 <= k < j :: RegionKept(lines, regions[k], pieces)
      invariant Cuts(lines, regions, pieces) && CleanEnds(lines, pieces)
      invariant pieces != [] ==> End(lines, pieces[|pieces| - 1]).line <= upTo
      invariant forall p | p in pieces :: exists k :: 0 <= k < |regions| && InRegion(lines, regions[k], p)
    {
      if j == 0 {
        assert Split(lines, start, start, chunks, pieces);
      }
      ghost var found;
      chunks, found := SplitRegion(lines, start, upTo, regions[j], chunks, pieces);
      KeepsStarts(lines, regions, j, pieces, found);
      CutsOneMore(lines, regions, j, pieces, found);
      pieces := pieces + found;
      upTo := regions[j].to;
    }
    if regions != [] {
      TilePast(lines, start, upTo, pieces, |lines|);
    }
  }

  ghost predicate InRegion(lines: seq<string>, r: Region, p: Piece) {
    InBounds(lines, p) && r.from <= Begin(p).line && End(lines, p).line <= r.to
  }

  lemma KeepsStarts(lines: seq<string>, regions: seq<Region>, j: nat, pieces: seq<Piece>, found: seq<Piece>)
    requires j < |regions| && (forall k | 0 <= k <= j :: regions[k].from < regions[k].to <= |lines|)
    requires (forall k | 0 <= k < j :: RegionKept(lines, regions[k], pieces)) && Within(lines, regions[j], found)
    requires forall p | p in pieces :: exists k :: 0 <= k < |regions| && InRegion(lines, regions[k], p)
    ensures forall k | 0 <= k <= j :: RegionKept(lines, regions[k], pieces + found)
    ensures forall p | p in pieces + found :: exists k :: 0 <= k < |regions| && InRegion(lines, regions[k], p)
  {
    forall k | 0 <= k <= j
      ensures RegionKept(lines, regions[k], pieces + found)
    {
      if k < j && StartsAt(pieces, regions[k].from) {
        var i :| 0 <= i < |pieces| && Begin(pieces[i]) == Place(regions[k].from, 0);
        assert (pieces + found)[i] == pieces[i];
      } else if k == j && StartsAt(found, regions[k].from) {
        var i :| 0 <= i < |found| && Begin(found[i]) == Place(regions[k].from, 0);
        assert (pieces + found)[|pieces| + i] == found[i];
      }
    }
    forall p | p in found
      ensures InRegion(lines, regions[j], p)
    {
    }
  }

  /** Lines only the size limit or a region's end may part from those before them. */
  ghost predicate SplitAt(lines: seq<string>, start: nat, level: Option<nat>, pieces: seq<Piece>) {
    if level.Some? then
      forall h | IsHeading(lines, start, h) && h.level == level.value :: StartsAt(pieces, h.at)
    else
      forall p | p in pieces ::
          InBounds(lines, p) && start <= Begin(p).line && Solid(lines, start, Begin(p).line, End(lines, p).line)
  }

  /**
   * Where the pieces are cut: by the size limit; else between lines that say something, before a heading of the split
   * level or, without headings, over a gap of blank lines.
   */
  ghost predicate CutsRight(lines: seq<string>, start: nat, level: Option<nat>, pieces: seq<Piece>)
    requires start <= |lines|
  {
    forall k | 0 < k < |pieces| :: CutRight(lines, start, level, pieces[k - 1], pieces[k])
  }

  ghost predicate CutRight(lines: seq<string>, start: nat, level: Option<nat>, p: Piece, q: Piece)
    requires start <= |lines|
  {
    && InBounds(lines, p) && InBounds(lines, q)
    && (Forced(lines, p, q)
        || (Parted(lines, p, q)
            && if level.Some? then IsHeading(lines, start, Heading(Begin(q).line, level.value))
               else End(lines, p).line < Begin(q).line))
  }

  lemma HeadingCuts(lines: seq<string>, start: nat, level: nat, regions: seq<Region>, pieces: seq<Piece>)
    requires start <= |lines| && Cuts(lines, regions, pieces)
    requires forall k | 0 < k < |regions| :: IsHeading(lines, start, Heading(regions[k].from, level))
    ensures CutsRight(lines, start, Some(level), pieces)
  {
    forall k | 0 < k < |pieces|
      ensures CutRight(lines, start, Some(level), pieces[k - 1], pieces[k])
    {
      var p, q := pieces[k - 1], pieces[k];
      assert CutIn(lines, regions, p, q);
      if !Forced(lines, p, q) {
        var j :| 0 < j < |regions| && Crosses(lines, regions[j - 1], regions[j], p, q);
        HeadingIsNotBlank(lines[regions[j].from]);
        assert Begin(q).line == regions[j].from;
      }
    }
  }

  lemma BlockCuts(lines: seq<string>, start: nat, regions: seq<Region>, pieces: seq<Piece>)
    requires start <= |lines| && Cuts(lines, regions, pieces) && Gapped(regions)
    ensures CutsRight(lines, start, None, pieces)
  {
    forall k | 0 < k < |pieces|
      ensures CutRight(lines, start, None, pieces[k - 1], pieces[k])
    {
      var p, q := pieces[k - 1], pieces[k];
      assert CutIn(lines, regions, p, q);
      if !Forced(lines, p, q) {
        var j :| 0 < j < |regions| && Crosses(lines, regions[j - 1], regions[j], p, q);
      }
    }
  }

  /**
   * `split_markdown`, on a document's lines. The pieces behind the chunks tile the body, each within the limit;
   * every heading of the split level starts one, without headings none holds a blank line outside a fence, and they
   * are cut nowhere else but where the limit cuts.
   */
  method SplitMarkdown(lines: seq<string>)
    returns (chunks: seq<Chunk>, start: nat, ghost headings: seq<Heading>, level: Option<nat>, ghost pieces: seq<Piece>)
    ensures IsBodyStart(lines, start)
    ensures AreHeadings(lines, start, |lines|, headings) && IsSplitLevel(headings, level)
    ensures ChunksOf(lines, chunks, pieces) && Tiles(lines, start, |lines|, pieces)
    ensures SplitAt(lines, start, level, pieces)
    ensures CutsRight(lines, start, level, pieces) && CleanEnds(lines, pieces)
    ensures forall c | c in chunks :: |c.text| <= MAX_MARKDOWN_CHUNK_CHARS
  {
    start := BodyStart(lines);
    var fenced := Annotate(lines, start);
    var found := Headings(lines, start, fenced);
    headings := found;
    assert forall k | 0 <= k < |found| :: IsHeading(lines, start, found[k]);
    level := SplitLevel(found);
    var regions;
    if level.Some? {
      LevelHasLine(lines, start, found, level.value);
      regions := HeadingRegions(lines, start, found, level.value);
    } else {
      regions := BlockRegions(lines, start, fenced);
    }
    chunks, pieces := SplitRegions(lines, start, regions);
    ChunksFit(lines, start, chunks, pieces);
    if level.Some? {
      HeadingCuts(lines, start, level.value, regions, pieces);
      HeadingsStart(lines, start, found, level.value, regions, pieces);
    } else {
      BlockCuts(lines, start, regions, pieces);
      BlocksAreSolid(lines, start, regions, pieces);
    }
  }

  lemma HeadingsStart(lines: seq<string>, start: nat, headings: seq<Heading>, level: nat, regions: seq<Region>,
                      pieces: seq<Piece>)
    requires start <= |lines| && AreHeadings(lines, start, |lines|, headings)
    requires forall h | h in headings && h.level == level :: exists k :: 0 <= k < |regions| && regions[k].from == h.at
    requires forall k | 0 <= k < |regions| :: regions[k].from < |lines| && RegionKept(lines, regions[k], pieces)
    ensures SplitAt(lines, start, Some(level), pieces)
  {
    forall h | IsHeading(lines, start, h) && h.level == level
      ensures StartsAt(pieces, h.at)
    {
      var k :| 0 <= k < |regions| && regions[k].from == h.at;
      HeadingIsNotBlank(lines[h.at]);
      assert RegionKept(lines, regions[k], pieces);
    }
  }

  lemma BlocksAreSolid(lines: seq<string>, start: nat, regions: seq<Region>, pieces: seq<Piece>)
    requires start <= |lines| && Divides(lines, start, |lines|, regions)
    requires forall k | 0 <= k < |regions| :: Solid(lines, start, regions[k].from, regions[k].to)
    requires forall p | p in pieces :: exists k :: 0 <= k < |regions| && InRegion(lines, regions[k], p)
    ensures SplitAt(lines, start, None, pieces)
  {
    forall p | p in pieces
      ensures InBounds(lines, p) && start <= Begin(p).line && Solid(lines, start, Begin(p).line, End(lines, p).line)
    {
      var k :| 0 <= k < |regions| && InRegion(lines, regions[k], p);
      assert Solid(lines, start, regions[k].from, regions[k].to);
    }
  }

  lemma ChunksFit(lines: seq<string>, start: nat, chunks: seq<Chunk>, pieces: seq<Piece>)
    requires start <= |lines| && ChunksOf(lines, chunks, pieces) && Tiles(lines, start, |lines|, pieces)
    ensures forall c | c in chunks :: |c.text| <= MAX_MARKDOWN_CHUNK_CHARS
  {
    forall c | c in chunks
      ensures |c.text| <= MAX_MARKDOWN_CHUNK_CHARS
    {
      var k :| 0 <= k < |chunks| && chunks[k] == c;
      PieceSizeIsLength(lines, pieces[k]);
    }
  }

  lemma LevelHasLine(lines: seq<string>, start: nat, headings: seq<Heading>, level: nat)
    requires AreHeadings(lines, start, |lines|, headings) && IsSplitLevel(headings, Some(level))
    ensures start < |lines|
  {
    assert headings != [];
    assert IsHeading(lines, start, headings[0]);
  }

  // ---- what the tiling means for a reader ------------------------------------

  predicate Holds(lines: seq<string>, p: Piece, i: nat)
    requires InBounds(lines, p)
  {
    match p
    case Whole(from, to) => from <= i < to
    case Part(at, _) => i == at
  }

  /** Of the pieces from `k` on, the last to begin at or above line `i` holds it. */
  lemma {:induction false} HolderFrom(lines: seq<string>, start: nat, pieces: seq<Piece>, k: nat, i: nat)
    returns (holder: nat)
    requires start <= |lines| && Tiles(lines, start, |lines|, pieces) && k < |pieces|
    requires start <= i < |lines| && !Blank(lines[i]) && Begin(pieces[k]).line <= i
    ensures holder < |pieces| && Holds(lines, pieces[holder], i)
    decreases |pieces| - k
  {
    if k + 1 < |pieces| && Begin(pieces[k + 1]).line <= i {
      holder := HolderFrom(lines, start, pieces, k + 1, i);
    } else {
      if k + 1 < |pieces| {
        LinkedAt(lines, start, pieces, k + 1);
        HeldBefore(lines, start, pieces[k], pieces[k + 1], i);
      }
      holder := k;
    }
  }

  /** A line that says something, above the next piece, is still in this one. */
  lemma HeldBefore(lines: seq<string>, start: nat, p: Piece, q: Piece, i: nat)
    requires Linked(lines, start, p, q) && i < |lines| && !Blank(lines[i])
    requires Begin(p).line <= i < Begin(q).line
    ensures Holds(lines, p, i)
  {
  }

  /** No line that says something is lost. */
  lemma EveryLineIsHeld(lines: seq<string>, start: nat, pieces: seq<Piece>, i: nat)
    requires start <= i < |lines| && Tiles(lines, start, |lines|, pieces) && !Blank(lines[i])
    ensures exists k :: 0 <= k < |pieces| && Holds(lines, pieces[k], i)
  {
    var k := HolderFrom(lines, start, pieces, 0, i);
  }

  predicate NotAfter(a: Place, b: Place) {
    a.line < b.line || (a.line == b.line && a.offset <= b.offset)
  }

  lemma {:induction false} PiecesInOrder(lines: seq<string>, start: nat, pieces: seq<Piece>, j: nat, k: nat)
    requires start <= |lines| && Tiles(lines, start, |lines|, pieces) && j < k < |pieces|
    ensures NotAfter(End(lines, pieces[j]), Begin(pieces[k]))
    decreases k
  {
    assert Linked(lines, start, pieces[k - 1], pieces[k]);
    if j < k - 1 {
      PiecesInOrder(lines, start, pieces, j, k - 1);
    }
  }

  /** No line is said twice: two pieces with a line in common are slices of it, the later one further on. */
  lemma NoLineTwice(lines: seq<string>, start: nat, pieces: seq<Piece>, j: nat, k: nat, i: nat)
    requires start <= |lines| && Tiles(lines, start, |lines|, pieces) && j < k < |pieces|
    requires Holds(lines, pieces[j], i) && Holds(lines, pieces[k], i)
    ensures pieces[j].Part? && pieces[k].Part? && pieces[j].offset + MAX_MARKDOWN_CHUNK_CHARS <= pieces[k].offset
  {
    PiecesInOrder(lines, start, pieces, j, k);
  }

  /** The texts of the pieces from `from` up to `end`, one after another. */
  ghost function Concat(lines: seq<string>, pieces: seq<Piece>, from: nat, end: nat): string
    requires from <= end <= |pieces| && forall k | 0 <= k < |pieces| :: InBounds(lines, pieces[k])
    decreases end - from
  {
    if from == end then "" else PieceText(lines, pieces[from]) + Concat(lines, pieces, from + 1, end)
  }

  lemma CutAt(line: string, offset: nat, next: nat)
    requires offset <= next <= |line|
    ensures line[offset..] == line[offset..next] + line[next..]
  {
  }

  /** After a slice that does not end its line comes the next slice. */
  lemma NextSlice(lines: seq<string>, start: nat, pieces: seq<Piece>, k: nat)
    requires start <= |lines| && Tiles(lines, start, |lines|, pieces) && k < |pieces| && pieces[k].Part?
    requires pieces[k].offset + MAX_MARKDOWN_CHUNK_CHARS < |lines[pieces[k].at]|
    ensures k + 1 < |pieces| && pieces[k + 1] == Part(pieces[k].at, pieces[k].offset + MAX_MARKDOWN_CHUNK_CHARS)
  {
    assert End(lines, pieces[k]).offset > 0;
    assert k + 1 < |pieces|;
    LinkedAt(lines, start, pieces, k + 1);
  }

  lemma LinkedAt(lines: seq<string>, start: nat, pieces: seq<Piece>, k: nat)
    requires start <= |lines| && Tiles(lines, start, |lines|, pieces) && 0 < k < |pieces|
    ensures Linked(lines, start, pieces[k - 1], pieces[k])
  {
  }

  /** The slices of a line too long for one chunk stand together, and joined they are the line. */
  lemma {:induction false} SlicesRejoin(lines: seq<string>, start: nat, pieces: seq<Piece>, k: nat) returns (end: nat)
    requires start <= |lines| && Tiles(lines, start, |lines|, pieces) && k < |pieces| && pieces[k].Part?
    ensures k < end <= |pieces| && (forall j | k <= j < end :: pieces[j].Part? && pieces[j].at == pieces[k].at)
    ensures Concat(lines, pieces, k, end) == lines[pieces[k].at][pieces[k].offset..]
    decreases |pieces| - k
  {
    var line, offset := lines[pieces[k].at], pieces[k].offset;
    if offset + MAX_MARKDOWN_CHUNK_CHARS < |line| {
      NextSlice(lines, start, pieces, k);
      end := SlicesRejoin(lines, start, pieces, k + 1);
      CutAt(line, offset, offset + MAX_MARKDOWN_CHUNK_CHARS);
    } else {
      end := k + 1;
      assert Concat(lines, pieces, k + 1, end) == "";
    }
  }

  /** A fenced block is cut only where the size limit cuts it. */
  lemma FenceIsCutBySizeOnly(lines: seq<string>, start: nat, pieces: seq<Piece>, k: nat)
    requires start <= |lines| && Tiles(lines, start, |lines|, pieces) && k < |pieces|
    requires start <= Begin(pieces[k]).line && Inside(lines, start, Begin(pieces[k]).line)
    ensures k > 0 && Forced(lines, pieces[k - 1], pieces[k])
  {
    if k > 0 {
      LinkedAt(lines, start, pieces, k);
    }
  }
}
