/** What the lines of a Markdown document are and what its chunks say, told character by character. */
module MarkdownByLine {
  import opened Markdown
  import opened Tables
  import opened Words

  // ---- one line --------------------------------------------------------------------

  /** White space is the blank, the tab, the four line ends of ASCII and its four separators. */
  lemma SpaceIs(c: char)
    ensures IsSpace(c) <==> c in " \t\n\r" || c as int in {11, 12, 28, 29, 30, 31}
  {
    assert IsSpace(c) <==> c as int in {32, 9, 10, 11, 12, 13, 28, 29, 30, 31};
  }

  ghost predicate Spaces(s: string) {
    forall i | 0 <= i < |s| :: IsSpace(s[i])
  }

  /** A line loses the white space at its head, and nothing else. */
  lemma {:induction false} LStripIs(line: string) returns (k: nat)
    ensures k <= |line| && Spaces(line[..k]) && LStrip(line) == line[k..] && (k < |line| ==> !IsSpace(line[k]))
  {
    k := 0;
    if line != "" && IsSpace(line[0]) {
      var rest := LStripIs(line[1..]);
      k := rest + 1;
      assert line[..k] == [line[0]] + line[1..][..rest];
    }
  }

  /** And the white space at its end. */
  lemma {:induction false} RStripIs(line: string) returns (k: nat)
    ensures k <= |line| && Spaces(line[k..]) && RStrip(line) == line[..k] && (k > 0 ==> !IsSpace(line[k - 1]))
  {
    k := |line|;
    if line != "" && IsSpace(line[|line| - 1]) {
      var init := line[..|line| - 1];
      k := RStripIs(init);
      assert line[k..] == init[k..] + [line[|line| - 1]];
      assert line[..k] == init[..k];
    }
  }

  lemma SpacesAt(line: string, from: nat, to: nat)
    requires from <= to <= |line|
    ensures Spaces(line[from..to]) <==> forall i | from <= i < to :: IsSpace(line[i])
  {
    var part := line[from..to];
    assert forall i | from <= i < to :: line[i] == part[i - from];
    assert forall i | 0 <= i < |part| :: part[i] == line[from + i];
  }

  /** A line is a fence marker exactly if three backquotes or three tildes follow white space, if any. */
  lemma FenceIff(line: string)
    ensures IsFenceMarker(line) <==>
      exists k: nat :: k + 3 <= |line| && Spaces(line[..k]) && line[k..k + 3] in {"```", "~~~"}
  {
    var k := LStripIs(line);
    SpacesAt(line, 0, k);
    var rest := line[k..];
    if |rest| >= 3 {
      assert line[k..k + 3] == rest[..3];
      BeginsWith(rest, "```");
      BeginsWith(rest, "~~~");
    }
    if m: nat :| m + 3 <= |line| && Spaces(line[..m]) && line[m..m + 3] in {"```", "~~~"} {
      SpacesAt(line, 0, m);
      assert line[m] == line[m..m + 3][0] && !IsSpace(line[m]);
      assert m == k;
    }
  }

  lemma BeginsWith(s: string, mark: string)
    requires |mark| <= |s|
    ensures mark <= s <==> s[..|mark|] == mark
  {
    if mark <= s {
      assert s[..|mark|] == mark;
    }
  }

  lemma RStripsTo(line: string, mark: string)
    requires mark != "" && !IsSpace(mark[|mark| - 1])
    ensures RStrip(line) == mark <==> mark <= line && Spaces(line[|mark|..])
  {
    var k := RStripIs(line);
    assert line[k..] == line[k..|line|];
    SpacesAt(line, k, |line|);
    if mark <= line && Spaces(line[|mark|..]) {
      assert line[|mark|..] == line[|mark|..|line|];
      SpacesAt(line, |mark|, |line|);
      assert line[|mark| - 1] == mark[|mark| - 1];
      assert k == |mark|;
    }
  }

  /** Front matter opens with three hyphens, and closes with three hyphens or three dots. */
  lemma MarkersIff(line: string)
    ensures Opens(line) <==> "---" <= line && Spaces(line[3..])
    ensures Shuts(line) <==> ("---" <= line || "..." <= line) && Spaces(line[3..])
  {
    RStripsTo(line, "---");
    RStripsTo(line, "...");
  }

  lemma {:induction false} HashesAre(s: string)
    ensures forall i | 0 <= i < LeadingHashes(s) :: s[i] == '#'
    ensures LeadingHashes(s) < |s| ==> s[LeadingHashes(s)] != '#'
  {
    if s != "" && s[0] == '#' {
      HashesAre(s[1..]);
      assert forall i | 0 < i < |s| :: s[i] == s[1..][i - 1];
    }
  }

  /** A line without its end is a heading of a level exactly if it begins with so many hashes, one to six, and a blank,
      a tab or nothing follows; a line end changes nothing. */
  lemma HeadingIff(line: string, level: nat)
    requires line != "" ==> line[|line| - 1] !in "\r\n"
    ensures HeadingLevel(line) == Some(level) <==>
      && 1 <= level <= 6 && level <= |line| && (forall i | 0 <= i < level :: line[i] == '#')
      && (level < |line| ==> line[level] in " \t")
    ensures HeadingLevel(line + "\n") == HeadingLevel(line) == HeadingLevel(line + "\r")
  {
    assert DropLineEnds(line) == line;
    assert (line + "\n")[..|line|] == line && (line + "\r")[..|line|] == line;
    HashesAre(line);
    var hashes := LeadingHashes(line);
    if level <= |line| && (forall i | 0 <= i < level :: line[i] == '#') && (level < |line| ==> line[level] in " \t") {
      assert level == hashes;
    }
  }

  // ---- fences and the split level ------------------------------------------------

  function Markers(lines: seq<string>, from: nat, to: nat): set<int>
    requires to <= |lines|
  {
    set i | from <= i < to && IsFenceMarker(lines[i])
  }

  /** A line continues a fence exactly if the body has an odd number of markers above it. */
  lemma {:induction false} InsideIsOdd(lines: seq<string>, start: nat, i: nat)
    requires start <= i <= |lines|
    ensures Inside(lines, start, i) <==> |Markers(lines, start, i)| % 2 == 1
    decreases i
  {
    if i > start {
      InsideIsOdd(lines, start, i - 1);
      OneMarkerMore(lines, start, i - 1);
    } else {
      assert Markers(lines, start, i) == {};
    }
  }

  lemma OneMarkerMore(lines: seq<string>, start: nat, i: nat)
    requires start <= i < |lines|
    ensures |Markers(lines, start, i + 1)| == |Markers(lines, start, i)| + if IsFenceMarker(lines[i]) then 1 else 0
  {
    if IsFenceMarker(lines[i]) {
      assert Markers(lines, start, i + 1) == Markers(lines, start, i) + {i};
    } else {
      assert Markers(lines, start, i + 1) == Markers(lines, start, i);
    }
  }

  function OfLevel(headings: seq<Heading>, level: nat): set<int> {
    set k | 0 <= k < |headings| && headings[k].level == level
  }

  lemma {:induction false} CountIs(headings: seq<Heading>, level: nat)
    ensures Count(headings, level) == |OfLevel(headings, level)|
  {
    if headings != [] {
      var n := |headings| - 1;
      CountIs(headings[..n], level);
      assert OfLevel(headings, level)
        == OfLevel(headings[..n], level) + if headings[n].level == level then {n} else {};
    } else {
      assert OfLevel(headings, level) == {};
    }
  }

  ghost predicate Occurs(headings: seq<Heading>, level: nat) {
    exists h :: h in headings && h.level == level
  }

  ghost predicate Recurs(headings: seq<Heading>, level: nat) {
    exists j, k :: 0 <= j < k < |headings| && headings[j].level == level && headings[k].level == level
  }

  lemma CountTells(headings: seq<Heading>, level: nat)
    ensures Count(headings, level) >= 1 <==> Occurs(headings, level)
    ensures Count(headings, level) >= 2 <==> Recurs(headings, level)
  {
    var at := OfLevel(headings, level);
    CountIs(headings, level);
    if |at| >= 1 {
      var k := Pick(at);
      assert headings[k] in headings;
      if |at| >= 2 {
        var j := Pick(at - {k});
        assert headings[if j < k then j else k].level == level && headings[if j < k then k else j].level == level;
      }
    }
    if h :| h in headings && h.level == level {
      var k :| 0 <= k < |headings| && headings[k] == h;
      assert k in at;
    }
    if j, k :| 0 <= j < k < |headings| && headings[j].level == level && headings[k].level == level {
      assert {j, k} <= at && |{j, k}| == 2;
      assert |at| == |{j, k}| + |at - {j, k}|;
    }
  }

  /** A document splits at the highest level two headings share, else at the highest of any heading, else at none. */
  lemma SplitLevelIs(headings: seq<Heading>, level: Option<nat>)
    requires IsSplitLevel(headings, level) && forall h | h in headings :: 1 <= h.level <= 6
    ensures match level
            case Some(l) =>
              if Recurs(headings, l) then forall m: nat | m < l :: !Recurs(headings, m)
              else Occurs(headings, l) && (forall m: nat :: !Recurs(headings, m))
                   && forall m: nat | m < l :: !Occurs(headings, m)
            case None => headings == []
  {
    forall m: nat
      ensures Count(headings, m) >= 1 <==> Occurs(headings, m)
      ensures Count(headings, m) >= 2 <==> Recurs(headings, m)
    {
      CountTells(headings, m);
    }
    if level.None? && headings != [] {
      assert headings[0] in headings && Occurs(headings, headings[0].level);
    }
  }

  // ---- chunks ----------------------------------------------------------------------

  /** Joined lines stand one after another with a line feed between two of them. */
  lemma {:induction false} JoinedLines(first: seq<string>, second: seq<string>)
    requires first != [] && second != []
    ensures JoinLines(first + second) == JoinLines(first) + "\n" + JoinLines(second)
    ensures JoinLines([first[0]]) == first[0]
    decreases |second|
  {
    var init, last := second[..|second| - 1], second[|second| - 1];
    assert second == init + [last];
    if init == [] {
      assert second == [last];
      JoinedLast(first, last);
    } else {
      JoinedLines(first, init);
      JoinedStep(first, init, last);
    }
  }

  lemma JoinedStep(first: seq<string>, init: seq<string>, last: string)
    requires first != [] && init != []
    requires JoinLines(first + init) == JoinLines(first) + "\n" + JoinLines(init)
    ensures JoinLines(first + (init + [last])) == JoinLines(first) + "\n" + JoinLines(init + [last])
  {
    assert first + (init + [last]) == first + init + [last];
    JoinedLast(first + init, last);
    JoinedLast(init, last);
    Regroup(JoinLines(first), JoinLines(init), last);
  }

  lemma JoinedLast(lines: seq<string>, last: string)
    requires lines != []
    ensures JoinLines(lines + [last]) == JoinLines(lines) + "\n" + last
  {
    assert (lines + [last])[..|lines|] == lines;
  }

  lemma Regroup(a: string, b: string, c: string)
    ensures a + "\n" + b + "\n" + c == a + "\n" + (b + "\n" + c)
  {
  }

  /** A chunk numbers its first line from one, and says whole lines from there, or 4096 characters of that line, fewer
      only at its end. */
  lemma ChunkSays(lines: seq<string>, chunks: seq<Chunk>, pieces: seq<Piece>, k: nat)
    requires ChunksOf(lines, chunks, pieces) && k < |pieces|
    ensures 1 <= chunks[k].line <= |lines|
    ensures
      var at := chunks[k].line - 1;
      match pieces[k]
      case Whole(from, to) => from == at && to <= |lines| && chunks[k].text == JoinLines(lines[at..to])
      case Part(part, offset) =>
        part == at && chunks[k].text <= lines[at][offset..] && 0 < |chunks[k].text| <= 4096
        && (|chunks[k].text| < 4096 ==> chunks[k].text == lines[at][offset..])
  {
    assert chunks[k] == Chunk(Begin(pieces[k]).line + 1, PieceText(lines, pieces[k]));
  }

  /** A piece ends where what it says does: below its last line, or 4096 characters on in a line that says more. */
  lemma EndIs(lines: seq<string>, p: Piece)
    requires InBounds(lines, p)
    ensures p.Whole? ==> Begin(p) == Place(p.from, 0) && End(lines, p) == Place(p.to, 0)
    ensures p.Part? ==>
      Begin(p) == Place(p.at, p.offset) && End(lines, p) ==
      if |lines[p.at]| - p.offset > 4096 then Place(p.at, p.offset + 4096) else Place(p.at + 1, 0)
  {
  }

  /** Two pieces are cut by the size limit exactly where one goes on from the other and a slice is one of them, or with
      the next line the first would hold more than 4096 characters. */
  lemma ForcedIff(lines: seq<string>, p: Piece, q: Piece)
    requires InBounds(lines, p) && InBounds(lines, q)
    ensures Forced(lines, p, q) <==>
      && End(lines, p) == Begin(q)
      && (p.Part? || q.Part? || |PieceText(lines, p) + "\n" + lines[q.from]| > 4096)
  {
    PieceSizeIsLength(lines, p);
  }
}
