/** Capsule handles: the slug a text gives, the handle printed from its parts, and the references read back. */
module Handles {
  import opened Tables

  const MAX_SLUG_LEN := 48

  const HANDLE_PREFIXES: seq<string> := [
    "failure-pattern", "brainstorm", "constraint", "capability", "procedure", "decision", "fact", "task", "epic",
    "plan", "doc", "dod", "cap"]

  predicate SlugChar(c: char) {
    'a' <= c <= 'z' || '0' <= c <= '9'
  }

  // ---- splitting at a hyphen -------------------------------------------------

  /** The place of the first hyphen, or the length where there is none. */
  function Hyphen(s: string): (k: nat)
    ensures k <= |s| && (k < |s| ==> s[k] == '-')
    ensures forall i | 0 <= i < k :: s[i] != '-'
  {
    if s == "" || s[0] == '-' then 0 else 1 + Hyphen(s[1..])
  }

  lemma HyphenAt(s: string, k: nat)
    requires k <= |s| && (forall i | 0 <= i < k :: s[i] != '-') && (k < |s| ==> s[k] == '-')
    ensures Hyphen(s) == k
  {
  }

  /** `s.split("-")`. */
  function Split(s: string): (parts: seq<string>)
    ensures parts != []
    decreases |s|
  {
    var k := Hyphen(s);
    if k == |s| then [s] else [s[..k]] + Split(s[k + 1..])
  }

  predicate ValidSlug(slug: string) {
    && slug != "" && |slug| <= MAX_SLUG_LEN && slug[0] != '-' && slug[|slug| - 1] != '-'
    && forall part | part in Split(slug) :: part != "" && forall i | 0 <= i < |part| :: SlugChar(part[i])
  }

  /** No hyphen here beside another. */
  predicate Lone(s: string, i: nat)
    requires i < |s|
  {
    i > 0 && s[i] == '-' ==> s[i - 1] != '-'
  }

  predicate Spelled(s: string) {
    forall i | 0 <= i < |s| :: s[i] == '-' || SlugChar(s[i])
  }

  /** Slug characters and hyphens, no hyphen at an end or beside another. */
  predicate SlugShape(s: string) {
    && s != "" && s[0] != '-' && s[|s| - 1] != '-'
    && Spelled(s)
    && forall i | 0 <= i < |s| :: Lone(s, i)
  }

  predicate Run(part: string) {
    part != "" && forall i | 0 <= i < |part| :: SlugChar(part[i])
  }

  lemma ShapeWithoutHyphen(s: string)
    requires Hyphen(s) == |s|
    ensures SlugShape(s) <==> Run(s)
  {
  }

  lemma ShapeHead(s: string, k: nat)
    requires k == Hyphen(s) < |s| && SlugShape(s)
    ensures k > 0 && Run(s[..k])
  {
    var head := s[..k];
    forall i | 0 <= i < |head|
      ensures SlugChar(head[i])
    {
      assert s[i] != '-';
    }
  }

  lemma ShapeTail(s: string, k: nat)
    requires k < |s| && s[k] == '-' && SlugShape(s)
    ensures SlugShape(s[k + 1..])
  {
    var tail := s[k + 1..];
    assert k + 1 < |s|;
    assert Lone(s, k + 1);
    forall i | 0 <= i < |tail|
      ensures Lone(tail, i) && (tail[i] == '-' || SlugChar(tail[i]))
    {
      assert Lone(s, i + k + 1) && tail[i] == s[i + k + 1];
      if i > 0 {
        assert tail[i - 1] == s[i + k];
      }
    }
    assert tail[0] == s[k + 1] && tail[|tail| - 1] == s[|s| - 1];
  }

  lemma ShapeJoins(s: string, k: nat)
    requires k == Hyphen(s) < |s| && Run(s[..k]) && SlugShape(s[k + 1..])
    ensures SlugShape(s)
  {
    var head, tail := s[..k], s[k + 1..];
    assert forall i | 0 <= i < k :: s[i] == head[i];
    assert s[|s| - 1] == tail[|tail| - 1];
    forall i | 0 <= i < |s|
      ensures Lone(s, i) && (s[i] == '-' || SlugChar(s[i]))
    {
      if i > k {
        assert s[i] == tail[i - k - 1] && Lone(tail, i - k - 1);
        assert i > k + 1 ==> s[i - 1] == tail[i - k - 2];
      } else if i < k {
        assert s[i] == head[i];
      }
    }
  }

  predicate AllRuns(parts: seq<string>) {
    forall i | 0 <= i < |parts| :: Run(parts[i])
  }

  lemma AllRunsCons(head: string, rest: seq<string>)
    ensures AllRuns([head] + rest) <==> Run(head) && AllRuns(rest)
  {
    var all := [head] + rest;
    if AllRuns(all) {
      assert Run(all[0]);
      assert forall i | 0 <= i < |rest| :: rest[i] == all[i + 1];
    }
  }

  lemma {:induction false} SplitShape(s: string)
    ensures AllRuns(Split(s)) <==> SlugShape(s)
    decreases |s|
  {
    var k := Hyphen(s);
    if k == |s| {
      ShapeWithoutHyphen(s);
      assert Split(s)[0] == s;
    } else {
      SplitShape(s[k + 1..]);
      AllRunsCons(s[..k], Split(s[k + 1..]));
      if SlugShape(s) {
        ShapeHead(s, k);
        ShapeTail(s, k);
      } else if Run(s[..k]) && SlugShape(s[k + 1..]) {
        ShapeJoins(s, k);
      }
    }
  }

  lemma ValidSlugIffShape(slug: string)
    ensures ValidSlug(slug) <==> SlugShape(slug) && |slug| <= 48
  {
    SplitShape(slug);
    var parts := Split(slug);
    if AllRuns(parts) {
      forall part | part in parts
        ensures part != "" && forall i | 0 <= i < |part| :: SlugChar(part[i])
      {
        var k :| 0 <= k < |parts| && parts[k] == part;
        assert Run(parts[k]);
      }
    }
    if ValidSlug(slug) {
      forall k | 0 <= k < |parts|
        ensures Run(parts[k])
      {
        assert parts[k] in parts;
      }
    }
  }

  // ---- slugify ---------------------------------------------------------------

  /** The maximal runs of slug characters, in order. */
  function Runs(text: string): (runs: seq<string>) {
    if text == "" then []
    else
      var init, c := text[..|text| - 1], text[|text| - 1];
      if !SlugChar(c) then Runs(init)
      else if init != "" && SlugChar(init[|init| - 1]) && Runs(init) != [] then
        Runs(init)[..|Runs(init)| - 1] + [Runs(init)[|Runs(init)| - 1] + [c]]
      else Runs(init) + [[c]]
  }

  function Join(runs: seq<string>): string {
    if runs == [] then ""
    else if |runs| == 1 then runs[0]
    else Join(runs[..|runs| - 1]) + "-" + runs[|runs| - 1]
  }

  /** Whether the next slug character starts a run after another. */
  predicate Parted(text: string) {
    Runs(text) != [] && !SlugChar(text[|text| - 1])
  }

  lemma {:induction false} RunsAreRuns(text: string)
    ensures forall k | 0 <= k < |Runs(text)| :: Run(Runs(text)[k])
    ensures text != "" && SlugChar(text[|text| - 1]) ==> Runs(text) != []
  {
    if text != "" {
      RunsAreRuns(text[..|text| - 1]);
    }
  }

  lemma JoinExtends(runs: seq<string>, c: char)
    requires runs != []
    ensures Join(runs[..|runs| - 1] + [runs[|runs| - 1] + [c]]) == Join(runs) + [c]
  {
    var init, last := runs[..|runs| - 1], runs[|runs| - 1];
    assert (init + [last + [c]])[..|init|] == init;
    if init != [] {
      LastGrows(Join(init) + "-", last, c);
    }
  }

  lemma LastGrows<T>(a: seq<T>, last: seq<T>, c: T)
    ensures a + (last + [c]) == a + last + [c]
  {
  }

  lemma JoinAppends(runs: seq<string>, c: char)
    ensures Join(runs + [[c]]) == if runs == [] then [c] else Join(runs) + "-" + [c]
  {
    assert (runs + [[c]])[..|runs|] == runs;
  }

  lemma {:induction false} JoinIsEmpty(runs: seq<string>)
    requires forall k | 0 <= k < |runs| :: Run(runs[k])
    ensures Join(runs) == "" <==> runs == []
  {
  }

  lemma NothingBetween<T>(a: seq<T>, b: seq<T>)
    ensures a + [] + b == a + b
    ensures [] + b == b
  {
  }

  /** What one more character adds to the hyphenated runs. */
  lemma JoinedOneMore(text: string, c: char)
    ensures Join(Runs(text + [c]))
         == if !SlugChar(c) then Join(Runs(text)) else Join(Runs(text)) + (if Parted(text) then "-" else "") + [c]
  {
    var more := text + [c];
    assert more[..|more| - 1] == text;
    RunsAreRuns(text);
    if SlugChar(c) {
      if text != "" && SlugChar(text[|text| - 1]) {
        JoinExtends(Runs(text), c);
        NothingBetween(Join(Runs(text)), [c]);
      } else {
        JoinAppends(Runs(text), c);
        NothingBetween("", [c]);
      }
    }
  }

  /** The slug grows at its end only. */
  lemma {:induction false} JoinedGrows(text: string, k: nat)
    requires k <= |text|
    ensures Join(Runs(text[..k])) <= Join(Runs(text))
    decreases |text|
  {
    if k < |text| {
      var init := text[..|text| - 1];
      JoinedGrows(init, k);
      assert init[..k] == text[..k];
      JoinedOneMore(init, text[|text| - 1]);
      assert text == init + [text[|text| - 1]];
    } else {
      assert text[..k] == text;
    }
  }

  lemma {:induction false} JoinedShape(text: string)
    ensures Runs(text) != [] ==> SlugShape(Join(Runs(text)))
  {
    if text != "" {
      var init, c := text[..|text| - 1], text[|text| - 1];
      JoinedShape(init);
      JoinedOneMore(init, c);
      assert text == init + [c];
      RunsAreRuns(init);
      JoinIsEmpty(Runs(init));
      if SlugChar(c) {
        ShapeGrows(Join(Runs(init)), if Parted(init) then "-" else "", c);
      }
    }
  }

  lemma ShapeGrows(s: string, between: string, c: char)
    requires SlugChar(c) && (between == "" || (between == "-" && s != "")) && (s == "" || SlugShape(s))
    ensures SlugShape(s + between + [c])
  {
    var t := s + between + [c];
    forall i | 0 <= i < |t|
      ensures Lone(t, i)
    {
      if i < |s| {
        assert Lone(s, i);
      }
    }
  }

  /** Trailing hyphens dropped. */
  function Chopped(s: string): string {
    if s != "" && s[|s| - 1] == '-' then Chopped(s[..|s| - 1]) else s
  }

  function Limited(s: string, max: nat): string {
    if |s| <= max then s else s[..max]
  }

  function Cut(s: string, max: nat): (slug: string) {
    var chopped := Chopped(Limited(s, max));
    if chopped == "" then "memory" else chopped
  }

  lemma {:induction false} CutShape(s: string, k: nat)
    requires k <= |s| && SlugShape(s)
    ensures |Chopped(s[..k])| <= k
    ensures k > 0 ==> SlugShape(Chopped(s[..k]))
    decreases k
  {
    if k > 0 {
      if s[k - 1] == '-' {
        assert k > 1;
        assert s[..k][..k - 1] == s[..k - 1];
        CutShape(s, k - 1);
      } else {
        forall i | 0 <= i < k
          ensures Lone(s[..k], i)
        {
          assert Lone(s, i);
        }
      }
    }
  }

  lemma MemoryIsSlug()
    ensures SlugShape("memory")
  {
    forall i | 0 <= i < 6
      ensures Lone("memory", i)
    {
    }
  }

  /** What is cut from a slug, or from nothing, has a slug's shape. */
  lemma CutHasShape(full: string, max: nat)
    requires full == "" || SlugShape(full)
    requires max <= MAX_SLUG_LEN
    ensures SlugShape(Cut(full, max)) && |Cut(full, max)| <= MAX_SLUG_LEN
  {
    MemoryIsSlug();
    if full != "" && max > 0 {
      CutShape(full, if |full| <= max then |full| else max);
      assert full[..|full|] == full;
    } else {
      assert Chopped("") == "";
    }
  }

  /** Every text gives a slug the grammar accepts. */
  lemma CutIsValid(text: string, max: nat)
    requires max <= MAX_SLUG_LEN
    ensures ValidSlug(Cut(Join(Runs(text)), max))
  {
    JoinedShape(text);
    CutHasShape(Join(Runs(text)), max);
    ValidSlugIffShape(Cut(Join(Runs(text)), max));
  }

  function Folded(headline: string, fold: char -> char): string {
    seq(|headline|, i requires 0 <= i < |headline| => fold(headline[i]))
  }

  predicate AsciiAlnum(c: char) {
    SlugChar(c) || 'A' <= c <= 'Z'
  }

  /** The hyphenated runs of a text with `c` after it, by whether `c` stands apart. */
  ghost predicate Feeds(before: string, parted: bool, c: char, after: string, partedAfter: bool) {
    && after == (if !SlugChar(c) then before else if parted then before + "-" + [c] else before + [c])
    && (parted ==> before != "")
    && (partedAfter <==> !SlugChar(c) && after != "")
  }

  lemma PartedHasRuns(text: string)
    ensures Parted(text) <==> text != "" && !SlugChar(text[|text| - 1]) && Join(Runs(text)) != ""
  {
    RunsAreRuns(text);
    JoinIsEmpty(Runs(text));
  }

  lemma FedOne(init: string, c: char)
    ensures Feeds(Join(Runs(init)), Parted(init), c, Join(Runs(init + [c])), Parted(init + [c]))
  {
    PartedHasRuns(init);
    PartedHasRuns(init + [c]);
    JoinedOneMore(init, c);
    NothingBetween(Join(Runs(init)), [c]);
  }

  /** One more character, seen through the slug alone. */
  lemma Fed(text: string, k: nat)
    requires k < |text|
    ensures Feeds(Join(Runs(text[..k])), Parted(text[..k]), text[k], Join(Runs(text[..k + 1])), Parted(text[..k + 1]))
  {
    TakeOneMore(text, k);
    FedOne(text[..k], text[k]);
  }

  lemma LimitReached(full: string, after: string, s: string, max: nat)
    requires after <= full && |after| > max == |s| && s <= after
    ensures s == Limited(full, max)
  {
  }

  method Collect(headline: string, fold: char -> char, maxChars: nat) returns (slugChars: string)
    requires forall i | 0 <= i < |headline| :: !('A' <= fold(headline[i]) <= 'Z')
    ensures slugChars == Limited(Join(Runs(Folded(headline, fold))), maxChars)
  {
    ghost var text := Folded(headline, fold);
    slugChars := "";
    var separator := false;
    for k := 0 to |headline|
      invariant |slugChars| <= maxChars && slugChars == Join(Runs(text[..k]))
      invariant separator == Parted(text[..k])
    {
      var folded := fold(headline[k]);
      ghost var after := Join(Runs(text[..k + 1]));
      Fed(text, k);
      if AsciiAlnum(folded) {
        if separator && slugChars != "" && |slugChars| < maxChars {
          slugChars := slugChars + "-";
        }
        separator := false;
        if |slugChars| == maxChars {
          JoinedGrows(text, k + 1);
          LimitReached(Join(Runs(text)), after, slugChars, maxChars);
          return;
        }
        slugChars := slugChars + [folded];
        assert slugChars == after;
      } else if slugChars != "" {
        separator := true;
      }
    }
    assert text[..|headline|] == text;
  }

  /** `slugify`, on the first non-empty line, already stripped and in lower case. */
  method Slugify(headline: string, fold: char -> char, maxChars: nat) returns (slug: string)
    requires forall i | 0 <= i < |headline| :: !('A' <= fold(headline[i]) <= 'Z')
    ensures slug == Cut(Join(Runs(Folded(headline, fold))), maxChars)
    ensures maxChars <= MAX_SLUG_LEN ==> ValidSlug(slug)
  {
    var slugChars := Collect(headline, fold, maxChars);
    ghost var cut := slugChars;
    while slugChars != "" && slugChars[|slugChars| - 1] == '-'
      invariant Chopped(slugChars) == Chopped(cut)
      decreases |slugChars|
    {
      slugChars := slugChars[..|slugChars| - 1];
    }
    CutIsValidWhen(Folded(headline, fold), maxChars);
    slug := if slugChars != "" then slugChars else "memory";
  }

  lemma CutIsValidWhen(text: string, max: nat)
    ensures max <= MAX_SLUG_LEN ==> ValidSlug(Cut(Join(Runs(text)), max))
  {
    if max <= MAX_SLUG_LEN {
      CutIsValid(text, max);
    }
  }
}
