/** What a slug keeps of its text, and what a reference that names no capsule is told. */
module HandleText {
  import opened Decimals
  import opened HandleRefs
  import opened Handles
  import opened Words

  lemma SlugCharIs(c: char)
    ensures SlugChar(c) <==> 97 <= c as int <= 122 || 48 <= c as int <= 57
  {
  }

  /** The runs of two texts, with a character between them that no slug holds, stand side by side. */
  lemma {:induction false} RunsApart(text: string, c: char, more: string)
    requires !SlugChar(c)
    ensures Runs(text + [c] + more) == Runs(text) + Runs(more)
    decreases |more|
  {
    var all := text + [c] + more;
    if more == "" {
      assert all == text + [c];
      assert all[..|all| - 1] == text;
    } else {
      var init, last := more[..|more| - 1], more[|more| - 1];
      RunsApart(text, c, init);
      assert all[..|all| - 1] == text + [c] + init;
      LastRun(text + [c] + init, Runs(text), init, last);
      assert init + [last] == more && text + [c] + init + [last] == all;
    }
  }

  /** The last character joins or starts the same run in both. */
  lemma LastRun(whole: string, before: seq<string>, part: string, last: char)
    requires part != "" ==> whole != "" && whole[|whole| - 1] == part[|part| - 1]
    requires part == "" ==> whole != "" && !SlugChar(whole[|whole| - 1])
    requires Runs(whole) == before + Runs(part)
    ensures Runs(whole + [last]) == before + Runs(part + [last])
  {
    RunsOneMore(whole, last);
    RunsOneMore(part, last);
    RunsAreRuns(part);
    Beside(before, Runs(part), last);
  }

  function Grown(runs: seq<string>, c: char): seq<string>
    requires runs != []
  {
    runs[..|runs| - 1] + [runs[|runs| - 1] + [c]]
  }

  lemma RunsUnfold(more: string)
    requires more != ""
    ensures
      var text, c := more[..|more| - 1], more[|more| - 1];
      Runs(more) ==
      if !SlugChar(c) then Runs(text)
      else if text != "" && SlugChar(text[|text| - 1]) && Runs(text) != [] then Grown(Runs(text), c)
      else Runs(text) + [[c]]
  {
  }

  lemma WithLast(text: string, c: char)
    ensures (text + [c])[..|text + [c]| - 1] == text && (text + [c])[|text + [c]| - 1] == c
  {
  }

  lemma RunsOneMore(text: string, c: char)
    ensures text != "" && SlugChar(text[|text| - 1]) ==> Runs(text) != []
    ensures Runs(text + [c]) ==
      if !SlugChar(c) then Runs(text)
      else if text != "" && SlugChar(text[|text| - 1]) then Grown(Runs(text), c)
      else Runs(text) + [[c]]
  {
    EndsInRun(text);
    WithLast(text, c);
    RunsUnfold(text + [c]);
  }

  lemma EndsInRun(text: string)
    ensures text != "" && SlugChar(text[|text| - 1]) ==> Runs(text) != []
  {
    RunsAreRuns(text);
  }

  lemma Beside(before: seq<string>, runs: seq<string>, c: char)
    ensures before + (runs + [[c]]) == before + runs + [[c]]
    ensures runs != [] ==> Grown(before + runs, c) == before + Grown(runs, c)
  {
  }

  /** Slug characters alone are one run. */
  lemma {:induction false} RunsWhole(text: string)
    requires text != "" && forall i | 0 <= i < |text| :: SlugChar(text[i])
    ensures Runs(text) == [text]
  {
    var init, last := text[..|text| - 1], text[|text| - 1];
    assert text == init + [last];
    if init != "" {
      RunsWhole(init);
      assert [init][..0] == [];
    }
  }

  /** The runs stand one after another with a hyphen between two of them. */
  lemma JoinIs(runs: seq<string>, last: string)
    ensures Join([]) == "" && Join([last]) == last
    ensures runs != [] ==> Join(runs + [last]) == Join(runs) + "-" + last
  {
    assert (runs + [last])[..|runs|] == runs;
  }

  /** A slug within the limit stays as it is; a longer one is cut there, less a hyphen at its end; none is `memory`. */
  lemma CutIs(s: string, max: nat)
    requires s == "" || SlugShape(s)
    ensures |s| <= max && s != "" ==> Cut(s, max) == s
    ensures |s| > max > 0 ==> Cut(s, max) == if s[max - 1] == '-' then s[..max - 1] else s[..max]
    ensures s == "" || max == 0 ==> Cut(s, max) == "memory"
  {
    if max == 0 {
      assert s[..0] == "" && Chopped("") == "";
    } else if |s| > max {
      var t := s[..max];
      assert t[max - 1] == s[max - 1];
      if s[max - 1] == '-' {
        assert Lone(s, max - 1) && max > 1;
        assert t[..|t| - 1] == s[..max - 1] && s[..max - 1][max - 2] == s[max - 2];
        assert Chopped(t) == Chopped(s[..max - 1]) == s[..max - 1];
      } else {
        assert Chopped(t) == t;
      }
    }
  }

  /** The prefixes of a handle. */
  lemma PrefixesAre(prefix: string)
    ensures prefix in HANDLE_PREFIXES <==> prefix in {
      "fact", "procedure", "decision", "task", "epic", "plan", "brainstorm", "doc", "constraint", "capability",
      "failure-pattern", "dod", "cap"}
  {
    assert HANDLE_PREFIXES[0] == "failure-pattern" && HANDLE_PREFIXES[1] == "brainstorm";
    assert HANDLE_PREFIXES[2] == "constraint" && HANDLE_PREFIXES[3] == "capability";
    assert HANDLE_PREFIXES[4] == "procedure" && HANDLE_PREFIXES[5] == "decision" && HANDLE_PREFIXES[6] == "fact";
    assert HANDLE_PREFIXES[7] == "task" && HANDLE_PREFIXES[8] == "epic" && HANDLE_PREFIXES[9] == "plan";
    assert HANDLE_PREFIXES[10] == "doc" && HANDLE_PREFIXES[11] == "dod" && HANDLE_PREFIXES[12] == "cap";
  }

  /** A text that spells no reference is invalid, and no other. */
  lemma InvalidIff(handles: map<nat, Columns>, reference: string)
    requires Table(handles)
    ensures Resolve(handles, reference) == InvalidRef <==> forall r | WellFormed(r) :: reference != Spell(r)
  {
    var parsed := Parse(reference);
    if parsed.Some? {
      ParseIffSpelled(reference, parsed.value);
      if parsed.value.number in handles {
        StoredHandleParses(handles, parsed.value.number);
      }
    } else if r :| WellFormed(r) && reference == Spell(r) {
      ParseIffSpelled(reference, r);
    }
  }

  /** A reference to a number no capsule has is not found. */
  lemma NotFoundIff(handles: map<nat, Columns>, r: Ref)
    requires Table(handles) && WellFormed(r)
    ensures Resolve(handles, Spell(r)) == NotFound("cap-" + Decimal(r.number)) <==> r.number !in handles
  {
    SpelledParses(r);
    if r.number in handles {
      StoredHandleParses(handles, r.number);
    }
  }

  /** A reference to a stored capsule that is none of its three spellings is told what the handle is, and whether the
      kind or only the slug differs. */
  lemma MismatchIs(handles: map<nat, Columns>, r: Ref)
    requires Table(handles) && WellFormed(r) && r.number in handles && !Names(handles, r.number, Spell(r))
    ensures Resolve(handles, Spell(r)) ==
      if r.prefix != handles[r.number].prefix then KindMismatch(Id(r.number), Spell(RowOf(handles, r.number)))
      else SlugMismatch(Id(r.number), Spell(RowOf(handles, r.number)))
  {
    SpelledParses(r);
    StoredHandleParses(handles, r.number);
    ResolvesIffNamed(handles, r.number, Spell(r));
  }
}
