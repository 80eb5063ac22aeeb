/** The order in which the index stores its rows: Python and SQLite both compare
    words by code point, and a posting key is a word followed by a capsule seq. */
module Words {

  datatype Option<+T> = None | Some(value: T)

  type Word = string

  /** `a < b` on strings, code point by code point. */
  predicate Less(a: Word, b: Word) {
    if b == [] then false
    else if a == [] then true
    else a[0] < b[0] || (a[0] == b[0] && Less(a[1..], b[1..]))
  }

  datatype Key = Key(word: Word, doc: int) {
    predicate Before(other: Key) {
      Less(word, other.word) || (word == other.word && doc < other.doc)
    }

    predicate AtMost(other: Key) {
      this == other || Before(other)
    }
  }

  lemma {:induction false} LessIrreflexive(a: Word)
    ensures !Less(a, a)
  {
    if a != [] {
      LessIrreflexive(a[1..]);
    }
  }

  lemma {:induction false} LessTransitive(a: Word, b: Word, c: Word)
    requires Less(a, b) && Less(b, c)
    ensures Less(a, c)
  {
    if a != [] && a[0] == b[0] && b[0] == c[0] {
      LessTransitive(a[1..], b[1..], c[1..]);
    }
  }

  lemma {:induction false} LessTotal(a: Word, b: Word)
    ensures Less(a, b) || a == b || Less(b, a)
  {
    if a != [] && b != [] && a[0] == b[0] {
      LessTotal(a[1..], b[1..]);
      assert a == [a[0]] + a[1..] && b == [b[0]] + b[1..];
    }
  }

  /** The words agree before this place, and there the first has the lesser character. */
  ghost predicate LessAt(a: Word, b: Word, k: nat) {
    k < |a| && k < |b| && a[k] < b[k] && forall i | 0 <= i < k :: a[i] == b[i]
  }

  lemma TailsLessAt(a: Word, b: Word)
    requires a != [] && b != [] && a[0] == b[0]
    ensures (exists k: nat :: LessAt(a, b, k)) <==> exists k: nat :: LessAt(a[1..], b[1..], k)
  {
    if k: nat :| LessAt(a, b, k) {
      assert LessAt(a[1..], b[1..], k - 1);
    }
    if k: nat :| LessAt(a[1..], b[1..], k) {
      forall i | 0 <= i < k + 1
        ensures a[i] == b[i]
      {
        assert i > 0 ==> a[1..][i - 1] == b[1..][i - 1];
      }
      assert LessAt(a, b, k + 1);
    }
  }

  /** One word is less than another exactly if it begins it, or has the lesser character where they first differ. */
  lemma {:induction false} LessIff(a: Word, b: Word)
    ensures Less(a, b) <==> (a <= b && a != b) || exists k: nat :: LessAt(a, b, k)
  {
    if a != [] && b != [] {
      if a[0] < b[0] {
        assert LessAt(a, b, 0);
      } else if a[0] == b[0] {
        LessIff(a[1..], b[1..]);
        TailsLessAt(a, b);
        assert a == [a[0]] + a[1..] && b == [b[0]] + b[1..];
      }
    }
  }

  /** `Before` is a strict total order on posting keys. */
  lemma BeforeIsStrictTotal(a: Key, b: Key, c: Key)
    ensures !a.Before(a)
    ensures a.Before(b) && b.Before(c) ==> a.Before(c)
    ensures a.Before(b) || a == b || b.Before(a)
    ensures !(a.Before(b) && b.Before(a))
  {
    LessIrreflexive(a.word);
    LessTotal(a.word, b.word);
    if Less(a.word, b.word) && Less(b.word, c.word) {
      LessTransitive(a.word, b.word, c.word);
    }
    if Less(a.word, b.word) && Less(b.word, a.word) {
      LessTransitive(a.word, b.word, a.word);
    }
  }

  ghost predicate WordSorted(ws: seq<Word>) {
    forall i, j | 0 <= i < j < |ws| :: Less(ws[i], ws[j])
  }

  ghost predicate Least(m: Word, s: set<Word>) {
    m in s && forall x | x in s && x != m :: Less(m, x)
  }

  lemma {:induction false} LeastWordExists(s: set<Word>)
    requires s != {}
    ensures exists m :: Least(m, s)
  {
    var x :| x in s;
    var rest := s - {x};
    assert forall y | y in s :: y == x || y in rest;
    if rest == {} {
      assert Least(x, s);
    } else {
      LeastWordExists(rest);
      var m :| Least(m, rest);
      LessTotal(x, m);
      if Less(x, m) {
        forall y | y in rest
          ensures Less(x, y)
        {
          if y != m {
            LessTransitive(x, m, y);
          }
        }
        assert Least(x, s);
      } else {
        assert Least(m, s);
      }
    }
  }

  /** `min(words)`. */
  function LeastWord(s: set<Word>): (m: Word)
    requires s != {}
    ensures Least(m, s)
  {
    LeastWordExists(s);
    LeastWordUnique(s);
    assert exists m :: m in s && forall x | x in s && x != m :: Less(m, x) by {
      var m :| Least(m, s);
    }
    var m :| m in s && forall x | x in s && x != m :: Less(m, x);
    m
  }

  /** `sorted(postings)`. */
  function SortedWords(s: set<Word>): (r: seq<Word>)
    ensures WordSorted(r)
    ensures forall x :: x in r <==> x in s
    decreases |s|
  {
    if s == {} then []
    else
      var m := LeastWord(s);
      var rest := SortedWords(s - {m});
      LeastWordFirst(m, rest, s);
      [m] + rest
  }

  lemma LeastWordFirst(m: Word, rest: seq<Word>, s: set<Word>)
    requires m in s && forall x | x in s && x != m :: Less(m, x)
    requires WordSorted(rest)
    requires forall x :: x in rest <==> x in s - {m}
    ensures WordSorted([m] + rest)
    ensures forall x :: x in [m] + rest <==> x in s
  {
    forall i | 0 <= i < |rest|
      ensures Less(m, rest[i])
    {
      assert rest[i] in rest;
    }
  }

  lemma LeastWordUnique(s: set<Word>)
    ensures forall a, b | a in s && b in s && (forall x | x in s && x != a :: Less(a, x))
      && (forall x | x in s && x != b :: Less(b, x)) :: a == b
  {
    forall a, b | a in s && b in s && (forall x | x in s && x != a :: Less(a, x))
      && (forall x | x in s && x != b :: Less(b, x))
      ensures a == b
    {
      if a != b {
        LessTransitive(a, b, a);
        LessIrreflexive(a);
      }
    }
  }
}
