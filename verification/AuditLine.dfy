/** The lines an audit row signs: the compact JSON object of both Rust forms, and the tab-separated one between. */
module AuditLine {
  import opened Decimals
  import opened Words

  const HEX := "0123456789abcdef"

  /** One character inside a JSON string, non-ASCII left raw. */
  function Escape(c: char): (e: string)
    ensures e != "" && e[0] != '"'
  {
    if c == '"' then "\\\""
    else if c == '\\' then "\\\\"
    else if c == '\n' then "\\n"
    else if c == '\r' then "\\r"
    else if c == '\t' then "\\t"
    else if c as int == 8 then "\\b"
    else if c as int == 12 then "\\f"
    else if c as int < 32 then "\\u00" + [HEX[c as int / 16], HEX[c as int % 16]]
    else [c]
  }

  function HexValue(c: char): int {
    if '0' <= c <= '9' then (c - '0') as int else if 'a' <= c <= 'f' then (c - 'a') as int + 10 else 0
  }

  /** The character an escape at the head of `e` stands for. */
  function Unescape(e: string): int {
    if e == "" || e[0] != '\\' || |e| < 2 then if e == "" then 0 else e[0] as int
    else if e[1] == 'n' then '\n' as int
    else if e[1] == 'r' then '\r' as int
    else if e[1] == 't' then '\t' as int
    else if e[1] == 'b' then 8
    else if e[1] == 'f' then 12
    else if e[1] == 'u' && |e| >= 6 then 16 * HexValue(e[4]) + HexValue(e[5])
    else e[1] as int
  }

  lemma UnescapeEscape(c: char, rest: string)
    ensures Unescape(Escape(c) + rest) == c as int
  {
    var e := Escape(c) + rest;
    if c as int < 32 && |Escape(c)| == 6 {
      var high, low := c as int / 16, c as int % 16;
      assert e[4] == HEX[high] && e[5] == HEX[low];
      assert HexValue(HEX[high]) == high;
      assert HexValue(HEX[low]) == low;
    }
  }

  function Escaped(s: string): string {
    if s == "" then "" else Escape(s[0]) + Escaped(s[1..])
  }

  function Quote(s: string): (q: string) {
    "\"" + (Escaped(s) + "\"")
  }

  lemma Regroup<T>(a: seq<T>, b: seq<T>, c: seq<T>, d: seq<T>)
    ensures a + b + c + d == a + (b + c + d)
    ensures a + (b + c) + d == a + (b + c + d)
    ensures a + b + c == a + (b + c)
  {
  }

  lemma Cancel<T>(head: seq<T>, x: seq<T>, y: seq<T>)
    requires head + x == head + y
    ensures x == y
  {
    assert x == (head + x)[|head|..] && y == (head + y)[|head|..];
  }

  lemma QuoteEndsFirst(s: string, x: string)
    ensures (Escaped(s) + "\"" + x)[0] == '"' <==> s == ""
  {
    if s != "" {
      assert (Escaped(s) + "\"" + x)[0] == Escape(s[0])[0];
    }
  }

  lemma EscapedPeels(s: string, x: string)
    requires s != ""
    ensures Escaped(s) + "\"" + x == Escape(s[0]) + (Escaped(s[1..]) + "\"" + x)
  {
    Regroup(Escape(s[0]), Escaped(s[1..]), "\"", x);
  }

  lemma EscapePeelsAlike(c: char, d: char, p: string, q: string)
    requires Escape(c) + p == Escape(d) + q
    ensures c == d && p == q
  {
    UnescapeEscape(c, p);
    UnescapeEscape(d, q);
    assert c == d;
    assert p == (Escape(c) + p)[|Escape(c)|..];
    assert q == (Escape(d) + q)[|Escape(d)|..];
  }

  /** A quoted string ends where it says: what follows it cannot be read as part of it. */
  lemma {:induction false} EscapedDetermines(s: string, t: string, x: string, y: string)
    requires Escaped(s) + "\"" + x == Escaped(t) + "\"" + y
    ensures s == t && x == y
    decreases |s|
  {
    QuoteEndsFirst(s, x);
    QuoteEndsFirst(t, y);
    if s == "" {
      assert x == (Escaped(s) + "\"" + x)[1..];
      assert y == (Escaped(t) + "\"" + y)[1..];
    } else {
      EscapedPeels(s, x);
      EscapedPeels(t, y);
      EscapePeelsAlike(s[0], t[0], Escaped(s[1..]) + "\"" + x, Escaped(t[1..]) + "\"" + y);
      EscapedDetermines(s[1..], t[1..], x, y);
    }
  }

  lemma QuoteDetermines(s: string, t: string, x: string, y: string)
    requires Quote(s) + x == Quote(t) + y
    ensures s == t && x == y
  {
    Regroup("\"", Escaped(s), "\"", x);
    Regroup("\"", Escaped(t), "\"", y);
    Cancel("\"", Escaped(s) + "\"" + x, Escaped(t) + "\"" + y);
    EscapedDetermines(s, t, x, y);
  }

  /** A text, or `null`: never the empty string for it. */
  function Nullable(s: Option<string>): string {
    if s.Some? then Quote(s.value) else "null"
  }

  lemma NullableDetermines(s: Option<string>, t: Option<string>, x: string, y: string)
    requires Nullable(s) + x == Nullable(t) + y
    ensures s == t && x == y
  {
    assert (Nullable(s) + x)[0] == '"' <==> s.Some?;
    assert (Nullable(t) + y)[0] == '"' <==> t.Some?;
    if s.Some? {
      QuoteDetermines(s.value, t.value, x, y);
    } else {
      assert x == (Nullable(s) + x)[4..] && y == (Nullable(t) + y)[4..];
    }
  }

  function Integer(n: int): string {
    if n < 0 then "-" + Decimal(-n) else Decimal(n)
  }

  lemma DigitsEndAtComma(s: string, t: string, x: string, y: string)
    requires AllDigits(s) && AllDigits(t) && s + "," + x == t + "," + y
    ensures s == t && x == y
  {
    var all, other := s + "," + x, t + "," + y;
    assert all[|s|] == ',' && other[|t|] == ',';
    assert forall i | 0 <= i < |s| :: all[i] == s[i] && IsDigit(all[i]);
    assert forall i | 0 <= i < |t| :: other[i] == t[i] && IsDigit(other[i]);
    assert |s| == |t|;
    assert s == all[..|s|] && t == other[..|t|];
    assert x == all[|s| + 1..] && y == other[|t| + 1..];
  }

  lemma MinusShows(n: int, rest: string)
    ensures (Integer(n) + "," + rest)[0] == '-' <==> n < 0
  {
    assert (Integer(n) + "," + rest)[0] == Integer(n)[0];
    if n >= 0 {
      assert IsDigit(Decimal(n)[0]);
    }
  }

  lemma IntegerDetermines(m: int, n: int, x: string, y: string)
    requires Integer(m) + "," + x == Integer(n) + "," + y
    ensures m == n && x == y
  {
    MinusShows(m, x);
    MinusShows(n, y);
    var p, q := if m < 0 then -m else m, if n < 0 then -n else n;
    if m < 0 {
      Regroup("-", Decimal(p), ",", x);
      Regroup("-", Decimal(q), ",", y);
      Cancel("-", Decimal(p) + "," + x, Decimal(q) + "," + y);
    }
    DigitsEndAtComma(Decimal(p), Decimal(q), x, y);
    ValueOfDecimal(p);
    ValueOfDecimal(q);
  }

  // ---- timestamps ------------------------------------------------------------

  /** A moment in UTC: the text of its whole second, and its microseconds. */
  datatype Moment = Moment(second: string, micros: nat)

  predicate IsInstant(i: Moment) {
    |i.second| == 19 && '\t' !in i.second && i.micros < Power(6)
  }

  type Instant = i: Moment | IsInstant(i) witness Moment("2026-08-28T00:00:00", 0)

  /** `format_rfc3339`: no fraction on a whole second, else all six digits. */
  function FormatRfc3339(at: Instant): string {
    at.second + (if at.micros == 0 then "" else "." + Padded(at.micros, 6)) + "Z"
  }

  /** `at_canonical`: the fraction cut after its last significant digit. */
  function AtCanonical(at: Instant): string {
    if at.micros == 0 then at.second + "Z"
    else Trimmed(at.second + "." + Padded(at.micros, 6)) + "Z"
  }

  /** Six digits that say so many microseconds. */
  ghost predicate SaysMicros(digits: string, micros: nat) {
    |digits| == 6 && AllDigits(digits) && Value(digits) == micros
  }

  /** One to six digits, the last not a zero, that with zeros added back say so many microseconds. */
  ghost predicate IsShortest(fraction: string, micros: nat) {
    && 1 <= |fraction| <= 6 && fraction[|fraction| - 1] != '0'
    && SaysMicros(fraction + "000000"[|fraction|..], micros)
  }

  lemma SixPlaces()
    ensures Power(6) == 1_000_000
  {
    assert Power(3) == 1000;
  }

  lemma PaddedSaysMicros(micros: nat, digits: string)
    requires micros < Power(6)
    ensures SaysMicros(digits, micros) <==> digits == Padded(micros, 6)
  {
    ValueOfPadded(micros, 6);
    if SaysMicros(digits, micros) {
      ValueDetermines(digits, Padded(micros, 6));
    }
  }

  /** The second, six digits of microseconds if there are any, and a `Z`. */
  ghost predicate IsFullTime(text: string, at: Instant) {
    if at.micros == 0 then text == at.second + "Z"
    else exists digits :: SaysMicros(digits, at.micros) && text == at.second + "." + digits + "Z"
  }

  /** The second, the shortest fraction that says the microseconds if there are any, and a `Z`. */
  ghost predicate IsShortTime(text: string, at: Instant) {
    if at.micros == 0 then text == at.second + "Z"
    else exists fraction :: IsShortest(fraction, at.micros) && text == at.second + "." + fraction + "Z"
  }

  lemma FormatRfc3339Is(at: Instant, text: string)
    ensures at.micros < 1_000_000
    ensures text == FormatRfc3339(at) <==> IsFullTime(text, at)
  {
    SixPlaces();
    PaddedSaysMicros(at.micros, Padded(at.micros, 6));
    Regroup(at.second, ".", Padded(at.micros, 6), "Z");
    if at.micros > 0 && IsFullTime(text, at) {
      var digits :| SaysMicros(digits, at.micros) && text == at.second + "." + digits + "Z";
      PaddedSaysMicros(at.micros, digits);
    }
  }

  lemma EndsBeforeZeros(digits: string, f: string, k: nat)
    requires f <= digits && f != "" && f[|f| - 1] != '0'
    requires k <= |digits| && forall i | k <= i < |digits| :: digits[i] == '0'
    ensures |f| <= k
  {
    assert digits[|f| - 1] != '0';
  }

  lemma ShortestUnique(f: string, g: string, micros: nat)
    requires micros < Power(6) && IsShortest(f, micros) && IsShortest(g, micros)
    ensures f == g
  {
    PaddedSaysMicros(micros, f + "000000"[|f|..]);
    PaddedSaysMicros(micros, g + "000000"[|g|..]);
    var digits := Padded(micros, 6);
    EndsBeforeZeros(digits, f, |g|);
    EndsBeforeZeros(digits, g, |f|);
    assert f == digits[..|f|] && g == digits[..|g|];
  }

  lemma CutDigits(head: string, digits: string, cut: string)
    requires |digits| == 6 && cut <= head + digits && |head| < |cut|
    requires forall i | |cut| <= i < |head + digits| :: (head + digits)[i] == '0'
    ensures 1 <= |cut[|head|..]| <= 6 && cut == head + cut[|head|..]
    ensures cut[|head|..] + "000000"[|cut| - |head|..] == digits
  {
    var f := cut[|head|..];
    forall i | 0 <= i < 6
      ensures (f + "000000"[|f|..])[i] == digits[i]
    {
      assert (head + digits)[|head| + i] == digits[i];
    }
  }

  /** The fraction `at_canonical` leaves after the dot. */
  lemma CutIsShortest(at: Instant) returns (fraction: string)
    requires at.micros > 0
    ensures IsShortest(fraction, at.micros) && AtCanonical(at) == at.second + "." + fraction + "Z"
  {
    var digits := Padded(at.micros, 6);
    var s := at.second + "." + digits;
    CutKeepsADigit(at);
    TrimmedZeros(s);
    CutDigits(at.second + ".", digits, Trimmed(s));
    PaddedSaysMicros(at.micros, digits);
    fraction := Trimmed(s)[20..];
  }

  lemma AtCanonicalIs(at: Instant, text: string)
    ensures text == AtCanonical(at) <==> IsShortTime(text, at)
  {
    if at.micros > 0 {
      var cut := CutIsShortest(at);
      if IsShortTime(text, at) {
        var fraction :| IsShortest(fraction, at.micros) && text == at.second + "." + fraction + "Z";
        ShortestUnique(cut, fraction, at.micros);
      }
    }
  }

  lemma {:induction false} PaddedZeros(n: nat, width: nat)
    requires n < Power(width) && forall i | 0 <= i < width :: Padded(n, width)[i] == '0'
    ensures n == 0
    decreases width
  {
    if width > 0 {
      assert Padded(n, width)[width - 1] == Digit(n % 10);
      assert DigitValue(Digit(n % 10)) == n % 10;
      var high := Padded(n / 10, width - 1);
      forall i | 0 <= i < width - 1
        ensures high[i] == '0'
      {
        assert Padded(n, width)[i] == high[i];
      }
      PaddedZeros(n / 10, width - 1);
    }
  }

  /** A cut fraction keeps its dot and a digit. */
  lemma CutKeepsADigit(at: Instant)
    requires at.micros > 0
    ensures |Trimmed(at.second + "." + Padded(at.micros, 6))| > 20
  {
    var s := at.second + "." + Padded(at.micros, 6);
    TrimmedZeros(s);
    if |Trimmed(s)| <= 20 {
      forall i | 0 <= i < 6
        ensures Padded(at.micros, 6)[i] == '0'
      {
        assert s[20 + i] == Padded(at.micros, 6)[i];
      }
      PaddedZeros(at.micros, 6);
    }
  }

  lemma CancelTail<T>(x: seq<T>, y: seq<T>, tail: seq<T>)
    requires x + tail == y + tail
    ensures x == y
  {
    assert |x + tail| == |y + tail|;
    assert x == (x + tail)[..|x|] && y == (y + tail)[..|y|];
  }

  lemma SameFraction(a: Instant, b: Instant)
    requires a.second + "." + Padded(a.micros, 6) == b.second + "." + Padded(b.micros, 6)
    ensures a == b
  {
    var s, t := a.second + "." + Padded(a.micros, 6), b.second + "." + Padded(b.micros, 6);
    assert a.second == s[..19] && b.second == t[..19];
    assert Padded(a.micros, 6) == s[20..] && Padded(b.micros, 6) == t[20..];
    PaddedDetermines(a.micros, b.micros, 6);
  }

  /** The canonical text names one instant. */
  lemma AtCanonicalDetermines(a: Instant, b: Instant)
    requires AtCanonical(a) == AtCanonical(b)
    ensures a == b
  {
    if a.micros > 0 {
      CutKeepsADigit(a);
    }
    if b.micros > 0 {
      CutKeepsADigit(b);
    }
    assert |AtCanonical(a)| == |AtCanonical(b)|;
    assert a.micros == 0 <==> b.micros == 0;
    if a.micros == 0 {
      CancelTail(a.second, b.second, "Z");
    } else {
      var s, t := a.second + "." + Padded(a.micros, 6), b.second + "." + Padded(b.micros, 6);
      CancelTail(Trimmed(s), Trimmed(t), "Z");
      TrimmedDetermines(s, t);
      SameFraction(a, b);
    }
  }

  // ---- the JSON object -------------------------------------------------------

  function JsonLine(seqno: int, at: string, actor: string, action: string, subject: string,
                    reason: Option<string>): (line: string)
    ensures line != "" && line[0] == '{'
  {
    "{\"seq\":" + (Integer(seqno) + "," + ("\"at\":" + AfterAt(at, actor, action, subject, reason)))
  }

  function AfterAt(at: string, actor: string, action: string, subject: string, reason: Option<string>): string {
    Quote(at) + (",\"actor\":" + AfterActor(actor, action, subject, reason))
  }

  function AfterActor(actor: string, action: string, subject: string, reason: Option<string>): string {
    Quote(actor) + (",\"action\":" + (Quote(action) + (",\"subject\":" + AfterSubject(subject, reason))))
  }

  function AfterSubject(subject: string, reason: Option<string>): string {
    Quote(subject) + (",\"reason\":" + (Nullable(reason) + "}"))
  }

  /** A character that JSON leaves as it is. */
  predicate Plain(c: char) {
    c as int >= 32 && c != '"' && c != '\\'
  }

  /** Only control characters, the quote and the backslash are escaped: seven by one character after a backslash, the
      others by the four hexadecimal digits of their code. */
  lemma EscapeSpells(c: char)
    ensures Escape(c) == [c] <==> Plain(c)
    ensures c in "\"\\\n\r\t" || c as int in {8, 12} <==> |Escape(c)| == 2
    ensures |Escape(c)| == 2 ==>
      Escape(c)[0] == '\\' && (Escape(c)[1], c as int) in
      {('"', 34), ('\\', 92), ('n', 10), ('r', 13), ('t', 9), ('b', 8), ('f', 12)}
    ensures |Escape(c)| > 2 ==> exists high: nat, low: nat ::
      && high < 2 && low < 16 && c as int == 16 * high + low
      && Escape(c) == "\\u00" + ["01"[high], "0123456789abcdef"[low]]
  {
    var n := c as int;
    if n < 32 && |Escape(c)| > 2 {
      assert n == 16 * (n / 16) + n % 16 && 0 <= n / 16 < 2;
      assert HEX[n / 16] == "01"[n / 16];
    }
  }

  /** A text of plain characters is quoted as it is. */
  lemma {:induction false} PlainQuote(s: string)
    requires forall i | 0 <= i < |s| :: Plain(s[i])
    ensures Quote(s) == "\"" + s + "\""
  {
    if s != "" {
      PlainQuote(s[1..]);
      assert Escaped(s[1..]) == Quote(s[1..])[1..|s|] == s[1..];
      assert Escaped(s) == s;
    }
  }

  lemma Unnest<T>(a: seq<T>, b: seq<T>, c: seq<T>, d: seq<T>, e: seq<T>)
    ensures a + (b + (c + (d + e))) == a + b + c + d + e
  {
    Regroup(a, b, c, d + e);
    Regroup(a + b, c, d, e);
  }

  lemma AfterSubjectText(subject: string, reason: Option<string>)
    ensures AfterSubject(subject, reason) == Quote(subject) + ",\"reason\":" + Nullable(reason) + "}"
  {
  }

  lemma AfterActorText(actor: string, action: string, subject: string, reason: Option<string>)
    ensures AfterActor(actor, action, subject, reason) ==
      Quote(actor) + ",\"action\":" + Quote(action) + ",\"subject\":" + AfterSubject(subject, reason)
  {
    Unnest(Quote(actor), ",\"action\":", Quote(action), ",\"subject\":", AfterSubject(subject, reason));
  }

  lemma Flatten<T>(head: seq<T>, a: seq<T>, b: seq<T>, c: seq<T>, d: seq<T>, tail: seq<T>)
    ensures head + (a + b + c + d + tail) == head + a + b + c + d + tail
  {
    Regroup(head, a, b, c);
    Regroup(head, a + b + c, d, tail);
  }

  lemma HeadText(seqno: int, at: string, actor: string, action: string, subject: string, reason: Option<string>)
    ensures JsonLine(seqno, at, actor, action, subject, reason) ==
      "{\"seq\":" + Integer(seqno) + ",\"at\":" + Quote(at) + ",\"actor\":"
      + AfterActor(actor, action, subject, reason)
  {
  }

  /** The six keys in order, with nothing between them but what JSON asks for. */
  lemma JsonLineText(seqno: int, at: string, actor: string, action: string, subject: string, reason: Option<string>)
    ensures JsonLine(seqno, at, actor, action, subject, reason) ==
      "{\"seq\":" + Integer(seqno) + ",\"at\":" + Quote(at) + ",\"actor\":" + Quote(actor) + ",\"action\":"
      + Quote(action) + ",\"subject\":" + Quote(subject) + ",\"reason\":"
      + (if reason.Some? then Quote(reason.value) else "null") + "}"
  {
    HeadText(seqno, at, actor, action, subject, reason);
    AfterActorText(actor, action, subject, reason);
    AfterSubjectText(subject, reason);
    var head := "{\"seq\":" + Integer(seqno) + ",\"at\":" + Quote(at) + ",\"actor\":";
    var tail := AfterSubject(subject, reason);
    Flatten(head, Quote(actor), ",\"action\":", Quote(action), ",\"subject\":", tail);
    var whole := head + Quote(actor) + ",\"action\":" + Quote(action) + ",\"subject\":";
    Regroup(whole, Quote(subject), ",\"reason\":", Nullable(reason) + "}");
    FlattenTail(whole, Quote(subject), ",\"reason\":", Nullable(reason), "}");
  }

  lemma FlattenTail<T>(whole: seq<T>, a: seq<T>, b: seq<T>, c: seq<T>, d: seq<T>)
    ensures whole + (a + b + c + d) == whole + a + b + c + d
  {
    Regroup(whole, a, b, c);
    Regroup(whole, a + b, c, d);
  }

  lemma AfterSubjectDetermines(s1: string, r1: Option<string>, s2: string, r2: Option<string>)
    requires AfterSubject(s1, r1) == AfterSubject(s2, r2)
    ensures s1 == s2 && r1 == r2
  {
    QuoteDetermines(s1, s2, ",\"reason\":" + (Nullable(r1) + "}"), ",\"reason\":" + (Nullable(r2) + "}"));
    Cancel(",\"reason\":", Nullable(r1) + "}", Nullable(r2) + "}");
    NullableDetermines(r1, r2, "}", "}");
  }

  lemma AfterActorDetermines(a1: string, c1: string, s1: string, r1: Option<string>, a2: string, c2: string,
                             s2: string, r2: Option<string>)
    requires AfterActor(a1, c1, s1, r1) == AfterActor(a2, c2, s2, r2)
    ensures a1 == a2 && c1 == c2 && s1 == s2 && r1 == r2
  {
    var x1 := Quote(c1) + (",\"subject\":" + AfterSubject(s1, r1));
    var x2 := Quote(c2) + (",\"subject\":" + AfterSubject(s2, r2));
    QuoteDetermines(a1, a2, ",\"action\":" + x1, ",\"action\":" + x2);
    Cancel(",\"action\":", x1, x2);
    QuoteDetermines(c1, c2, ",\"subject\":" + AfterSubject(s1, r1), ",\"subject\":" + AfterSubject(s2, r2));
    Cancel(",\"subject\":", AfterSubject(s1, r1), AfterSubject(s2, r2));
    AfterSubjectDetermines(s1, r1, s2, r2);
  }

  /** One JSON line has one reading: every field, and `null` apart from the empty text. */
  lemma JsonLineDetermines(n1: int, t1: string, a1: string, c1: string, s1: string, r1: Option<string>,
                           n2: int, t2: string, a2: string, c2: string, s2: string, r2: Option<string>)
    requires JsonLine(n1, t1, a1, c1, s1, r1) == JsonLine(n2, t2, a2, c2, s2, r2)
    ensures n1 == n2 && t1 == t2 && a1 == a2 && c1 == c2 && s1 == s2 && r1 == r2
  {
    var x1, x2 := AfterAt(t1, a1, c1, s1, r1), AfterAt(t2, a2, c2, s2, r2);
    Cancel("{\"seq\":", Integer(n1) + "," + ("\"at\":" + x1), Integer(n2) + "," + ("\"at\":" + x2));
    IntegerDetermines(n1, n2, "\"at\":" + x1, "\"at\":" + x2);
    Cancel("\"at\":", x1, x2);
    var y1, y2 := AfterActor(a1, c1, s1, r1), AfterActor(a2, c2, s2, r2);
    QuoteDetermines(t1, t2, ",\"actor\":" + y1, ",\"actor\":" + y2);
    Cancel(",\"actor\":", y1, y2);
    AfterActorDetermines(a1, c1, s1, r1, a2, c2, s2, r2);
  }
}
