/**
 The text operations the username scheme and the sort orders rest on. A string is a sequence of Unicode
 scalar values; comparing those is the same as comparing the UTF-8 bytes.
 */
module Text {
  import opened Int64
  import opened Wrappers

  // ---------------------------------------------------------------- order

  /** Strict lexicographic order. */
  predicate Less(a: string, b: string) {
    b != "" && (a == "" || a[0] < b[0] || (a[0] == b[0] && Less(a[1..], b[1..])))
  }

  lemma {:induction false} LessTotal(a: string, b: string)
    ensures Less(a, b) || a == b || Less(b, a)
  {
    if a != "" && b != "" && a[0] == b[0] {
      LessTotal(a[1..], b[1..]);
      assert a[1..] == b[1..] ==> [a[0]] + a[1..] == [b[0]] + b[1..];
    }
  }

  lemma {:induction false} LessTransitive(a: string, b: string, c: string)
    requires Less(a, b) && Less(b, c)
    ensures Less(a, c)
  {
    if a != "" && a[0] == b[0] && b[0] == c[0] { LessTransitive(a[1..], b[1..], c[1..]); }
  }

  lemma {:induction false} LessIrreflexive(a: string)
    ensures !Less(a, a)
  {
    if a != "" { LessIrreflexive(a[1..]); }
  }

  lemma LessAsymmetric(a: string, b: string)
    requires Less(a, b)
    ensures !Less(b, a)
  {
    if Less(b, a) {
      LessTransitive(a, b, a);
      LessIrreflexive(a);
    }
  }

  /** The order is decided at the first place where the strings differ; a proper prefix comes first. */
  ghost predicate FirstDifference(a: string, b: string, n: nat) {
    && n <= |a| && n < |b| && a[..n] == b[..n]
    && (n == |a| || a[n] < b[n])
  }

  lemma {:induction false} LessIff(a: string, b: string)
    ensures Less(a, b) <==> exists n: nat :: FirstDifference(a, b, n)
  {
    if a == "" || b == "" {
      assert b != "" && a == "" ==> FirstDifference(a, b, 0);
    } else if a[0] != b[0] {
      assert a[0] < b[0] ==> FirstDifference(a, b, 0);
      if n: nat :| FirstDifference(a, b, n) {
        if n > 0 { assert a[..n][0] == b[..n][0]; }
      }
    } else {
      LessIff(a[1..], b[1..]);
      if n: nat :| FirstDifference(a[1..], b[1..], n) {
        assert a[..n + 1] == [a[0]] + a[1..][..n] && b[..n + 1] == [b[0]] + b[1..][..n];
        assert FirstDifference(a, b, n + 1);
      }
      if n: nat :| FirstDifference(a, b, n) {
        assert n > 0;
        assert a[1..][..n - 1] == a[..n][1..] && b[1..][..n - 1] == b[..n][1..];
        assert FirstDifference(a[1..], b[1..], n - 1);
      }
    }
  }

  // ---------------------------------------------------------------- white space

  /** Unicode white space. */
  predicate IsSpace(c: char) {
    || '\t' <= c <= '\r' || c == ' ' || c == '\U{0085}' || c == '\U{00A0}' || c == '\U{1680}'
    || '\U{2000}' <= c <= '\U{200A}' || c == '\U{2028}' || c == '\U{2029}' || c == '\U{202F}'
    || c == '\U{205F}' || c == '\U{3000}'
  }

  function TrimLeft(s: string): (r: string)
    ensures r != "" ==> !IsSpace(r[0])
    ensures |r| <= |s| && (r != "" ==> r[|r| - 1] == s[|s| - 1])
  {
    if s != "" && IsSpace(s[0]) then TrimLeft(s[1..]) else s
  }

  function TrimRight(s: string): (r: string)
    ensures r != "" ==> s != "" && !IsSpace(r[|r| - 1]) && r[0] == s[0]
    ensures |r| <= |s|
  {
    if s != "" && IsSpace(s[|s| - 1]) then TrimRight(s[..|s| - 1]) else s
  }

  function TrimSpace(s: string): (r: string)
    ensures r != "" ==> !IsSpace(r[0]) && !IsSpace(r[|r| - 1])
  {
    TrimRight(TrimLeft(s))
  }

  /** Text with no white space at either end is left alone, and nothing else is. */
  lemma TrimSpaceFixed(s: string)
    ensures TrimSpace(s) == s <==> (s == "" || (!IsSpace(s[0]) && !IsSpace(s[|s| - 1])))
  {
  }

  /** The white space characters, one by one. */
  lemma SpacesAre(c: char)
    ensures IsSpace(c) <==>
            c in "\t\n\U{000B}\U{000C}\r \U{0085}\U{00A0}\U{1680}\U{2000}\U{2001}\U{2002}\U{2003}\U{2004}\U{2005}\U{2006}"
            || c in "\U{2007}\U{2008}\U{2009}\U{200A}\U{2028}\U{2029}\U{202F}\U{205F}\U{3000}"
  {
  }

  predicate AllSpace(s: string) { forall k :: 0 <= k < |s| ==> IsSpace(s[k]) }

  lemma {:induction false} TrimLeftIs(a: string, r: string)
    requires AllSpace(a) && (r != "" ==> !IsSpace(r[0]))
    ensures TrimLeft(a + r) == r
  {
    if a == "" {
      assert a + r == r;
    } else {
      assert (a + r)[1..] == a[1..] + r;
      TrimLeftIs(a[1..], r);
    }
  }

  lemma {:induction false} TrimRightIs(r: string, b: string)
    requires AllSpace(b) && (r != "" ==> !IsSpace(r[|r| - 1]))
    ensures TrimRight(r + b) == r
  {
    if b == "" {
      assert r + b == r;
    } else {
      assert (r + b)[..|r + b| - 1] == r + b[..|b| - 1];
      TrimRightIs(r, b[..|b| - 1]);
    }
  }

  /** What is left when white space, and nothing else, is taken off both ends, as far as possible. */
  lemma TrimSpaceIs(a: string, r: string, b: string)
    requires AllSpace(a) && AllSpace(b) && (r != "" ==> !IsSpace(r[0]) && !IsSpace(r[|r| - 1]))
    ensures TrimSpace(a + r + b) == r
  {
    if r == "" {
      assert a + r + b == (a + b) + "";
      TrimLeftIs(a + b, "");
    } else {
      assert a + r + b == a + (r + b);
      TrimLeftIs(a, r + b);
      TrimRightIs(r, b);
    }
  }

  lemma {:induction false} Trimmed(s: string) returns (a: string, b: string)
    ensures AllSpace(a) && AllSpace(b) && s == a + TrimSpace(s) + b
  {
    if s != "" && IsSpace(s[0]) {
      var a0;
      a0, b := Trimmed(s[1..]);
      a := [s[0]] + a0;
      assert s == [s[0]] + s[1..];
    } else {
      a := "";
      b := TrimmedRight(s);
      assert "" + TrimSpace(s) + b == TrimSpace(s) + b;
    }
  }

  lemma {:induction false} TrimmedRight(s: string) returns (b: string)
    ensures AllSpace(b) && s == TrimRight(s) + b
  {
    if s != "" && IsSpace(s[|s| - 1]) {
      var b0 := TrimmedRight(s[..|s| - 1]);
      b := b0 + [s[|s| - 1]];
      assert s == s[..|s| - 1] + [s[|s| - 1]];
    } else {
      b := "";
    }
  }

  /** More white space around a text does not change what is left of it. */
  lemma TrimPadded(p: string, s: string, q: string)
    requires AllSpace(p) && AllSpace(q)
    ensures TrimSpace(p + s + q) == TrimSpace(s)
  {
    var a, b := Trimmed(s);
    assert p + s + q == (p + a) + TrimSpace(s) + (b + q);
    TrimSpaceIs(p + a, TrimSpace(s), b + q);
  }

  // ---------------------------------------------------------------- segments

  const SEP := '_'

  /** The segments between separators; always at least one. */
  function Split(s: string): (parts: seq<string>)
    ensures |parts| >= 1
  {
    if s == "" then [""]
    else if s[0] == SEP then [""] + Split(s[1..])
    else var rest := Split(s[1..]); [[s[0]] + rest[0]] + rest[1..]
  }

  function Join(parts: seq<string>): string {
    if parts == [] then ""
    else if |parts| == 1 then parts[0]
    else parts[0] + [SEP] + Join(parts[1..])
  }

  /** The text before and after the last separator. */
  function PeelLast(s: string): (r: Option<(string, string)>)
    ensures r.Some? ==> s == r.value.0 + [SEP] + r.value.1 && SEP !in r.value.1
    ensures r.None? ==> SEP !in s
  {
    if s == "" then None
    else
      var init, last := s[..|s| - 1], s[|s| - 1];
      if last == SEP then Some((init, ""))
      else match PeelLast(init)
        case None => None
        case Some(p) => Some((p.0, p.1 + [last]))
  }

  /** The split at the last separator is the only one whose right half has no separator. */
  lemma {:induction false} PeelLastUnique(p: string, q: string)
    requires SEP !in q
    ensures PeelLast(p + [SEP] + q) == Some((p, q))
  {
    var s := p + [SEP] + q;
    if q == "" {
      assert s[..|s| - 1] == p;
    } else {
      PeelLastUnique(p, q[..|q| - 1]);
      assert s[..|s| - 1] == p + [SEP] + q[..|q| - 1];
      assert q == q[..|q| - 1] + [q[|q| - 1]];
    }
  }

  lemma {:induction false} SplitNoSeparator(s: string)
    requires SEP !in s
    ensures Split(s) == [s]
  {
    if s != "" {
      assert s == [s[0]] + s[1..];
      SplitNoSeparator(s[1..]);
    }
  }

  /** Splitting everything and peeling from the right see the same last segment. */
  lemma {:induction false} SplitAtLast(p: string, q: string)
    requires SEP !in q
    ensures Split(p + [SEP] + q) == Split(p) + [q]
  {
    var s := p + [SEP] + q;
    if p == "" {
      assert s[1..] == q;
      SplitNoSeparator(q);
    } else {
      assert s[1..] == p[1..] + [SEP] + q;
      SplitAtLast(p[1..], q);
    }
  }

  lemma PeelSplit(s: string)
    ensures match PeelLast(s)
            case None => Split(s) == [s]
            case Some(a) => Split(s) == Split(a.0) + [a.1]
  {
    match PeelLast(s)
    case None => SplitNoSeparator(s);
    case Some(a) => SplitAtLast(a.0, a.1);
  }

  lemma {:induction false} JoinSplit(s: string)
    ensures Join(Split(s)) == s
  {
    if s != "" {
      JoinSplit(s[1..]);
      var rest := Split(s[1..]);
      if s[0] == SEP {
        assert Split(s)[1..] == rest;
      } else {
        assert Split(s)[1..] == rest[1..];
      }
    }
  }

  // ---------------------------------------------------------------- decimal numbers

  predicate IsDigit(c: char) { '0' <= c <= '9' }

  predicate AllDigits(s: string) { forall k :: 0 <= k < |s| ==> IsDigit(s[k]) }

  function Value(s: string): (n: nat)
    requires AllDigits(s)
  {
    if s == "" then 0 else 10 * Value(s[..|s| - 1]) + (s[|s| - 1] as int - '0' as int)
  }

  /** Base-ten parsing of a 64-bit integer: an optional sign, then digits only, in range. */
  function Atoi(s: string): (r: Option<int>) {
    var negative := s != "" && s[0] == '-';
    var digits := if s != "" && (s[0] == '-' || s[0] == '+') then s[1..] else s;
    if digits == "" || !AllDigits(digits) then None
    else
      var n: int := if negative then 0 - Value(digits) else Value(digits);
      if -MAX_INT64 - 1 <= n <= MAX_INT64 then Some(n) else None
  }

  function Decimal(n: nat): (s: string)
    ensures s != "" && AllDigits(s) && SEP !in s
  {
    var c := (n % 10 + '0' as int) as char;
    if n < 10 then [c] else Decimal(n / 10) + [c]
  }

  lemma {:induction false} ValueDecimal(n: nat)
    ensures Value(Decimal(n)) == n
  {
    var s := Decimal(n);
    if n >= 10 {
      ValueDecimal(n / 10);
      assert s[..|s| - 1] == Decimal(n / 10);
    }
  }

  lemma AtoiDecimal(n: nat)
    requires n <= MAX_INT64
    ensures Atoi(Decimal(n)) == Some(n)
  {
    ValueDecimal(n);
    assert IsDigit(Decimal(n)[0]);
  }

  function Pow10(n: nat): (r: nat)
    ensures r > 0
  {
    if n == 0 then 1 else 10 * Pow10(n - 1)
  }

  /** Digits are worth their face, times ten for every place to their right. */
  lemma {:induction false} ValuePlaces(a: string, b: string)
    requires AllDigits(a) && AllDigits(b)
    ensures AllDigits(a + b) && Value(a + b) == Value(a) * Pow10(|b|) + Value(b)
    ensures |a| == 1 ==> Value(a) == a[0] as int - '0' as int
  {
    if |a| == 1 { assert a[..0] == ""; }
    if b == "" {
      assert a + b == a;
    } else {
      var init := b[..|b| - 1];
      ValuePlaces(a, init);
      assert (a + b)[..|a + b| - 1] == a + init;
      TenTimes(Value(a), Pow10(|init|));
      hide Pow10, Value;
    }
  }

  lemma TenTimes(v: int, p: int)
    ensures v * (10 * p) == 10 * (v * p)
  {
  }

  /** The digits of a number text, and its sign. */
  ghost predicate Reads(s: string, digits: string, negative: bool) {
    && digits != "" && AllDigits(digits)
    && if negative then s == ['-'] + digits else s == digits || s == ['+'] + digits
  }

  lemma AtoiIff(s: string, n: int)
    ensures Atoi(s) == Some(n) <==>
            -0x8000_0000_0000_0000 <= n <= 0x7FFF_FFFF_FFFF_FFFF
            && exists digits, negative :: Reads(s, digits, negative) && n == if negative then 0 - Value(digits) else Value(digits)
  {
    var negative := s != "" && s[0] == '-';
    var digits := if s != "" && (s[0] == '-' || s[0] == '+') then s[1..] else s;
    if digits != "" && AllDigits(digits) {
      assert s == if negative then ['-'] + digits else if s[0] == '+' then ['+'] + digits else digits;
      assert Reads(s, digits, negative);
    }
    forall d, neg | Reads(s, d, neg) ensures d == digits && neg == negative {
      if s == ['-'] + d || s == ['+'] + d { assert s[1..] == d; } else { assert IsDigit(d[0]); }
    }
  }
}
