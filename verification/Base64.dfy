/**
 Base 64 (section 4 of RFC 4648) as the standard encoding of the language has it: the encoder always pads;
 the decoder demands padding, skips line breaks anywhere, and ignores the spare bits of the last digit.
 Text is a sequence of bytes.
 */
module Base64 {
  import opened Wrappers
  import opened Pkcs7

  const PAD: byte := 61
  const LF: byte := 10
  const CR: byte := 13

  function Digit(v: int): (c: byte)
    requires 0 <= v < 64
    ensures Value(c) == Some(v) && c != PAD && c != LF && c != CR
  {
    if v < 26 then 65 + v else if v < 52 then 97 + (v - 26) else if v < 62 then 48 + (v - 52) else if v == 62 then 43 else 47
  }

  function Value(c: byte): (v: Option<int>)
    ensures v.Some? ==> 0 <= v.value < 64 && c != PAD && c != LF && c != CR
  {
    if 65 <= c <= 90 then Some(c - 65)
    else if 97 <= c <= 122 then Some(c - 97 + 26)
    else if 48 <= c <= 57 then Some(c - 48 + 52)
    else if c == 43 then Some(62)
    else if c == 47 then Some(63)
    else None
  }

  lemma ValueExact(c: byte)
    requires Value(c).Some?
    ensures Digit(Value(c).value) == c
  {
  }

  const CAPITALS: string := "ABCDEFGHIJKLMNOPQRSTUVWXYZ"
  const SMALL: string := "abcdefghijklmnopqrstuvwxyz"
  const FIGURES: string := "0123456789+/"

  /** The digits of the standard alphabet, in order. */
  const ALPHABET: string := CAPITALS + SMALL + FIGURES

  lemma CharacterIs(v: int)
    requires 0 <= v < 64
    ensures ALPHABET[v] as int == if v < 26 then 65 + v else if v < 52 then 97 + (v - 26) else FIGURES[v - 52] as int
  {
    if v < 26 {
      CapitalIs(v);
    } else if v < 52 {
      SmallIs(v - 26);
    }
    hide CAPITALS, SMALL;
  }

  lemma CapitalIs(v: int)
    requires 0 <= v < 26
    ensures CAPITALS[v] as int == 65 + v
  {
  }

  lemma SmallIs(v: int)
    requires 0 <= v < 26
    ensures SMALL[v] as int == 97 + v
  {
  }

  lemma DigitIs(v: int)
    requires 0 <= v < 64
    ensures Digit(v) == ALPHABET[v] as int
  {
    CharacterIs(v);
    hide ALPHABET;
  }

  lemma ValueIs(c: byte)
    ensures Value(c).Some? <==> exists v :: 0 <= v < 64 && ALPHABET[v] as int == c
    ensures Value(c).Some? ==> ALPHABET[Value(c).value] as int == c
  {
    hide Digit, Value;
    if Value(c).Some? {
      ValueExact(c);
      DigitIs(Value(c).value);
    }
    if v :| 0 <= v < 64 && ALPHABET[v] as int == c { DigitIs(v); }
  }

  // ---------------------------------------------------------------- encoding

  /** One, two or three bytes as a group of four characters. */
  function Group(b: seq<byte>): (r: seq<byte>)
    requires 1 <= |b| <= 3
    ensures |r| == 4 && Value(r[0]).Some? && Value(r[1]).Some?
    ensures forall k :: 0 <= k < 4 ==> r[k] != LF && r[k] != CR
  {
    var b1, b2 := if |b| > 1 then b[1] else 0, if |b| > 2 then b[2] else 0;
    [Digit(b[0] / 4), Digit(b[0] % 4 * 16 + b1 / 16),
     if |b| > 1 then Digit(b1 % 16 * 4 + b2 / 64) else PAD,
     if |b| > 2 then Digit(b2 % 64) else PAD]
  }

  function Encode(b: seq<byte>): (r: seq<byte>) {
    if b == [] then [] else if |b| <= 3 then Group(b) else Group(b[..3]) + Encode(b[3..])
  }

  /** The four digits are a number of 24 bits, the first one foremost; '=' stands in place of a digit past the n-th. */
  ghost predicate Digits(q: seq<byte>, n: nat, v: seq<int>) {
    && |q| == |v| == 4 && forall k :: 0 <= k < 4 ==> 0 <= v[k] < 64 && q[k] == (if k < n then ALPHABET[v[k]] else '=') as int
  }

  /** That number is the one, two or three bytes, the first one foremost, with zeros for those that are missing. */
  ghost predicate Spelled(q: seq<byte>, b: seq<byte>)
    requires 1 <= |b| <= 3
  {
    exists v ::
      && Digits(q, |b| + 1, v)
      && 0x40000 * v[0] + 0x1000 * v[1] + 0x40 * v[2] + v[3]
         == 0x10000 * b[0] as int + (if |b| > 1 then 0x100 * b[1] as int else 0) + (if |b| > 2 then b[2] as int else 0)
  }

  lemma BitsOf(x: byte, y: byte, z: byte)
    ensures x / 4 < 64 && x % 4 * 16 + y / 16 < 64 && y % 16 * 4 + z / 64 < 64 && z % 64 < 64
    ensures 0x40000 * (x / 4) + 0x1000 * (x % 4 * 16 + y / 16) + 0x40 * (y % 16 * 4 + z / 64) + z % 64
            == 0x10000 * x as int + 0x100 * y as int + z as int
  {
  }

  lemma GroupSpelled(b: seq<byte>)
    requires 1 <= |b| <= 3
    ensures Spelled(Group(b), b)
  {
    hide Digit, Value, ALPHABET;
    var x, y, z := b[0], if |b| > 1 then b[1] else 0, if |b| > 2 then b[2] else 0;
    BitsOf(x, y, z);
    var v := [x / 4, x % 4 * 16 + y / 16, y % 16 * 4 + z / 64, z % 64];
    DigitIs(v[0]);
    DigitIs(v[1]);
    DigitIs(v[2]);
    DigitIs(v[3]);
    assert Digits(Group(b), |b| + 1, v);
  }

  /** The i-th three bytes, or what is left of them at the end, are spelled by the i-th four characters. */
  ghost predicate SpelledAt(text: seq<byte>, b: seq<byte>, i: nat) {
    && 3 * i < |b| && 4 * i + 4 <= |text|
    && Spelled(text[4 * i..4 * i + 4], b[3 * i..if 3 * i + 3 < |b| then 3 * i + 3 else |b|])
  }

  lemma SpelledLater(q: seq<byte>, text: seq<byte>, a: seq<byte>, b: seq<byte>, i: nat)
    requires |q| == 4 && |a| == 3 && SpelledAt(text, b, i)
    ensures SpelledAt(q + text, a + b, i + 1)
  {
    hide Spelled;
    assert (q + text)[4 * (i + 1)..4 * (i + 1) + 4] == text[4 * i..4 * i + 4];
    var to := if 3 * i + 3 < |b| then 3 * i + 3 else |b|;
    assert (a + b)[3 * (i + 1)..to + 3] == b[3 * i..to];
  }

  lemma SpelledFirst(b: seq<byte>)
    requires b != []
    ensures SpelledAt(Encode(b), b, 0)
  {
    hide Spelled, Group;
    if |b| <= 3 {
      GroupSpelled(b);
      assert Encode(b)[0..4] == Encode(b) && b[0..|b|] == b;
    } else {
      GroupSpelled(b[..3]);
      assert Encode(b)[0..4] == Group(b[..3]) && b[0..3] == b[..3];
    }
  }

  /** The whole text is spelled, and has no more characters than that takes. */
  lemma {:induction false} EncodeSpells(b: seq<byte>, i: nat)
    ensures |Encode(b)| == (|b| + 2) / 3 * 4
    ensures 3 * i < |b| ==> SpelledAt(Encode(b), b, i)
    decreases |b|
  {
    hide SpelledAt, Group;
    if b != [] { SpelledFirst(b); }
    if |b| > 3 {
      EncodeSpells(b[3..], if i == 0 then 0 else i - 1);
      assert b == b[..3] + b[3..];
      if 0 < i && 3 * i < |b| { SpelledLater(Group(b[..3]), Encode(b[3..]), b[..3], b[3..], i - 1); }
    }
  }

  // ---------------------------------------------------------------- decoding

  function WithoutBreaks(s: seq<byte>): (r: seq<byte>) {
    if s == [] then [] else (if s[0] == LF || s[0] == CR then [] else [s[0]]) + WithoutBreaks(s[1..])
  }

  /** Line feeds and carriage returns, and nothing else, are left out. */
  lemma {:induction false} WithoutBreaksIs(s: seq<byte>, c: byte)
    ensures WithoutBreaks(s + [c]) == WithoutBreaks(s) + if c == 10 || c == 13 then [] else [c]
  {
    if s == [] {
      assert s + [c] == [c] && [c][1..] == [];
    } else {
      assert (s + [c])[1..] == s[1..] + [c];
      WithoutBreaksIs(s[1..], c);
    }
  }

  /** The bytes of one group; only the last may have padding. */
  function Ungroup(q: seq<byte>, last: bool): (r: Option<seq<byte>>)
    requires |q| == 4
    ensures r.Some? ==> 1 <= |r.value| <= 3 && (!last ==> |r.value| == 3)
  {
    match (Value(q[0]), Value(q[1]), Value(q[2]), Value(q[3]))
    case (Some(a), Some(b), Some(c), Some(d)) => Some([a * 4 + b / 16, b % 16 * 16 + c / 4, c % 4 * 64 + d])
    case (Some(a), Some(b), Some(c), None) =>
      if last && q[3] == PAD then Some([a * 4 + b / 16, b % 16 * 16 + c / 4]) else None
    case (Some(a), Some(b), None, _) =>
      if last && q[2] == PAD && q[3] == PAD then Some([a * 4 + b / 16]) else None
    case _ => None
  }

  function DecodeGroups(s: seq<byte>): (r: Option<seq<byte>>) {
    if s == [] then Some([])
    else if |s| < 4 then None
    else if |s| == 4 then Ungroup(s, true)
    else
      match (Ungroup(s[..4], false), DecodeGroups(s[4..]))
      case (Some(a), Some(b)) => Some(a + b)
      case _ => None
  }

  function Decode(s: seq<byte>): (r: Option<seq<byte>>) { DecodeGroups(WithoutBreaks(s)) }

  // ---------------------------------------------------------------- round trip

  /** Cutting three bytes into four digits loses nothing. */
  lemma DigitsOf(x: byte, y: byte, z: byte)
    ensures x / 4 * 4 + (x % 4 * 16 + y / 16) / 16 == x
    ensures (x % 4 * 16 + y / 16) % 16 * 16 + (y % 16 * 4 + z / 64) / 4 == y
    ensures (y % 16 * 4 + z / 64) % 4 * 64 + z % 64 == z
  {
  }

  lemma UngroupGroup(b: seq<byte>, last: bool)
    requires 1 <= |b| <= 3 && (!last ==> |b| == 3)
    ensures Ungroup(Group(b), last) == Some(b)
  {
    DigitsOf(b[0], if |b| > 1 then b[1] else 0, if |b| > 2 then b[2] else 0);
    hide Digit, Value;
    assert b == if |b| == 1 then [b[0]] else if |b| == 2 then [b[0], b[1]] else [b[0], b[1], b[2]];
  }

  lemma {:induction false} NoBreaks(s: seq<byte>)
    requires forall k :: 0 <= k < |s| ==> s[k] != LF && s[k] != CR
    ensures WithoutBreaks(s) == s
  {
    if s != [] { NoBreaks(s[1..]); }
  }

  lemma {:induction false} EncodeHasNoBreaks(b: seq<byte>)
    ensures forall k :: 0 <= k < |Encode(b)| ==> Encode(b)[k] != LF && Encode(b)[k] != CR
  {
    if |b| > 3 { EncodeHasNoBreaks(b[3..]); }
  }

  lemma {:induction false} DecodeGroupsEncode(b: seq<byte>)
    ensures DecodeGroups(Encode(b)) == Some(b)
  {
    if b == [] {
    } else if |b| <= 3 {
      UngroupGroup(b, true);
    } else {
      UngroupGroup(b[..3], false);
      DecodeGroupsEncode(b[3..]);
      var g, rest := Group(b[..3]), Encode(b[3..]);
      assert rest != [];
      assert Encode(b)[..4] == g && Encode(b)[4..] == rest;
      assert b == b[..3] + b[3..];
    }
  }

  /** Every byte sequence survives encoding and decoding. */
  lemma DecodeEncode(b: seq<byte>)
    ensures Decode(Encode(b)) == Some(b)
  {
    EncodeHasNoBreaks(b);
    NoBreaks(Encode(b));
    DecodeGroupsEncode(b);
  }

  // ---------------------------------------------------------------- the other way round

  /** The bits of a padded group that stand for no byte are zero. */
  predicate SpareBitsZero(q: seq<byte>)
    requires |q| == 4
  {
    && (q[2] == PAD && Value(q[1]).Some? ==> Value(q[1]).value % 16 == 0)
    && (q[2] != PAD && q[3] == PAD && Value(q[2]).Some? ==> Value(q[2]).value % 4 == 0)
  }

  lemma DigitsBack(a: int, b: int, c: int, d: int)
    requires 0 <= a < 64 && 0 <= b < 64 && 0 <= c < 64 && 0 <= d < 64
    ensures (a * 4 + b / 16) / 4 == a
    ensures (a * 4 + b / 16) % 4 * 16 + (b % 16 * 16 + c / 4) / 16 == b
    ensures (b % 16 * 16 + c / 4) % 16 * 4 + (c % 4 * 64 + d) / 64 == c
    ensures (c % 4 * 64 + d) % 64 == d
    ensures (b % 16 * 16 + c / 4) % 16 * 4 == c <==> c % 4 == 0
    ensures (a * 4 + b / 16) % 4 * 16 == b <==> b % 16 == 0
  {
  }

  lemma DigitInjective(v: int, c: byte)
    requires 0 <= v < 64 && Value(c).Some?
    ensures Digit(v) == c <==> v == Value(c).value
  {
    ValueExact(c);
  }

  lemma GroupUngroup(q: seq<byte>, last: bool)
    requires |q| == 4 && Ungroup(q, last).Some?
    ensures Group(Ungroup(q, last).value) == q <==> SpareBitsZero(q)
  {
    hide Digit, Value;
    var a, b := Value(q[0]).value, Value(q[1]).value;
    assert q == [q[0], q[1], q[2], q[3]];
    DigitInjective(a, q[0]);
    if Value(q[2]).None? {
      DigitsBack(a, b, 0, 0);
      DigitInjective((a * 4 + b / 16) % 4 * 16, q[1]);
    } else if Value(q[3]).None? {
      DigitInjective(b, q[1]);
      DigitsBack(a, b, Value(q[2]).value, 0);
      DigitInjective((b % 16 * 16 + Value(q[2]).value / 4) % 16 * 4, q[2]);
    } else {
      DigitInjective(b, q[1]);
      DigitInjective(Value(q[2]).value, q[2]);
      DigitInjective(Value(q[3]).value, q[3]);
      DigitsBack(a, b, Value(q[2]).value, Value(q[3]).value);
    }
  }

  /** No line breaks, and zero bits where the last group stands for no byte. */
  predicate Canonical(s: seq<byte>) {
    WithoutBreaks(s) == s && (|s| >= 4 ==> SpareBitsZero(s[|s| - 4..]))
  }

  lemma {:induction false} EncodeDecodeGroups(s: seq<byte>)
    requires DecodeGroups(s).Some?
    ensures |s| >= 4 || s == []
    ensures Encode(DecodeGroups(s).value) == s <==> (s == [] || SpareBitsZero(s[|s| - 4..]))
  {
    if |s| == 4 {
      GroupUngroup(s, true);
      assert s[0..] == s;
    } else if s != [] {
      var a, rest := Ungroup(s[..4], false).value, DecodeGroups(s[4..]).value;
      GroupUngroup(s[..4], false);
      EncodeDecodeGroups(s[4..]);
      assert rest != [];
      assert (a + rest)[..3] == a && (a + rest)[3..] == rest;
      assert Encode(a + rest) == Group(a) + Encode(rest);
      assert s == s[..4] + s[4..] && s[4..][|s| - 8..] == s[|s| - 4..];
      if Encode(rest) == s[4..] { } else { assert (Group(a) + Encode(rest))[4..] == Encode(rest); }
    }
  }

  /** Accepted text is what the encoder would have produced exactly when it is canonical. */
  lemma EncodeDecodeIff(s: seq<byte>)
    requires Decode(s).Some?
    ensures Encode(Decode(s).value) == s <==> Canonical(s)
  {
    EncodeDecodeGroups(WithoutBreaks(s));
    if Encode(Decode(s).value) == s {
      EncodeHasNoBreaks(Decode(s).value);
      NoBreaks(s);
    }
  }

  // ---------------------------------------------------------------- what the decoder accepts

  /** Digits whose values agree but for the lower part. */
  predicate SameHigh(c: byte, d: byte, n: nat)
    requires n > 0
  {
    Value(c).Some? && Value(d).Some? && Value(c).value / n == Value(d).value / n
  }

  /** Character by character as encoded, except that the last digit of a padded text may have any spare bits. */
  ghost predicate SameButSpare(t: seq<byte>, b: seq<byte>) {
    && |t| == |Encode(b)|
    && forall j :: 0 <= j < |t| ==>
         || t[j] == Encode(b)[j]
         || (|b| % 3 == 1 && j == |t| - 3 && SameHigh(t[j], Encode(b)[j], 16))
         || (|b| % 3 == 2 && j == |t| - 2 && SameHigh(t[j], Encode(b)[j], 4))
  }

  /** A digit of an encoded group is recognised by its value. */
  lemma SameDigit(c: byte, v: int)
    requires 0 <= v < 64
    ensures c == Digit(v) <==> Value(c) == Some(v)
  {
    if Value(c).Some? { DigitInjective(v, c); }
  }

  /** Four characters against the bytes they stand for. */
  predicate LooseGroup(q: seq<byte>, b: seq<byte>)
    requires |q| == 4 && 1 <= |b| <= 3
  {
    var e := Group(b);
    && q[0] == e[0] && (q[1] == e[1] || (|b| == 1 && SameHigh(q[1], e[1], 16)))
    && (q[2] == e[2] || (|b| == 2 && SameHigh(q[2], e[2], 4))) && q[3] == e[3]
  }

  lemma GroupDigits(q: seq<byte>, b: seq<byte>)
    requires |q| == 4 && 1 <= |b| <= 3
    ensures var x, y, z := b[0], if |b| > 1 then b[1] else 0, if |b| > 2 then b[2] else 0;
            LooseGroup(q, b) <==>
            && Value(q[0]) == Some(x / 4) && Value(q[1]).Some?
            && (if |b| == 1 then Value(q[1]).value / 16 == x % 4 else Value(q[1]).value == x % 4 * 16 + y / 16)
            && (if |b| == 1 then q[2] == PAD else
                  && Value(q[2]).Some?
                  && if |b| == 2 then Value(q[2]).value / 4 == y % 16 else Value(q[2]).value == y % 16 * 4 + z / 64)
            && if |b| < 3 then q[3] == PAD else Value(q[3]) == Some(z % 64)
  {
    hide Digit, Value;
    var x, y, z := b[0], if |b| > 1 then b[1] else 0, if |b| > 2 then b[2] else 0;
    SameDigit(q[0], x / 4);
    SameDigit(q[1], x % 4 * 16 + y / 16);
    SameDigit(q[2], y % 16 * 4 + z / 64);
    SameDigit(q[3], z % 64);
  }

  lemma UngroupLoose(q: seq<byte>, b: seq<byte>, last: bool)
    requires |q| == 4 && 1 <= |b| <= 3
    ensures Ungroup(q, last) == Some(b) <==> LooseGroup(q, b) && (last || |b| == 3)
  {
    hide Digit, Value, LooseGroup;
    GroupDigits(q, b);
    assert b == if |b| == 1 then [b[0]] else if |b| == 2 then [b[0], b[1]] else [b[0], b[1], b[2]];
  }

  lemma LooseWhole(t: seq<byte>, b: seq<byte>)
    requires 1 <= |b| <= 3
    ensures SameButSpare(t, b) <==> |t| == 4 && LooseGroup(t, b)
  {
    hide Group, SameHigh;
  }

  lemma LooseFirst(t: seq<byte>, b: seq<byte>)
    requires |b| > 3 && |t| > 4
    ensures SameButSpare(t, b) <==> LooseGroup(t[..4], b[..3]) && SameButSpare(t[4..], b[3..])
  {
    hide Group, SameHigh;
    var g, e, u := Group(b[..3]), Encode(b[3..]), t[4..];
    assert Encode(b) == g + e;
    if |t| == 4 + |e| {
      forall j | 0 <= j < |u| ensures u[j] == t[j + 4] && e[j] == Encode(b)[j + 4] { }
    }
  }

  lemma DecodedNotEmpty(t: seq<byte>)
    requires t != [] && DecodeGroups(t).Some?
    ensures DecodeGroups(t).value != []
  {
  }

  /** One group more. */
  lemma DecodeStep(t: seq<byte>, b: seq<byte>)
    requires |t| > 4
    ensures DecodeGroups(t) == Some(b) <==>
            |b| > 3 && Ungroup(t[..4], false) == Some(b[..3]) && DecodeGroups(t[4..]) == Some(b[3..])
  {
    hide Ungroup;
    if |b| > 3 { assert b == b[..3] + b[3..]; }
    if DecodeGroups(t) == Some(b) {
      DecodedNotEmpty(t[4..]);
      var a, rest := Ungroup(t[..4], false).value, DecodeGroups(t[4..]).value;
      assert b[..3] == a && b[3..] == rest;
    }
  }

  lemma {:induction false} DecodeGroupsIff(t: seq<byte>, b: seq<byte>)
    ensures DecodeGroups(t) == Some(b) <==> SameButSpare(t, b)
  {
    hide Ungroup, LooseGroup, Group;
    EncodeSpells(b, 0);
    if |t| > 4 {
      DecodeStep(t, b);
      if |b| > 3 {
        hide SameButSpare, DecodeGroups, Encode;
        UngroupLoose(t[..4], b[..3], false);
        DecodeGroupsIff(t[4..], b[3..]);
        LooseFirst(t, b);
      }
    } else if |t| == 4 && 1 <= |b| <= 3 {
      hide SameButSpare, Encode;
      UngroupLoose(t, b, true);
      LooseWhole(t, b);
    }
  }

  /**
   The decoder accepts exactly this: line breaks aside, the encoded form of its result, but for the spare bits
   of the last digit.
   */
  lemma DecodeIff(s: seq<byte>, b: seq<byte>)
    ensures Decode(s) == Some(b) <==> SameButSpare(WithoutBreaks(s), b)
  {
    DecodeGroupsIff(WithoutBreaks(s), b);
  }
}
