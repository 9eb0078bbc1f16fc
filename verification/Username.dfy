/** The scheduler's SOCKS5 username scheme: `<user_id>_<country>_<minutes>_<session>`. */
module Username {
  import opened Wrappers
  import opened Int64
  import opened Text

  datatype UserToken = UserToken(userID: string, country: string, duration: int, session: string) {
    /** The credential lookup key. */
    function AuthKey(): string { userID + ":" + session }

    /** The sticky-binding key. */
    function UserKey(): string { AuthKey() }
  }

  /** The ways a username is refused; callers treat all of them as one error. */
  datatype BadUsername = Malformed | BadCountry(country: string) | BadDuration(text: string) | BadSession(session: string)

  const MINUTE: int := 60_000_000_000
  const MIN_DURATION: int := 5 * MINUTE
  const MAX_DURATION: int := 90 * MINUTE
  const SESSION_LEN := 8

  predicate IsLetter(c: char) { 'a' <= c <= 'z' || 'A' <= c <= 'Z' }

  predicate IsASCIILetters(s: string) { forall k :: 0 <= k < |s| ==> IsLetter(s[k]) }

  predicate IsAlnum(s: string) { forall k :: 0 <= k < |s| ==> IsLetter(s[k]) || IsDigit(s[k]) }

  function Upper(c: char): (r: char)
    requires IsLetter(c)
    ensures 'A' <= r <= 'Z'
  {
    if 'a' <= c <= 'z' then (c as int - 32) as char else c
  }

  function ToUpper(s: string): (r: string)
    requires IsASCIILetters(s)
    ensures |r| == |s| && forall k :: 0 <= k < |r| ==> 'A' <= r[k] <= 'Z'
  {
    if s == "" then "" else [Upper(s[0])] + ToUpper(s[1..])
  }

  lemma {:induction false} ToUpperFixed(s: string)
    requires forall k :: 0 <= k < |s| ==> 'A' <= s[k] <= 'Z'
    ensures IsASCIILetters(s) && ToUpper(s) == s
  {
    if s != "" { ToUpperFixed(s[1..]); }
  }

  // ---------------------------------------------------------------- duration

  function Clamp(d: int): (r: int)
    ensures MIN_DURATION <= r <= MAX_DURATION
    ensures MIN_DURATION <= d <= MAX_DURATION ==> r == d
  {
    if d < MIN_DURATION then MIN_DURATION else if d > MAX_DURATION then MAX_DURATION else d
  }

  /** The sticky window for a request of so many minutes; the product is 64-bit. */
  function Window(minutes: int): (r: int)
    ensures MIN_DURATION <= r <= MAX_DURATION
  {
    Clamp(Wrap64(minutes * MINUTE))
  }

  const LAST_EXACT_MINUTES: int := 153_722_867

  /**
   The window is the clamp of the minutes asked for exactly when the 64-bit product did not overflow, or
   overflowed to something that is itself past the upper bound.
   */
  lemma WindowExactIff(minutes: int)
    requires 0 < minutes <= MAX_INT64
    ensures Window(minutes) == Clamp(minutes * MINUTE) <==>
            minutes <= LAST_EXACT_MINUTES || Wrap64(minutes * MINUTE) >= MAX_DURATION
  {
  }

  // ---------------------------------------------------------------- parsing

  function ParseCountry(country: string): Option<string> {
    if country == "" || country == "000" then Some("")
    else if |country| == 2 && IsASCIILetters(country) then Some(ToUpper(country))
    else None
  }

  /** The decision once the four fields are known, in the order the checks are made. */
  function FromFields(userID: string, country: string, minutes: string, session: string)
    : (r: Result<UserToken, BadUsername>)
  {
    match ParseCountry(country)
    case None => Err(BadCountry(country))
    case Some(c) =>
      match Atoi(minutes)
      case None => Err(BadDuration(minutes))
      case Some(m) =>
        if m <= 0 then Err(BadDuration(minutes))
        else if |session| != SESSION_LEN || !IsAlnum(session) then Err(BadSession(session))
        else if userID == "" then Err(Malformed)
        else Ok(UserToken(userID, c, Window(m), session))
  }

  /** User id, country, minutes and session, by peeling three segments off the right. */
  function Fields(s: string): (r: Option<(string, string, string, string)>)
    ensures r.Some? ==> s == r.value.0 + [SEP] + r.value.1 + [SEP] + r.value.2 + [SEP] + r.value.3
  {
    match PeelLast(s)
    case None => None
    case Some(a) =>
      match PeelLast(a.0)
      case None => None
      case Some(b) =>
        match PeelLast(b.0)
        case None => None
        case Some(c) => Some((c.0, c.1, b.1, a.1))
  }

  /** Reference parser: the last three segments are peeled off the right, the rest is the user id. */
  function Parse(s: string): (r: Result<UserToken, BadUsername>)
    ensures r.Ok? ==> WellFormed(r.value)
  {
    var s := TrimSpace(s);
    match Fields(s)
    case None => Err(Malformed)
    case Some(f) =>
      assert f.0 != "" ==> f.0[0] == s[0];
      FromFields(f.0, f.1, f.2, f.3)
  }

  /** What every parsed token satisfies. */
  predicate WellFormed(tok: UserToken) {
    && tok.userID != "" && !IsSpace(tok.userID[0])
    && ValidFields(tok)
  }

  predicate ValidFields(tok: UserToken) {
    && (tok.country == "" || (|tok.country| == 2 && forall k :: 0 <= k < 2 ==> 'A' <= tok.country[k] <= 'Z'))
    && MIN_DURATION <= tok.duration <= MAX_DURATION
    && |tok.session| == SESSION_LEN && IsAlnum(tok.session)
  }

  // ---------------------------------------------------------------- the scheme, written out

  /** The four fields; only the user id may have underscores. */
  ghost predicate Segments(s: string, userID: string, country: string, minutes: string, session: string) {
    && s == userID + ['_'] + country + ['_'] + minutes + ['_'] + session
    && '_' !in country && '_' !in minutes && '_' !in session
  }

  ghost predicate CountryFits(f: string) {
    || f == "" || f == "000"
    || (|f| == 2 && forall k :: 0 <= k < 2 ==> 'a' <= f[k] <= 'z' || 'A' <= f[k] <= 'Z')
  }

  /** Any country, or the two letters with the small ones made capitals. */
  ghost predicate CountryIs(f: string, c: string) {
    if f == "" || f == "000" then c == ""
    else |f| == |c| == 2 && forall k :: 0 <= k < 2 ==> c[k] as int == if 'A' <= f[k] <= 'Z' then f[k] as int else f[k] as int - 32
  }

  ghost predicate MinutesFit(f: string) { Atoi(f).Some? && Atoi(f).value >= 1 }

  /**
   In nanoseconds: five minutes for less than that, ninety for more, and the minutes themselves in between.
   Past 153722867 minutes, it is the 64-bit product that is cut to these bounds.
   */
  ghost predicate DurationIs(m: int, d: int) {
    if m < 5 then d == 300_000_000_000
    else if m <= 90 then d == m * 60_000_000_000
    else if m <= 153_722_867 then d == 5_400_000_000_000
    else
      var p := Wrap64(m * 60_000_000_000);
      d == if p < 300_000_000_000 then 300_000_000_000 else if p > 5_400_000_000_000 then 5_400_000_000_000 else p
  }

  ghost predicate SessionFits(x: string) {
    |x| == 8 && forall k :: 0 <= k < 8 ==> 'a' <= x[k] <= 'z' || 'A' <= x[k] <= 'Z' || '0' <= x[k] <= '9'
  }

  /** The one answer for four fields: the first of them that does not fit is refused, the user id last. */
  ghost predicate Answers(userID: string, country: string, minutes: string, session: string,
                          r: Result<UserToken, BadUsername>)
  {
    if !CountryFits(country) then r == Err(BadCountry(country))
    else if !MinutesFit(minutes) then r == Err(BadDuration(minutes))
    else if !SessionFits(session) then r == Err(BadSession(session))
    else if userID == "" then r == Err(Malformed)
    else
      && r.Ok? && r.value.userID == userID && r.value.session == session
      && CountryIs(country, r.value.country) && DurationIs(Atoi(minutes).value, r.value.duration)
  }

  lemma {:induction false} ToUpperAt(f: string, k: nat)
    requires IsASCIILetters(f) && k < |f|
    ensures ToUpper(f)[k] as int == if 'A' <= f[k] <= 'Z' then f[k] as int else f[k] as int - 32
  {
    if k > 0 { ToUpperAt(f[1..], k - 1); }
  }

  lemma CountryAnswers(f: string)
    ensures ParseCountry(f).Some? <==> CountryFits(f)
    ensures ParseCountry(f).Some? ==> CountryIs(f, ParseCountry(f).value)
  {
    if |f| == 2 && IsASCIILetters(f) {
      ToUpperAt(f, 0);
      ToUpperAt(f, 1);
    }
  }

  lemma DurationAnswers(m: int)
    requires m >= 1
    ensures DurationIs(m, Window(m))
  {
  }

  lemma FieldsAnswer(userID: string, country: string, minutes: string, session: string)
    ensures Answers(userID, country, minutes, session, FromFields(userID, country, minutes, session))
  {
    hide ParseCountry, CountryFits, CountryIs, Atoi, DurationIs, Window;
    CountryAnswers(country);
    if MinutesFit(minutes) { DurationAnswers(Atoi(minutes).value); }
  }

  /**
   The scheme decides: text that has no four fields is malformed, and on text that has them the answer is the
   one above, whichever way they are found.
   */
  lemma ParseAnswers(username: string)
    ensures Parse(username) != Err(Malformed) ==> exists u, c, m, x :: Segments(TrimSpace(username), u, c, m, x)
    ensures forall u, c, m, x :: Segments(TrimSpace(username), u, c, m, x) ==> Answers(u, c, m, x, Parse(username))
  {
    hide Answers, FromFields;
    var s := TrimSpace(username);
    if Fields(s).Some? {
      var f := Fields(s).value;
      assert Segments(s, f.0, f.1, f.2, f.3);
    }
    forall u, c, m, x | Segments(s, u, c, m, x) ensures Answers(u, c, m, x, Parse(username)) {
      PeelLastUnique(u + ['_'] + c + ['_'] + m, x);
      PeelLastUnique(u + ['_'] + c, m);
      PeelLastUnique(u, c);
      FieldsAnswer(u, c, m, x);
    }
  }

  /** `ParseUsername` splits at every separator and joins all but three of the pieces again. */
  method ParseUsername(username: string) returns (r: Result<UserToken, BadUsername>)
    ensures r == Parse(username)
    ensures r != Err(Malformed) ==> exists u, c, m, x :: Segments(TrimSpace(username), u, c, m, x)
    ensures forall u, c, m, x :: Segments(TrimSpace(username), u, c, m, x) ==> Answers(u, c, m, x, r)
  {
    hide Answers, Segments, Atoi, TrimSpace, Split, Join, Fields, ToUpper, IsAlnum, IsASCIILetters;
    ParseAnswers(username);
    var s := TrimSpace(username);
    if s == "" { return Err(Malformed); }
    var parts := Split(s);
    SegmentsByPeeling(s);
    if |parts| < 4 { return Err(Malformed); }
    var session := parts[|parts| - 1];
    var durStr := parts[|parts| - 2];
    var country := parts[|parts| - 3];
    var userParts := parts[..|parts| - 3];
    assert userParts == Split(Fields(s).value.0);
    var userID := Join(userParts);
    var tok := UserToken(userID, "", 0, session);
    if country == "" || country == "000" {
      tok := tok.(country := "");
    } else if |country| == 2 && IsASCIILetters(country) {
      tok := tok.(country := ToUpper(country));
    } else {
      return Err(BadCountry(country));
    }
    var mins := Atoi(durStr);
    if mins.None? || mins.value <= 0 { return Err(BadDuration(durStr)); }
    var d := Wrap64(mins.value * MINUTE);
    if d < MIN_DURATION { d := MIN_DURATION; }
    if d > MAX_DURATION { d := MAX_DURATION; }
    tok := tok.(duration := d);
    if |session| != SESSION_LEN || !IsAlnum(session) { return Err(BadSession(session)); }
    if userID == "" { return Err(Malformed); }
    return Ok(tok);
  }

  /** Three peels and one split name the same four fields. */
  lemma SegmentsByPeeling(s: string)
    ensures Fields(s).None? ==> |Split(s)| < 4
    ensures Fields(s).Some? ==>
              var f := Fields(s).value;
              Split(s) == Split(f.0) + [f.1, f.2, f.3] && Join(Split(f.0)) == f.0
  {
    hide PeelLast, Join;
    PeelSplit(s);
    if PeelLast(s).Some? {
      var a := PeelLast(s).value;
      PeelSplit(a.0);
      if PeelLast(a.0).Some? {
        var b := PeelLast(a.0).value;
        PeelSplit(b.0);
        if PeelLast(b.0).Some? {
          var c := PeelLast(b.0).value;
          JoinSplit(c.0);
          assert Split(s) == Split(c.0) + [c.1, b.1, a.1];
        }
      }
    }
  }

  // ---------------------------------------------------------------- printing

  function Print(tok: UserToken): string
    requires tok.duration >= 0
  {
    tok.userID + [SEP] + tok.country + [SEP] + Decimal(tok.duration / MINUTE) + [SEP] + tok.session
  }

  lemma ParseFields(userID: string, country: string, minutes: string, session: string)
    requires userID != "" && !IsSpace(userID[0])
    requires session != "" && !IsSpace(session[|session| - 1])
    requires SEP !in country && SEP !in minutes && SEP !in session
    ensures Parse(userID + [SEP] + country + [SEP] + minutes + [SEP] + session)
            == FromFields(userID, country, minutes, session)
  {
    var s := userID + [SEP] + country + [SEP] + minutes + [SEP] + session;
    TrimSpaceFixed(s);
    PeelLastUnique(userID + [SEP] + country + [SEP] + minutes, session);
    PeelLastUnique(userID + [SEP] + country, minutes);
    PeelLastUnique(userID, country);
  }

  /** Parsing what was printed gives the token back, cut down to whole minutes. */
  lemma ParsePrint(tok: UserToken)
    requires WellFormed(tok)
    ensures Parse(Print(tok)) == Ok(tok.(duration := tok.duration / MINUTE * MINUTE))
  {
    hide Parse, Atoi, Decimal;
    var m := tok.duration / MINUTE;
    AtoiDecimal(m);
    assert Window(m) == m * MINUTE;
    assert ParseCountry(tok.country) == Some(tok.country) by {
      if tok.country != "" { ToUpperFixed(tok.country); }
    }
    ParseFields(tok.userID, tok.country, Decimal(m), tok.session);
  }

  /**
   Printing and parsing is the identity on exactly the tokens with a user id that is not empty, does not
   start with white space (underscores are allowed), and a window of whole minutes.
   */
  lemma PrintParseRoundTrip(tok: UserToken)
    requires ValidFields(tok)
    ensures Parse(Print(tok)) == Ok(tok) <==> tok.userID != "" && !IsSpace(tok.userID[0]) && tok.duration % MINUTE == 0
  {
    hide Parse, Print;
    if WellFormed(tok) { ParsePrint(tok); }
  }

  lemma WholeMinutes(minutes: int)
    requires 0 < minutes <= LAST_EXACT_MINUTES
    ensures Window(minutes) % MINUTE == 0
  {
    assert Wrap64(minutes * MINUTE) == minutes * MINUTE;
    assert minutes * MINUTE % MINUTE == 0;
  }

  /** The number of minutes an accepted username asks for. */
  function MinutesAsked(s: string): (m: int)
    requires Parse(s).Ok?
    ensures 0 < m <= MAX_INT64
  {
    Atoi(Fields(TrimSpace(s)).value.2).value
  }

  /**
   parse . print . parse == parse on exactly the accepted usernames whose window is a whole number of
   minutes. Every username that asks for at most LAST_EXACT_MINUTES minutes is one of them, whatever its
   sign, leading zeros, letter case or spelling of "any country".
   */
  lemma ParseIsCanonical(s: string)
    requires Parse(s).Ok?
    ensures Parse(Print(Parse(s).value)) == Parse(s) <==> Window(MinutesAsked(s)) % MINUTE == 0
    ensures MinutesAsked(s) <= LAST_EXACT_MINUTES ==> Parse(Print(Parse(s).value)) == Parse(s)
  {
    PrintParseRoundTrip(Parse(s).value);
    if MinutesAsked(s) <= LAST_EXACT_MINUTES { WholeMinutes(MinutesAsked(s)); }
  }

  /** A username that asks for n minutes, in the form the parser receives it. */
  function Asking(n: nat): string { "u__" + Decimal(n) + "_Ab000001" }

  lemma AskingFields(n: nat)
    requires 0 < n <= MAX_INT64
    ensures FromFields("u", "", Decimal(n), "Ab000001") == Ok(UserToken("u", "", Window(n), "Ab000001"))
  {
    hide Decimal, Atoi;
    AtoiDecimal(n);
  }

  lemma AskingAccepted(n: nat)
    requires 0 < n <= MAX_INT64
    ensures Parse(Asking(n)) == Ok(UserToken("u", "", Window(n), "Ab000001"))
  {
    hide Parse, FromFields, Decimal;
    AskingFields(n);
    ParseFields("u", "", Decimal(n), "Ab000001");
    assert "u" + [SEP] + "" + [SEP] + Decimal(n) + [SEP] + "Ab000001" == Asking(n);
  }

  /** The first request that overflows asks for 292 years and is held for five minutes, not ninety. */
  lemma WindowOverflows()
    ensures Parse(Asking(LAST_EXACT_MINUTES + 1)) == Ok(UserToken("u", "", MIN_DURATION, "Ab000001"))
    ensures Clamp((LAST_EXACT_MINUTES + 1) * MINUTE) == MAX_DURATION
  {
    hide Parse, Decimal, Asking;
    AskingAccepted(LAST_EXACT_MINUTES + 1);
  }

  /**
   A request that wraps past 64 bits into the allowed range is held for 5 minutes 26 seconds, and its printed
   form asks for five minutes.
   */
  lemma FractionalWindow()
    ensures Parse(Asking(307_445_740)).Ok? && Parse(Asking(307_445_740)).value.duration == 326_290_448_384
    ensures Parse(Print(Parse(Asking(307_445_740)).value)) == Ok(UserToken("u", "", 5 * MINUTE, "Ab000001"))
  {
    hide Parse, Print, Decimal, Asking;
    AskingAccepted(307_445_740);
    ParsePrint(Parse(Asking(307_445_740)).value);
  }

  // ---------------------------------------------------------------- identity

  /** The key determines the account, even when the user id itself contains ':'. */
  lemma AuthKeyInjective(a: UserToken, b: UserToken)
    requires WellFormed(a) && WellFormed(b)
    ensures a.AuthKey() == b.AuthKey() <==> a.userID == b.userID && a.session == b.session
  {
    if a.AuthKey() == b.AuthKey() {
      var k, n := a.AuthKey(), |a.AuthKey()| - SESSION_LEN;
      assert k[n..] == a.session && k[n..] == b.session;
      assert k[..n - 1] == a.userID && k[..n - 1] == b.userID;
    }
  }

  /** No key of a parsed token is changed by trimming. */
  lemma AuthKeyTrimmed(tok: UserToken)
    requires WellFormed(tok)
    ensures TrimSpace(tok.AuthKey()) == tok.AuthKey() && tok.AuthKey() != ""
  {
    TrimSpaceFixed(tok.AuthKey());
  }
}
