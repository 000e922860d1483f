/**
 The opaque page token handed to clients: the cursor record as a JSON object, in unpadded
 URL-safe base64. Decoding covers the object shape that encoding produces.
 */
module PageTokens {
  import opened Wrappers
  import opened Time
  import opened Repository
  import Base64Url
  import Calendar

  datatype CodecError = Unencodable | BadBase64 | BadJson

  // ---------- strings and bytes ----------

  predicate Ascii(s: string) {
    forall i :: 0 <= i < |s| ==> s[i] < 128 as char
  }

  function ToBytes(s: string): (b: seq<Base64Url.Byte>)
    requires Ascii(s)
    ensures |b| == |s|
  {
    seq(|s|, i requires 0 <= i < |s| => s[i] as int)
  }

  function FromBytes(b: seq<Base64Url.Byte>): (s: string)
    ensures |s| == |b|
  {
    seq(|b|, i requires 0 <= i < |b| => b[i] as char)
  }

  lemma FromBytesToBytes(s: string)
    requires Ascii(s)
    ensures FromBytes(ToBytes(s)) == s
  {
  }

  // ---------- integers ----------

  function Digits(n: nat): (s: string)
    ensures s != "" && Calendar.AllDigits(s)
  {
    if n < 10 then [Calendar.DigitChar(n)] else Digits(n / 10) + [Calendar.DigitChar(n % 10)]
  }

  function Decimal(n: int): (s: string)
    ensures s != "" && s[0] != 'n'
  {
    if n < 0 then "-" + Digits(-n) else Digits(n)
  }

  /** JSON allows no leading zeros. */
  function ParseDecimal(s: string): Option<int> {
    var (negative, digits) := if s != "" && s[0] == '-' then (true, s[1..]) else (false, s);
    if digits == "" || !Calendar.AllDigits(digits) || (|digits| > 1 && digits[0] == '0') then None
    else
      var n: int := if negative then -(Calendar.Value(digits) as int) else Calendar.Value(digits);
      if IsInt64(n) then Some(n) else None
  }

  lemma {:induction false} DigitsValue(n: nat)
    ensures Calendar.Value(Digits(n)) == n
    ensures |Digits(n)| > 1 ==> n >= 10 && Digits(n)[0] != '0'
    ensures n > 0 ==> Digits(n)[0] != '0'
  {
    var s := Digits(n);
    if n >= 10 {
      DigitsValue(n / 10);
      assert s[..|s| - 1] == Digits(n / 10);
    }
  }

  /** Digits as they are written are read, with or without a minus before them. */
  lemma DigitsRead(s: string, n: nat)
    requires s != "" && Calendar.AllDigits(s) && (|s| > 1 ==> s[0] != '0') && Calendar.Value(s) == n
    ensures IsInt64(n) ==> ParseDecimal(s) == Some(n)
    ensures IsInt64(-(n as int)) ==> ParseDecimal("-" + s) == Some(-(n as int))
  {
    assert ("-" + s)[1..] == s;
    hide Calendar.Value;
  }

  lemma DecimalRoundTrip(n: int)
    requires IsInt64(n)
    ensures ParseDecimal(Decimal(n)) == Some(n)
  {
    var k := if n < 0 then -n else n;
    DigitsValue(k);
    hide ParseDecimal, Digits, Calendar.Value;
    DigitsRead(Digits(k), k);
  }

  // ---------- the JSON object ----------

  const TIME_KEY := "{\"LastTime\":"
  const ID_KEY := ",\"LastID\":"

  function TimeJson(t: Option<Instant>): string
    requires t.Some? ==> Calendar.Encodable(Unix(t.value))
  {
    match t
    case None => "null"
    case Some(v) => "\"" + Calendar.Format(Calendar.FromSeconds(Unix(v))) + "\""
  }

  function IdJson(id: Option<int>): string {
    match id
    case None => "null"
    case Some(n) => Decimal(n)
  }

  function StripPrefix(s: string, prefix: string): Option<string> {
    if prefix <= s then Some(s[|prefix|..]) else None
  }

  /** A JSON time or null at the front of the text, and the text after it. */
  function ParseTime(s: string): Option<(Option<Instant>, string)> {
    if "null" <= s then Some((None, s[4..]))
    else if |s| >= 22 && s[0] == '"' && s[21] == '"' then
      match Calendar.Parse(s[1..21])
      case None => None
      case Some(d) =>
        if Calendar.ValidDateTime(d) then Some((Some(FromUnix(Calendar.ToSeconds(d))), s[22..])) else None
    else None
  }

  function ParseId(s: string): Option<Option<int>> {
    if s == "null" then Some(None)
    else
      match ParseDecimal(s)
      case None => None
      case Some(n) => Some(Some(n))
  }

  function ParseObject(s: string): Option<PageToken> {
    match StripPrefix(s, TIME_KEY)
    case None => None
    case Some(afterKey) =>
      match ParseTime(afterKey)
      case None => None
      case Some((time, afterTime)) =>
        match StripPrefix(afterTime, ID_KEY)
        case None => None
        case Some(tail) =>
          if tail == "" || tail[|tail| - 1] != '}' then None
          else
            match ParseId(tail[..|tail| - 1])
            case None => None
            case Some(id) => Some(PageToken(time, id))
  }

  // ---------- the codec ----------

  /** Marshalling a time outside years 0 to 9999 is an error. */
  predicate HasText(t: PageToken) {
    t.lastTime.Some? ==> Calendar.Encodable(Unix(t.lastTime.value))
  }

  function Json(t: PageToken): string
    requires HasText(t)
  {
    TIME_KEY + TimeJson(t.lastTime) + ID_KEY + IdJson(t.lastId) + "}"
  }

  function EncodePageToken(t: PageToken): Result<string, CodecError> {
    if !HasText(t) then Err(Unencodable)
    else
      JsonAscii(t);
      Ok(Base64Url.Encode(ToBytes(Json(t))))
  }

  function DecodePageToken(s: string): Result<PageToken, CodecError> {
    match Base64Url.Decode(s)
    case None => Err(BadBase64)
    case Some(b) =>
      match ParseObject(FromBytes(b))
      case None => Err(BadJson)
      case Some(t) => Ok(t)
  }

  lemma AsciiConcat(a: string, b: string)
    requires Ascii(a) && Ascii(b)
    ensures Ascii(a + b)
  {
  }

  lemma DateAscii(d: Calendar.DateTime)
    ensures Ascii(Calendar.Format(d))
  {
  }

  lemma TimeAscii(t: Option<Instant>)
    requires t.Some? ==> Calendar.Encodable(Unix(t.value))
    ensures Ascii(TimeJson(t))
  {
    if t.Some? {
      DateAscii(Calendar.FromSeconds(Unix(t.value)));
    }
  }

  lemma JsonAscii(t: PageToken)
    requires HasText(t)
    ensures Ascii(Json(t))
  {
    TimeAscii(t.lastTime);
    AsciiConcat(TIME_KEY, TimeJson(t.lastTime));
    AsciiConcat(TIME_KEY + TimeJson(t.lastTime), ID_KEY);
    AsciiConcat(TIME_KEY + TimeJson(t.lastTime) + ID_KEY, IdJson(t.lastId));
    AsciiConcat(TIME_KEY + TimeJson(t.lastTime) + ID_KEY + IdJson(t.lastId), "}");
  }

  /** Whole-second UTC times and int64 ids: what the repository puts into tokens. */
  predicate WholeSecond(t: PageToken) {
    && (t.lastTime.Some? ==> t.lastTime.value == FromUnix(Unix(t.lastTime.value)))
    && (t.lastId.Some? ==> IsInt64(t.lastId.value))
  }

  lemma ParseTimeJson(t: Option<Instant>, rest: string)
    requires t.Some? ==> Calendar.Encodable(Unix(t.value)) && t.value == FromUnix(Unix(t.value))
    ensures ParseTime(TimeJson(t) + rest) == Some((t, rest))
  {
    var s := TimeJson(t) + rest;
    match t
    case None =>
      assert s[4..] == rest;
    case Some(v) =>
      var text := Calendar.Format(Calendar.FromSeconds(Unix(v)));
      assert s[0] == '"' && s[21] == '"' && s[1..21] == text && s[22..] == rest;
      Calendar.TimeRoundTrip(Unix(v));
  }

  lemma ParseIdJson(id: Option<int>)
    requires id.Some? ==> IsInt64(id.value)
    ensures ParseId(IdJson(id)) == Some(id)
  {
    if id.Some? {
      DecimalRoundTrip(id.value);
      assert "null"[0] == 'n';
    }
  }

  lemma StripConcat(prefix: string, rest: string)
    ensures StripPrefix(prefix + rest, prefix) == Some(rest)
  {
  }

  lemma JsonShape(t: PageToken)
    requires HasText(t)
    ensures Json(t) == TIME_KEY + (TimeJson(t.lastTime) + (ID_KEY + (IdJson(t.lastId) + "}")))
  {
  }

  lemma ParseObjectJson(t: PageToken)
    requires HasText(t) && WholeSecond(t)
    ensures ParseObject(Json(t)) == Some(t)
  {
    var tail := IdJson(t.lastId) + "}";
    JsonShape(t);
    StripConcat(TIME_KEY, TimeJson(t.lastTime) + (ID_KEY + tail));
    ParseTimeJson(t.lastTime, ID_KEY + tail);
    StripConcat(ID_KEY, tail);
    assert tail[..|tail| - 1] == IdJson(t.lastId);
    ParseIdJson(t.lastId);
  }

  // ---------- which texts are read ----------

  lemma {:induction false} ValueDigits(s: string)
    requires s != "" && Calendar.AllDigits(s) && (|s| > 1 ==> s[0] != '0')
    ensures Digits(Calendar.Value(s)) == s
    ensures |s| > 1 ==> Calendar.Value(s) >= 10
  {
    if |s| > 1 {
      var init := s[..|s| - 1];
      ValueDigits(init);
      LeadingDigit(init);
      assert s == init + [s[|s| - 1]];
    }
  }

  lemma LeadingDigit(s: string)
    requires s != "" && Calendar.AllDigits(s) && s[0] != '0' && (|s| > 1 ==> Calendar.Value(s) >= 10)
    ensures Calendar.Value(s) >= 1
  {
  }

  /** The one number with a second spelling is zero. */
  lemma DecimalOf(s: string)
    requires ParseDecimal(s).Some?
    ensures IsInt64(ParseDecimal(s).value)
    ensures s == Decimal(ParseDecimal(s).value) || (s == "-0" && ParseDecimal(s).value == 0)
  {
    if s[0] == '-' {
      ValueDigits(s[1..]);
      assert s == "-" + s[1..];
      if Calendar.Value(s[1..]) == 0 {
        assert Digits(0) == "0";
      }
    } else {
      ValueDigits(s);
    }
  }

  /** A time at the front of a text is there as it would be written. */
  lemma TimeRead(s: string)
    requires ParseTime(s).Some?
    ensures
      var (t, rest) := ParseTime(s).value;
      && (t.Some? ==> Calendar.Encodable(Unix(t.value)) && t.value == FromUnix(Unix(t.value)))
      && s == TimeJson(t) + rest
  {
    if "null" <= s {
      assert s == "null" + s[4..];
    } else {
      var d := Calendar.Parse(s[1..21]).value;
      Calendar.FormatParse(s[1..21]);
      Calendar.DateOfSeconds(d);
      Calendar.EncodableIff(Calendar.ToSeconds(d));
      UnixFromUnix(Calendar.ToSeconds(d));
      assert s == "\"" + s[1..21] + "\"" + s[22..];
    }
  }

  lemma IdRead(s: string)
    requires ParseId(s).Some?
    ensures
      var id := ParseId(s).value;
      (id.Some? ==> IsInt64(id.value)) && (s == IdJson(id) || (s == "-0" && id == Some(0)))
  {
    if s != "null" {
      DecimalOf(s);
    }
  }

  lemma Stripped(s: string, prefix: string)
    requires StripPrefix(s, prefix).Some?
    ensures s == prefix + StripPrefix(s, prefix).value
  {
  }

  lemma PiecesJoined(s: string, afterKey: string, time: string, afterTime: string, tail: string, id: string)
    requires s == TIME_KEY + afterKey && afterKey == time + afterTime
    requires afterTime == ID_KEY + tail && tail == id + "}"
    ensures s == TIME_KEY + time + ID_KEY + id + "}"
  {
  }

  /** How a text that is read as a cursor was taken apart. */
  lemma ObjectPieces(s: string) returns (afterKey: string, afterTime: string, tail: string, id: string)
    requires ParseObject(s).Some?
    ensures StripPrefix(s, TIME_KEY) == Some(afterKey)
    ensures ParseTime(afterKey) == Some((ParseObject(s).value.lastTime, afterTime))
    ensures StripPrefix(afterTime, ID_KEY) == Some(tail)
    ensures tail == id + "}" && ParseId(id) == Some(ParseObject(s).value.lastId)
  {
    hide ParseTime, ParseId, StripPrefix;
    afterKey := StripPrefix(s, TIME_KEY).value;
    afterTime := ParseTime(afterKey).value.1;
    tail := StripPrefix(afterTime, ID_KEY).value;
    id := tail[..|tail| - 1];
  }

  /** A text is read as a cursor only if it is the text written for that cursor, but for a zero id with a minus. */
  lemma TextRead(s: string)
    requires ParseObject(s).Some?
    ensures
      var t := ParseObject(s).value;
      && HasText(t) && WholeSecond(t)
      && (s == Json(t) || (t.lastId == Some(0) && s == TIME_KEY + TimeJson(t.lastTime) + ID_KEY + "-0" + "}"))
  {
    var afterKey, afterTime, tail, id := ObjectPieces(s);
    var t := ParseObject(s).value;
    Stripped(s, TIME_KEY);
    TimeRead(afterKey);
    Stripped(afterTime, ID_KEY);
    IdRead(id);
    hide ParseTime, ParseId, ParseObject, StripPrefix, TimeJson, IdJson, Unix, FromUnix, Calendar.Encodable;
    PiecesJoined(s, afterKey, TimeJson(t.lastTime), afterTime, tail, id);
  }

  /**
   Every cursor of a whole-second time in years 0 to 9999 and an int64 id comes back from its
   token, which is never empty (so never taken for a request for the first page) and URL-safe.
   */
  lemma TokenRoundTrip(t: PageToken)
    requires WholeSecond(t)
    ensures EncodePageToken(t).Ok? <==> HasText(t)
    ensures HasText(t) ==>
              var s := EncodePageToken(t).value;
              && DecodePageToken(s) == Ok(t)
              && s != ""
              && Base64Url.UrlSafe(s)
  {
    if HasText(t) {
      JsonAscii(t);
      var text := Json(t);
      Base64Url.DecodeEncode(ToBytes(text));
      FromBytesToBytes(text);
      ParseObjectJson(t);
    }
  }

  // ---------- the text inside a token ----------

  lemma TextInside(t: PageToken)
    requires HasText(t)
    ensures EncodePageToken(t).Ok?
    ensures
      var b := Base64Url.Decode(EncodePageToken(t).value);
      b.Some? && FromBytes(b.value) == Json(t)
  {
    JsonAscii(t);
    Base64Url.DecodeEncode(ToBytes(Json(t)));
    FromBytesToBytes(Json(t));
  }

  /** The token decodes, as base64, to this text. */
  predicate Carries(t: PageToken, text: string) {
    && EncodePageToken(t).Ok?
    && Base64Url.Decode(EncodePageToken(t).value).Some?
    && FromBytes(Base64Url.Decode(EncodePageToken(t).value).value) == text
  }

  lemma IdTexts()
    ensures Decimal(11893) == "11893" && Decimal(-42) == "-42"
  {
    assert Digits(118) == "118";
    assert Digits(42) == "42";
  }

  lemma PaddedTexts()
    ensures Calendar.Padded(2025, 4) == "2025" && Calendar.Padded(8, 2) == "08" && Calendar.Padded(31, 2) == "31"
    ensures Calendar.Padded(12, 2) == "12" && Calendar.Padded(34, 2) == "34" && Calendar.Padded(56, 2) == "56"
  {
    assert Calendar.Padded(20, 2) == "20";
  }

  lemma DateIs()
    ensures Calendar.FromSeconds(1_756_643_696) == Calendar.DateTime(2025, 8, 31, 12, 34, 56)
  {
    var d := Calendar.DateTime(2025, 8, 31, 12, 34, 56);
    assert Calendar.ToSeconds(d) == 1_756_643_696;
    hide Calendar.FromSeconds;
    Calendar.ToSecondsInjective(Calendar.FromSeconds(1_756_643_696), d);
  }

  lemma TimeText()
    ensures Calendar.Format(Calendar.FromSeconds(1_756_643_696)) == "2025-08-31T12:34:56Z"
  {
    DateIs();
    PaddedTexts();
    hide Calendar.FromSeconds, Calendar.Padded;
  }

  lemma Quoted(time: string)
    requires time == "2025-08-31T12:34:56Z"
    ensures TIME_KEY + ("\"" + time + "\"") == "{\"LastTime\":\"2025-08-31T12:34:56Z\""
  {
  }

  lemma FirstPart()
    ensures TIME_KEY + TimeJson(Some(1_756_643_696_000_000_000)) == "{\"LastTime\":\"2025-08-31T12:34:56Z\""
  {
    assert Unix(1_756_643_696_000_000_000) == 1_756_643_696;
    TimeText();
    var time := Calendar.Format(Calendar.FromSeconds(1_756_643_696));
    assert TimeJson(Some(1_756_643_696_000_000_000)) == "\"" + time + "\"";
    hide *;
    Quoted(time);
  }

  lemma LastPart()
    ensures ID_KEY + IdJson(Some(11893)) + "}" == ",\"LastID\":11893}"
  {
    IdTexts();
    hide Decimal;
  }

  lemma JsonParts(t: PageToken)
    requires HasText(t)
    ensures Json(t) == TIME_KEY + TimeJson(t.lastTime) + (ID_KEY + IdJson(t.lastId) + "}")
  {
  }

  lemma PartsJoined()
    ensures "{\"LastTime\":\"2025-08-31T12:34:56Z\",\"LastID\":11893}"
            == "{\"LastTime\":\"2025-08-31T12:34:56Z\"" + ",\"LastID\":11893}"
  {
  }

  lemma FullText()
    ensures
      var t := PageToken(Some(1_756_643_696_000_000_000), Some(11893));
      HasText(t) && Json(t) == "{\"LastTime\":\"2025-08-31T12:34:56Z\",\"LastID\":11893}"
  {
    var t := PageToken(Some(1_756_643_696_000_000_000), Some(11893));
    assert Unix(1_756_643_696_000_000_000) == 1_756_643_696;
    FirstPart();
    LastPart();
    JsonParts(t);
    hide *;
    PartsJoined();
  }

  lemma NegativeText()
    ensures Json(PageToken(None, Some(-42))) == "{\"LastTime\":null,\"LastID\":-42}"
  {
    IdTexts();
    hide Decimal;
    JsonShape(PageToken(None, Some(-42)));
  }

  lemma NullText()
    ensures Json(PageToken(None, None)) == "{\"LastTime\":null,\"LastID\":null}"
  {
    JsonShape(PageToken(None, None));
  }

  /** The text of a cursor, of one with a negative id and no time, and of one with neither. */
  lemma CursorTexts()
    ensures Carries(PageToken(Some(1_756_643_696_000_000_000), Some(11893)),
                    "{\"LastTime\":\"2025-08-31T12:34:56Z\",\"LastID\":11893}")
    ensures Carries(PageToken(None, Some(-42)), "{\"LastTime\":null,\"LastID\":-42}")
    ensures Carries(PageToken(None, None), "{\"LastTime\":null,\"LastID\":null}")
  {
    FullText();
    NegativeText();
    NullText();
    hide EncodePageToken, Json;
    TextInside(PageToken(Some(1_756_643_696_000_000_000), Some(11893)));
    TextInside(PageToken(None, Some(-42)));
    TextInside(PageToken(None, None));
  }
}
