/** The opaque pagination cursor of backend/app/utils/cursor.py: base64url
    (with padding) of the UTF-8 bytes of `"<isoformat timestamp>|<uuid>"`. */
module Cursor {
  import opened Common
  import opened Calendar
  import opened TextFormats
  import Base64Url

  datatype CursorError = InvalidCursorError(cursor: string)

  predicate IsAscii(s: string)
  {
    forall i :: 0 <= i < |s| ==> s[i] as int < 128
  }

  /** `str.encode()` of text whose characters are all ASCII: one byte per character. */
  function AsciiBytes(s: string): (b: seq<Base64Url.Byte>)
    requires IsAscii(s)
    ensures |b| == |s|
    ensures forall i :: 0 <= i < |s| ==> b[i] == s[i] as int
  {
    if s == [] then [] else [s[0] as int] + AsciiBytes(s[1..])
  }

  /** `bytes.decode()` restricted to ASCII bytes; any byte of 128 or more is
      treated as a UnicodeDecodeError. */
  function DecodeAscii(b: seq<Base64Url.Byte>): (r: Option<string>)
    ensures r.Some? ==> |r.value| == |b|
  {
    if b == [] then Some("")
    else if b[0] >= 128 then None
    else match DecodeAscii(b[1..])
      case Some(rest) => Some([b[0] as char] + rest)
      case None => None
  }

  lemma {:induction false} DecodeAsciiBytes(s: string)
    requires IsAscii(s)
    ensures DecodeAscii(AsciiBytes(s)) == Some(s)
    decreases |s|
  {
    if s != [] {
      var b := AsciiBytes(s);
      assert b[1..] == AsciiBytes(s[1..]);
      DecodeAsciiBytes(s[1..]);
      assert [s[0]] + s[1..] == s;
    }
  }

  /** The text the cursor carries. */
  function CursorText(createdAt: DateTime, id: Uuid): (s: string)
    requires ValidDateTime(createdAt) && ValidUuid(id)
    ensures IsAscii(s)
  {
    var a, b := IsoFormat(createdAt), FormatUuid(id);
    AsciiAround(a, b);
    a + "|" + b
  }

  lemma AsciiAround(a: string, b: string)
    requires BelowBar(a) && BelowBar(b)
    ensures IsAscii(a + "|" + b)
  {
    var s := a + "|" + b;
    forall i | 0 <= i < |s|
      ensures s[i] as int < 128
    {
      if i < |a| {
        assert s[i] == a[i];
      } else if i > |a| {
        assert s[i] == b[i - |a| - 1];
      }
    }
  }

  /** `encode_cursor(created_at, id)`. */
  function EncodeCursor(createdAt: DateTime, id: Uuid): (c: string)
    requires ValidDateTime(createdAt) && ValidUuid(id)
    ensures |c| % 4 == 0
    ensures forall i :: 0 <= i < |c| ==> Base64Url.IsAlphabet(c[i]) || c[i] == '='
  {
    var b := AsciiBytes(CursorText(createdAt, id));
    Base64Url.EncodeAlphabet(b);
    Base64Url.Encode(b)
  }

  /** `decode_cursor(cursor)`: every failure along the way (bad base64, bad
      UTF-8, not exactly two `|`-separated parts, an unparsable timestamp or
      UUID) becomes InvalidCursorError. */
  function DecodeCursor(cursor: string): (r: Result<(DateTime, Uuid), CursorError>)
    ensures r.Ok? ==> ValidDateTime(r.value.0) && ValidUuid(r.value.1)
    ensures r.Err? ==> r.error == InvalidCursorError(cursor)
  {
    match Base64Url.Decode(cursor)
    case None => Err(InvalidCursorError(cursor))
    case Some(bytes) =>
      match DecodeAscii(bytes)
      case None => Err(InvalidCursorError(cursor))
      case Some(text) =>
        var parts := Split(text, '|');
        if |parts| != 2 then Err(InvalidCursorError(cursor))
        else match (ParseIso(parts[0]), ParseUuid(parts[1]))
          case (Some(t), Some(u)) => Ok((t, u))
          case _ => Err(InvalidCursorError(cursor))
  }

  /** Decoding a cursor gives back the timestamp and id it was made from. */
  lemma CursorRoundTrip(createdAt: DateTime, id: Uuid)
    requires ValidDateTime(createdAt) && ValidUuid(id)
    ensures DecodeCursor(EncodeCursor(createdAt, id)) == Ok((createdAt, id))
  {
    var iso, uid := IsoFormat(createdAt), FormatUuid(id);
    IsoRoundTrip(createdAt);
    UuidRoundTrip(id);
    PartsRoundTrip(iso, uid);
  }

  /** A cursor carrying two parts without `|` decodes to what the two parts parse to. */
  lemma PartsRoundTrip(iso: string, uid: string)
    requires BelowBar(iso) && BelowBar(uid)
    ensures IsAscii(iso + "|" + uid)
    ensures var text := iso + "|" + uid;
      match (ParseIso(iso), ParseUuid(uid))
      case (Some(t), Some(u)) => DecodeCursor(Base64Url.Encode(AsciiBytes(text))) == Ok((t, u))
      case _ => DecodeCursor(Base64Url.Encode(AsciiBytes(text))).Err?
  {
    var text := iso + "|" + uid;
    AsciiAround(iso, uid);
    TextRoundTrip(text);
    SplitParts(iso, uid);
  }

  /** The bytes of ASCII text survive base64url and decode back to the text. */
  lemma TextRoundTrip(text: string)
    requires IsAscii(text)
    ensures Base64Url.Decode(Base64Url.Encode(AsciiBytes(text))) == Some(AsciiBytes(text))
    ensures DecodeAscii(AsciiBytes(text)) == Some(text)
  {
    Base64Url.RoundTrip(AsciiBytes(text));
    DecodeAsciiBytes(text);
  }

  /** Two parts without `|` split back apart. */
  lemma SplitParts(iso: string, uid: string)
    requires BelowBar(iso) && BelowBar(uid)
    ensures Split(iso + "|" + uid, '|') == [iso, uid]
  {
    assert Join([iso, uid], "|") == iso + "|" + uid;
    NoBar(iso);
    NoBar(uid);
    SplitJoin([iso, uid], '|');
  }

  lemma NoBar(s: string)
    requires BelowBar(s)
    ensures '|' !in s
  {
    assert forall i :: 0 <= i < |s| ==> s[i] != '|';
  }

  /** Text with no `|`, or with more than one, is never a valid cursor. */
  lemma CursorNeedsOneSeparator(cursor: string, text: string)
    requires Base64Url.Decode(cursor).Some? && DecodeAscii(Base64Url.Decode(cursor).value) == Some(text)
    requires |Split(text, '|')| != 2
    ensures DecodeCursor(cursor) == Err(InvalidCursorError(cursor))
  {
  }
}
