/** Text forms of the two value types the cursor and the queue store as
    strings: `datetime.isoformat()` / `datetime.fromisoformat()` for UTC
    datetimes, and `str(UUID)` / `UUID(text)`. */
module TextFormats {
  import opened Common
  import opened Calendar

  /** Every character is below `|` in code order: plain ASCII without the
      cursor's field separator. */
  predicate BelowBar(s: string)
  {
    forall i :: 0 <= i < |s| ==> s[i] < '|'
  }

  lemma BelowBarConcat(a: string, b: string)
    requires BelowBar(a) && BelowBar(b)
    ensures BelowBar(a + b)
  {
    var s := a + b;
    forall i | |a| <= i < |s|
      ensures s[i] < '|'
    {
      assert s[i] == b[i - |a|];
    }
  }

  /** Digit strings stay below `|`. */
  lemma DigitsBelowBar(s: string)
    requires AllDigits(s)
    ensures BelowBar(s)
  {
    assert forall i :: 0 <= i < |s| ==> IsDigit(s[i]);
  }

  // ---------------------------------------------------------------------
  // ISO 8601 datetimes

  /** `YYYY-MM-DD`. */
  function FormatDate(d: Date): (s: string)
    requires ValidDate(d)
    ensures |s| == 10 && BelowBar(s)
  {
    var y, m, dd := PadDecimal(d.year, 4), PadDecimal(d.month, 2), PadDecimal(d.day, 2);
    ThreeBelowBar(y, m, dd, '-');
    y + "-" + m + "-" + dd
  }

  /** `HH:MM:SS`. */
  function FormatClock(h: nat, m: nat, sec: nat): (s: string)
    ensures |s| == 8 && BelowBar(s)
  {
    var hh, mm, ss := PadDecimal(h, 2), PadDecimal(m, 2), PadDecimal(sec, 2);
    ThreeBelowBar(hh, mm, ss, ':');
    hh + ":" + mm + ":" + ss
  }

  /** Three digit fields joined by a separator below `|` stay below `|`. */
  lemma ThreeBelowBar(a: string, b: string, c: string, sep: char)
    requires AllDigits(a) && AllDigits(b) && AllDigits(c) && sep < '|'
    ensures BelowBar(a + [sep] + b + [sep] + c)
  {
    DigitsBelowBar(a);
    DigitsBelowBar(b);
    DigitsBelowBar(c);
    BelowBarConcat(a, [sep]);
    BelowBarConcat(a + [sep], b);
    BelowBarConcat(a + [sep] + b, [sep]);
    BelowBarConcat(a + [sep] + b + [sep], c);
  }

  /** The fraction `isoformat` writes: nothing for zero microseconds, else `.ffffff`. */
  function FormatFraction(us: nat): (s: string)
    ensures |s| == (if us == 0 then 0 else 7) && BelowBar(s)
  {
    if us == 0 then "" else "." + PadDecimal(us, 6)
  }

  /** `t.isoformat()` of an aware UTC datetime: `YYYY-MM-DDTHH:MM:SS[.ffffff]+00:00`. */
  function IsoFormat(t: DateTime): (s: string)
    requires ValidDateTime(t)
    ensures |s| == (if t.micro == 0 then 25 else 32) && BelowBar(s)
  {
    var d, c, f := FormatDate(t.date), FormatClock(t.hour, t.minute, t.second), FormatFraction(t.micro);
    IsoBelowBar(d, c, f);
    d + "T" + c + f + UtcOffset
  }

  lemma IsoBelowBar(d: string, c: string, f: string)
    requires BelowBar(d) && BelowBar(c) && BelowBar(f)
    ensures BelowBar(d + "T" + c + f + UtcOffset)
  {
    BelowBarConcat(d, "T");
    BelowBarConcat(d + "T", c);
    BelowBarConcat(d + "T" + c, f);
    BelowBarConcat(d + "T" + c + f, UtcOffset);
  }

  /** The offset `isoformat` writes for UTC. */
  const UtcOffset: string := "+00:00"

  /** The field of `s` between `i` and `j`, when it is all digits. */
  function Field(s: string, i: nat, j: nat): Option<nat>
    requires i <= j <= |s|
  {
    if AllDigits(s[i..j]) then Some(DigitsValue(s[i..j])) else None
  }

  function ParseDate(s: string): (r: Option<(nat, nat, nat)>)
  {
    if |s| != 10 || s[4] != '-' || s[7] != '-' then None
    else match (Field(s, 0, 4), Field(s, 5, 7), Field(s, 8, 10))
      case (Some(y), Some(m), Some(d)) => Some((y, m, d))
      case _ => None
  }

  function ParseClock(s: string): (r: Option<(nat, nat, nat)>)
  {
    if |s| != 8 || s[2] != ':' || s[5] != ':' then None
    else match (Field(s, 0, 2), Field(s, 3, 5), Field(s, 6, 8))
      case (Some(h), Some(m), Some(sec)) => Some((h, m, sec))
      case _ => None
  }

  function ParseFraction(s: string): (r: Option<nat>)
  {
    if s == "" then Some(0)
    else if |s| == 7 && s[0] == '.' then Field(s, 1, 7)
    else None
  }

  /** `datetime.fromisoformat(s)` restricted to the shapes `IsoFormat`
      produces; anything else, or an impossible date or time, is a ValueError. */
  function ParseIso(s: string): (r: Option<DateTime>)
    ensures r.Some? ==> ValidDateTime(r.value)
  {
    if |s| < 25 || s[|s| - 6..] != UtcOffset then None
    else
      var body := s[..|s| - 6];
      if body[10] != 'T' then None
      else match (ParseDate(body[..10]), ParseClock(body[11..19]), ParseFraction(body[19..]))
        case (Some((y, mo, d)), Some((h, mi, sec)), Some(us)) =>
          var t := DateTime(Date(y, mo, d), h, mi, sec, us);
          if ValidDateTime(t) then Some(t) else None
        case _ => None
  }

  lemma DateRoundTrip(d: Date)
    requires ValidDate(d)
    ensures ParseDate(FormatDate(d)) == Some((d.year, d.month, d.day))
  {
    var a, b, c := PadDecimal(d.year, 4), PadDecimal(d.month, 2), PadDecimal(d.day, 2);
    assert FormatDate(d) == a + "-" + b + "-" + c;
    ParseDateFields(a, b, c);
    PadDecimalValue(d.year, 4);
    PadDecimalValue(d.month, 2);
    PadDecimalValue(d.day, 2);
  }

  /** `YYYY-MM-DD` built from digit fields of those widths reads back field by field. */
  lemma ParseDateFields(a: string, b: string, c: string)
    requires |a| == 4 && |b| == 2 && |c| == 2 && AllDigits(a) && AllDigits(b) && AllDigits(c)
    ensures ParseDate(a + "-" + b + "-" + c) == Some((DigitsValue(a), DigitsValue(b), DigitsValue(c)))
  {
    var s := a + "-" + b + "-" + c;
    ThreeFields(a, b, c, '-');
    FieldIs(s, 0, 4, a);
    FieldIs(s, 5, 7, b);
    FieldIs(s, 8, 10, c);
  }

  lemma ClockRoundTrip(h: nat, m: nat, sec: nat)
    requires h < 100 && m < 100 && sec < 100
    ensures ParseClock(FormatClock(h, m, sec)) == Some((h, m, sec))
  {
    var a, b, c := PadDecimal(h, 2), PadDecimal(m, 2), PadDecimal(sec, 2);
    assert FormatClock(h, m, sec) == a + ":" + b + ":" + c;
    ParseClockFields(a, b, c);
    PadDecimalValue(h, 2);
    PadDecimalValue(m, 2);
    PadDecimalValue(sec, 2);
  }

  /** `HH:MM:SS` built from two-digit fields reads back field by field. */
  lemma ParseClockFields(a: string, b: string, c: string)
    requires |a| == 2 && |b| == 2 && |c| == 2 && AllDigits(a) && AllDigits(b) && AllDigits(c)
    ensures ParseClock(a + ":" + b + ":" + c) == Some((DigitsValue(a), DigitsValue(b), DigitsValue(c)))
  {
    var s := a + ":" + b + ":" + c;
    ThreeFields(a, b, c, ':');
    FieldIs(s, 0, 2, a);
    FieldIs(s, 3, 5, b);
    FieldIs(s, 6, 8, c);
  }

  /** Where the three fields and both separators of `a<sep>b<sep>c` lie. */
  lemma ThreeFields(a: string, b: string, c: string, sep: char)
    ensures var s := a + [sep] + b + [sep] + c;
      |s| == |a| + |b| + |c| + 2 && s[|a|] == sep && s[|a| + |b| + 1] == sep &&
      s[0..|a|] == a && s[|a| + 1..|a| + |b| + 1] == b && s[|a| + |b| + 2..] == c
  {
  }

  /** A field holding a digit string reads as that string's value. */
  lemma FieldIs(s: string, i: nat, j: nat, f: string)
    requires i <= j <= |s| && s[i..j] == f && AllDigits(f)
    ensures Field(s, i, j) == Some(DigitsValue(f))
  {
  }

  lemma FractionRoundTrip(us: nat)
    requires us < 1000000
    ensures ParseFraction(FormatFraction(us)) == Some(us)
  {
    if us != 0 {
      var s := FormatFraction(us);
      assert s[1..7] == PadDecimal(us, 6);
      PadDecimalValue(us, 6);
    }
  }

  /** Every datetime Python can hold survives `isoformat` and `fromisoformat`. */
  lemma IsoRoundTrip(t: DateTime)
    requires ValidDateTime(t)
    ensures ParseIso(IsoFormat(t)) == Some(t)
  {
    var D, C, F := FormatDate(t.date), FormatClock(t.hour, t.minute, t.second), FormatFraction(t.micro);
    var s := IsoFormat(t);
    var body := D + "T" + C + F;
    assert s == body + UtcOffset;
    assert s[..|s| - 6] == body;
    assert s[|s| - 6..] == UtcOffset;
    assert body[..10] == D;
    assert body[11..19] == C;
    assert body[19..] == F;
    DateRoundTrip(t.date);
    ClockRoundTrip(t.hour, t.minute, t.second);
    FractionRoundTrip(t.micro);
  }

  // ---------------------------------------------------------------------
  // UUIDs

  type Nibble = x: int | 0 <= x < 16

  /** A UUID as its 32 hexadecimal digits, most significant first. */
  datatype Uuid = Uuid(nibbles: seq<Nibble>)

  predicate ValidUuid(u: Uuid) { |u.nibbles| == 32 }

  /** A `uuid.UUID`: always 128 bits. */
  type Id = u: Uuid | ValidUuid(u) witness Uuid(seq(32, i => 0))

  function HexChar(x: Nibble): (c: char)
  {
    if x < 10 then (('0' as int) + x) as char else (('a' as int) + x - 10) as char
  }

  /** The value of a hexadecimal digit of either case, as `int(…, 16)` reads it. */
  function HexValue(c: char): (r: Option<Nibble>)
    ensures r.Some? <==> ('0' <= c <= '9' || 'a' <= c <= 'f' || 'A' <= c <= 'F')
  {
    if '0' <= c <= '9' then Some(c as int - '0' as int)
    else if 'a' <= c <= 'f' then Some(c as int - 'a' as int + 10)
    else if 'A' <= c <= 'F' then Some(c as int - 'A' as int + 10)
    else None
  }

  lemma HexCharValue(x: Nibble)
    ensures HexValue(HexChar(x)) == Some(x)
  {
  }

  function HexString(ns: seq<Nibble>): (s: string)
    ensures |s| == |ns|
  {
    if ns == [] then [] else [HexChar(ns[0])] + HexString(ns[1..])
  }

  /** Digit `i` of the text is the character of nibble `i`. */
  lemma {:induction false} HexStringChars(ns: seq<Nibble>)
    ensures forall i :: 0 <= i < |ns| ==> HexString(ns)[i] == HexChar(ns[i])
    decreases |ns|
  {
    if ns != [] {
      HexStringChars(ns[1..]);
      var s, rest := HexString(ns), HexString(ns[1..]);
      assert forall i :: 1 <= i < |ns| ==> s[i] == rest[i - 1];
    }
  }

  /** `str(u)`: lower-case hexadecimal in groups 8-4-4-4-12. */
  function FormatUuid(u: Uuid): (s: string)
    requires ValidUuid(u)
    ensures |s| == 36 && BelowBar(s)
  {
    var n := u.nibbles;
    var a, b, c, d, e := HexString(n[0..8]), HexString(n[8..12]), HexString(n[12..16]),
                         HexString(n[16..20]), HexString(n[20..32]);
    HexBelowBar(n[0..8]);
    HexBelowBar(n[8..12]);
    HexBelowBar(n[12..16]);
    HexBelowBar(n[16..20]);
    HexBelowBar(n[20..32]);
    DashedBelowBar(a, b);
    DashedBelowBar(a + "-" + b, c);
    DashedBelowBar(a + "-" + b + "-" + c, d);
    DashedBelowBar(a + "-" + b + "-" + c + "-" + d, e);
    a + "-" + b + "-" + c + "-" + d + "-" + e
  }

  lemma HexBelowBar(ns: seq<Nibble>)
    ensures BelowBar(HexString(ns))
  {
    HexStringChars(ns);
  }

  lemma DashedBelowBar(a: string, b: string)
    requires BelowBar(a) && BelowBar(b)
    ensures BelowBar(a + "-" + b)
  {
    BelowBarConcat(a, "-");
    BelowBarConcat(a + "-", b);
  }

  function RemoveDashes(s: string): (r: string)
    ensures '-' !in r
  {
    if s == [] then [] else (if s[0] == '-' then [] else [s[0]]) + RemoveDashes(s[1..])
  }

  lemma {:induction false} RemoveDashesAppend(a: string, b: string)
    ensures RemoveDashes(a + b) == RemoveDashes(a) + RemoveDashes(b)
    decreases |a|
  {
    if a != [] {
      assert (a + b)[1..] == a[1..] + b;
      RemoveDashesAppend(a[1..], b);
    } else {
      assert a + b == b;
    }
  }

  lemma {:induction false} RemoveDashesHex(ns: seq<Nibble>)
    ensures RemoveDashes(HexString(ns)) == HexString(ns)
    decreases |ns|
  {
    if ns != [] {
      assert HexString(ns)[1..] == HexString(ns[1..]);
      RemoveDashesHex(ns[1..]);
    }
  }

  function ParseHex(s: string): (r: Option<seq<Nibble>>)
    ensures r.Some? ==> |r.value| == |s|
  {
    if s == [] then Some([])
    else
      match (HexValue(s[0]), ParseHex(s[1..]))
      case (Some(x), Some(rest)) => Some([x] + rest)
      case _ => None
  }

  lemma {:induction false} ParseHexString(ns: seq<Nibble>)
    ensures ParseHex(HexString(ns)) == Some(ns)
    decreases |ns|
  {
    if ns != [] {
      var s := HexString(ns);
      assert s[1..] == HexString(ns[1..]);
      HexCharValue(ns[0]);
      ParseHexString(ns[1..]);
      assert [ns[0]] + ns[1..] == ns;
    }
  }

  /** `UUID(s)` for the hyphenated forms: hyphens anywhere are dropped and
      exactly 32 hexadecimal digits must remain; otherwise a ValueError. */
  function ParseUuid(s: string): (r: Option<Uuid>)
    ensures r.Some? ==> ValidUuid(r.value)
  {
    var h := RemoveDashes(s);
    if |h| != 32 then None
    else match ParseHex(h)
      case Some(ns) => Some(Uuid(ns))
      case None => None
  }

  lemma DashStep(p: string, x: string)
    ensures RemoveDashes(p + "-" + x) == RemoveDashes(p) + RemoveDashes(x)
  {
    var q := p + "-";
    RemoveDashesAppend(q, x);
    RemoveDashesAppend(p, "-");
    RemoveDashesDash();
    assert RemoveDashes(q) == RemoveDashes(p);
  }

  lemma RemoveDashesDash()
    ensures RemoveDashes("-") == []
  {
    assert "-"[1..] == [];
  }

  lemma {:induction false} HexStringAppend(a: seq<Nibble>, b: seq<Nibble>)
    ensures HexString(a + b) == HexString(a) + HexString(b)
    decreases |a|
  {
    if a == [] {
      assert a + b == b;
    } else {
      assert (a + b)[1..] == a[1..] + b;
      HexStringAppend(a[1..], b);
    }
  }

  lemma UuidRoundTrip(u: Uuid)
    requires ValidUuid(u)
    ensures ParseUuid(FormatUuid(u)) == Some(u)
  {
    UuidDigits(u);
    ParseHexString(u.nibbles);
  }

  /** Dropping the hyphens of `str(u)` leaves the 32 digits in order. */
  lemma UuidDigits(u: Uuid)
    requires ValidUuid(u)
    ensures RemoveDashes(FormatUuid(u)) == HexString(u.nibbles)
  {
    var n := u.nibbles;
    var a, b, c, d, e := HexString(n[0..8]), HexString(n[8..12]), HexString(n[12..16]),
                         HexString(n[16..20]), HexString(n[20..32]);
    assert FormatUuid(u) == a + "-" + b + "-" + c + "-" + d + "-" + e;
    DropFourDashes(a, b, c, d, e);
    RemoveDashesHex(n[0..8]);
    RemoveDashesHex(n[8..12]);
    RemoveDashesHex(n[12..16]);
    RemoveDashesHex(n[16..20]);
    RemoveDashesHex(n[20..32]);
    HexGroups(n);
  }

  lemma DropFourDashes(a: string, b: string, c: string, d: string, e: string)
    ensures RemoveDashes(a + "-" + b + "-" + c + "-" + d + "-" + e) ==
      RemoveDashes(a) + RemoveDashes(b) + RemoveDashes(c) + RemoveDashes(d) + RemoveDashes(e)
  {
    var p2 := a + "-" + b;
    var p3 := p2 + "-" + c;
    var p4 := p3 + "-" + d;
    DashStep(a, b);
    DashStep(p2, c);
    DashStep(p3, d);
    DashStep(p4, e);
  }

  /** The five groups of `str(u)` are the hexadecimal text of the whole UUID. */
  lemma HexGroups(n: seq<Nibble>)
    requires |n| == 32
    ensures HexString(n[0..8]) + HexString(n[8..12]) + HexString(n[12..16]) + HexString(n[16..20]) + HexString(n[20..32])
      == HexString(n)
  {
    var a, b, c, d, e := HexString(n[0..8]), HexString(n[8..12]), HexString(n[12..16]),
                         HexString(n[16..20]), HexString(n[20..32]);
    HexJoin(n, 0, 8, 12);
    var ab := HexString(n[0..12]);
    HexJoin(n, 0, 12, 16);
    var abc := HexString(n[0..16]);
    HexJoin(n, 0, 16, 20);
    var abcd := HexString(n[0..20]);
    HexJoin(n, 0, 20, 32);
    assert n[0..32] == n;
    calc {
      a + b + c + d + e;
      ab + c + d + e;
      abc + d + e;
      abcd + e;
      HexString(n);
    }
  }

  /** Adjacent slices' texts join into the text of the joined slice. */
  lemma HexJoin(n: seq<Nibble>, i: nat, j: nat, k: nat)
    requires i <= j <= k <= |n|
    ensures HexString(n[i..j]) + HexString(n[j..k]) == HexString(n[i..k])
  {
    HexStringAppend(n[i..j], n[j..k]);
    assert n[i..j] + n[j..k] == n[i..k];
  }

  /** Distinct UUIDs have distinct text, so comparing `str(u)` compares UUIDs. */
  lemma FormatUuidInjective(u: Uuid, v: Uuid)
    requires ValidUuid(u) && ValidUuid(v)
    ensures FormatUuid(u) == FormatUuid(v) <==> u == v
  {
    if FormatUuid(u) == FormatUuid(v) {
      UuidRoundTrip(u);
      UuidRoundTrip(v);
    }
  }
}
