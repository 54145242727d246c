/** The URL- and filename-safe base64 alphabet of section 5 of RFC 4648,
    with `=` padding, as `base64.urlsafe_b64encode` writes it and a strict
    reading of `base64.urlsafe_b64decode`. */
module Base64Url {
  import opened Common

  type Byte = x: int | 0 <= x < 256
  type Sextet = x: int | 0 <= x < 64

  /** The character for a 6-bit value: A-Z, a-z, 0-9, then `-` and `_`. */
  function Char(x: Sextet): (c: char)
  {
    if x < 26 then (('A' as int) + x) as char
    else if x < 52 then (('a' as int) + x - 26) as char
    else if x < 62 then (('0' as int) + x - 52) as char
    else if x == 62 then '-'
    else '_'
  }

  /** The 6-bit value of an alphabet character. */
  function Value(c: char): (r: Option<Sextet>)
    ensures r.Some? <==> IsAlphabet(c)
  {
    if 'A' <= c <= 'Z' then Some(c as int - 'A' as int)
    else if 'a' <= c <= 'z' then Some(c as int - 'a' as int + 26)
    else if '0' <= c <= '9' then Some(c as int - '0' as int + 52)
    else if c == '-' then Some(62)
    else if c == '_' then Some(63)
    else None
  }

  predicate IsAlphabet(c: char)
  {
    'A' <= c <= 'Z' || 'a' <= c <= 'z' || '0' <= c <= '9' || c == '-' || c == '_'
  }

  lemma CharValue(x: Sextet)
    ensures IsAlphabet(Char(x)) && Value(Char(x)) == Some(x)
  {
  }

  /** Three bytes as four characters. */
  function EncodeBlock(b0: Byte, b1: Byte, b2: Byte): (s: string)
  {
    [Char(b0 / 4), Char((b0 % 4) * 16 + b1 / 16), Char((b1 % 16) * 4 + b2 / 64), Char(b2 % 64)]
  }

  /** `base64.urlsafe_b64encode(b)`: whole groups of three bytes, then a final
      group of one or two bytes padded with `==` or `=`. */
  function Encode(b: seq<Byte>): (s: string)
    ensures |s| == 4 * ((|b| + 2) / 3) && |s| % 4 == 0
    decreases |b|
  {
    if |b| >= 3 then
      var q, rest := EncodeBlock(b[0], b[1], b[2]), Encode(b[3..]);
      GroupsStep(|b|);
      q + rest
    else if |b| == 2 then EncodeLastTwo(b[0], b[1])
    else if |b| == 1 then EncodeLastOne(b[0])
    else ""
  }

  /** The encoding uses only the alphabet and `=`. */
  lemma {:induction false} EncodeAlphabet(b: seq<Byte>)
    ensures Padded(Encode(b))
    decreases |b|
  {
    if |b| >= 3 {
      EncodeFront(b);
      BlockAlphabet(b[0], b[1], b[2]);
      EncodeAlphabet(b[3..]);
      PaddedConcat(EncodeBlock(b[0], b[1], b[2]), Encode(b[3..]));
    } else if |b| == 2 {
      CharValue(b[0] / 4);
      CharValue((b[0] % 4) * 16 + b[1] / 16);
      CharValue((b[1] % 16) * 4);
    } else if |b| == 1 {
      CharValue(b[0] / 4);
      CharValue((b[0] % 4) * 16);
    }
  }

  lemma GroupsStep(n: int)
    requires n >= 3
    ensures (n + 2) / 3 == (n - 3 + 2) / 3 + 1
  {
  }

  /** Text of alphabet characters and `=` only. */
  predicate Padded(s: string)
  {
    forall i :: 0 <= i < |s| ==> IsAlphabet(s[i]) || s[i] == '='
  }

  lemma PaddedConcat(q: string, rest: string)
    requires |q| == 4 && forall i :: 0 <= i < 4 ==> IsAlphabet(q[i])
    requires Padded(rest)
    ensures Padded(q + rest)
  {
    var s := q + rest;
    forall i | 0 <= i < |s|
      ensures IsAlphabet(s[i]) || s[i] == '='
    {
      if i >= 4 {
        assert s[i] == rest[i - 4];
      }
    }
  }

  /** A final group of one byte: two characters and `==`. */
  function EncodeLastOne(b0: Byte): (s: string)
    ensures |s| == 4
  {
    [Char(b0 / 4), Char((b0 % 4) * 16), '=', '=']
  }

  /** A final group of two bytes: three characters and `=`. */
  function EncodeLastTwo(b0: Byte, b1: Byte): (s: string)
    ensures |s| == 4
  {
    [Char(b0 / 4), Char((b0 % 4) * 16 + b1 / 16), Char((b1 % 16) * 4), '=']
  }

  lemma BlockAlphabet(b0: Byte, b1: Byte, b2: Byte)
    ensures var q := EncodeBlock(b0, b1, b2); |q| == 4 && forall i :: 0 <= i < 4 ==> IsAlphabet(q[i])
  {
    CharValue(b0 / 4);
    CharValue((b0 % 4) * 16 + b1 / 16);
    CharValue((b1 % 16) * 4 + b2 / 64);
    CharValue(b2 % 64);
  }

  function DecodeQuad(c0: Sextet, c1: Sextet, c2: Sextet, c3: Sextet): (r: seq<Byte>)
  {
    [c0 * 4 + c1 / 16, (c1 % 16) * 16 + c2 / 4, (c2 % 4) * 64 + c3]
  }

  function DecodeTriple(c0: Sextet, c1: Sextet, c2: Sextet): (r: seq<Byte>)
  {
    [c0 * 4 + c1 / 16, (c1 % 16) * 16 + c2 / 4]
  }

  function DecodePair(c0: Sextet, c1: Sextet): (r: seq<Byte>)
  {
    [c0 * 4 + c1 / 16]
  }

  /** The last group of four characters, which may end in `=` or `==`;
      unused low bits of the last character are ignored. */
  function DecodeLast(g: string): (r: Option<seq<Byte>>)
    requires |g| == 4
  {
    match (Value(g[0]), Value(g[1]), Value(g[2]), Value(g[3]))
    case (Some(c0), Some(c1), Some(c2), Some(c3)) => Some(DecodeQuad(c0, c1, c2, c3))
    case (Some(c0), Some(c1), Some(c2), None) =>
      if g[3] == '=' then Some(DecodeTriple(c0, c1, c2)) else None
    case (Some(c0), Some(c1), None, None) =>
      if g[2] == '=' && g[3] == '=' then Some(DecodePair(c0, c1)) else None
    case _ => None
  }

  /** `base64.urlsafe_b64decode(s)` on well-formed input: a length that is a
      multiple of four, alphabet characters, padding only at the very end.
      Anything else is a `binascii.Error` (`None`). */
  function Decode(s: string): (r: Option<seq<Byte>>)
    decreases |s|
  {
    if s == "" then Some([])
    else if |s| < 4 then None
    else if |s| == 4 then DecodeLast(s)
    else
      match (Value(s[0]), Value(s[1]), Value(s[2]), Value(s[3]), Decode(s[4..]))
      case (Some(c0), Some(c1), Some(c2), Some(c3), Some(rest)) => Some(DecodeQuad(c0, c1, c2, c3) + rest)
      case _ => None
  }

  /** Only text whose length is a multiple of four decodes: missing padding is an error. */
  lemma {:induction false} DecodeNeedsPadding(s: string)
    requires Decode(s).Some?
    ensures |s| % 4 == 0
    decreases |s|
  {
    if |s| > 4 {
      var rest := s[4..];
      DecodeFront(s);
      DecodeNeedsPadding(rest);
      PlusFour(|rest|);
    }
  }

  /** A longer text decodes only if its tail after the first group does. */
  lemma DecodeFront(s: string)
    requires |s| > 4 && Decode(s).Some?
    ensures Decode(s[4..]).Some?
  {
  }

  lemma PlusFour(n: nat)
    ensures (n + 4) % 4 == n % 4
  {
  }

  lemma BlockRoundTrip(b0: Byte, b1: Byte, b2: Byte)
    ensures DecodeQuad(b0 / 4, (b0 % 4) * 16 + b1 / 16, (b1 % 16) * 4 + b2 / 64, b2 % 64) == [b0, b1, b2]
  {
    var c1 := (b0 % 4) * 16 + b1 / 16;
    var c2 := (b1 % 16) * 4 + b2 / 64;
    assert c1 / 16 == b0 % 4 && c1 % 16 == b1 / 16;
    assert c2 / 4 == b1 % 16 && c2 % 4 == b2 / 64;
  }

  lemma PairArith(b0: Byte)
    ensures DecodePair(b0 / 4, (b0 % 4) * 16) == [b0]
  {
  }

  lemma TripleArith(b0: Byte, b1: Byte)
    ensures DecodeTriple(b0 / 4, (b0 % 4) * 16 + b1 / 16, (b1 % 16) * 4) == [b0, b1]
  {
    var c1 := (b0 % 4) * 16 + b1 / 16;
    assert c1 / 16 == b0 % 4 && c1 % 16 == b1 / 16;
  }

  lemma RoundTripOne(b: seq<Byte>)
    requires |b| == 1
    ensures Decode(Encode(b)) == Some(b)
  {
    LastOneRoundTrip(b[0]);
    assert b == [b[0]];
  }

  lemma LastOneRoundTrip(b0: Byte)
    ensures Decode(EncodeLastOne(b0)) == Some([b0])
  {
    var c0, c1 := b0 / 4, (b0 % 4) * 16;
    CharValue(c0);
    CharValue(c1);
    DecodeDoublyPadded(Char(c0), Char(c1));
    PairArith(b0);
  }

  lemma RoundTripTwo(b: seq<Byte>)
    requires |b| == 2
    ensures Decode(Encode(b)) == Some(b)
  {
    LastTwoRoundTrip(b[0], b[1]);
    assert b == [b[0], b[1]];
  }

  lemma LastTwoRoundTrip(b0: Byte, b1: Byte)
    ensures Decode(EncodeLastTwo(b0, b1)) == Some([b0, b1])
  {
    var c0, c1, c2 := b0 / 4, (b0 % 4) * 16 + b1 / 16, (b1 % 16) * 4;
    CharValue(c0);
    CharValue(c1);
    CharValue(c2);
    DecodePadded(Char(c0), Char(c1), Char(c2));
    TripleArith(b0, b1);
  }

  /** A last group ending in `==` holds one byte. */
  lemma DecodeDoublyPadded(x0: char, x1: char)
    requires IsAlphabet(x0) && IsAlphabet(x1)
    ensures Decode([x0, x1, '=', '=']) == Some(DecodePair(Value(x0).value, Value(x1).value))
  {
    var g := [x0, x1, '=', '='];
    assert Value(g[2]).None? && Value(g[3]).None?;
  }

  /** A last group ending in a single `=` holds two bytes. */
  lemma DecodePadded(x0: char, x1: char, x2: char)
    requires IsAlphabet(x0) && IsAlphabet(x1) && IsAlphabet(x2)
    ensures Decode([x0, x1, x2, '=']) == Some(DecodeTriple(Value(x0).value, Value(x1).value, Value(x2).value))
  {
    var g := [x0, x1, x2, '='];
    assert Value(g[3]).None?;
  }

  /** A full group in front of at least one more group decodes on its own. */
  lemma DecodeCons(q: string, rest: string, r: seq<Byte>)
    requires |q| == 4 && |rest| >= 4
    requires IsAlphabet(q[0]) && IsAlphabet(q[1]) && IsAlphabet(q[2]) && IsAlphabet(q[3])
    requires Decode(rest) == Some(r)
    ensures Decode(q + rest) ==
      Some(DecodeQuad(Value(q[0]).value, Value(q[1]).value, Value(q[2]).value, Value(q[3]).value) + r)
  {
    var s := q + rest;
    assert s[4..] == rest;
    assert s[0] == q[0] && s[1] == q[1] && s[2] == q[2] && s[3] == q[3];
  }

  /** Decoding undoes encoding. */
  lemma {:induction false} RoundTrip(b: seq<Byte>)
    ensures Decode(Encode(b)) == Some(b)
    decreases |b|
  {
    if |b| == 1 {
      RoundTripOne(b);
    } else if |b| == 2 {
      RoundTripTwo(b);
    } else if |b| >= 3 {
      RoundTrip(b[3..]);
      RoundTripBlock(b);
    }
  }

  /** The four characters of a full group read back as its three bytes. */
  lemma BlockDecodes(b0: Byte, b1: Byte, b2: Byte)
    ensures var q := EncodeBlock(b0, b1, b2);
      |q| == 4 && IsAlphabet(q[0]) && IsAlphabet(q[1]) && IsAlphabet(q[2]) && IsAlphabet(q[3]) &&
      DecodeQuad(Value(q[0]).value, Value(q[1]).value, Value(q[2]).value, Value(q[3]).value) == [b0, b1, b2]
  {
    CharValue(b0 / 4);
    CharValue((b0 % 4) * 16 + b1 / 16);
    CharValue((b1 % 16) * 4 + b2 / 64);
    CharValue(b2 % 64);
    BlockRoundTrip(b0, b1, b2);
  }

  lemma EncodeFront(b: seq<Byte>)
    requires |b| >= 3
    ensures Encode(b) == EncodeBlock(b[0], b[1], b[2]) + Encode(b[3..])
  {
  }

  lemma RoundTripBlock(b: seq<Byte>)
    requires |b| >= 3
    requires Decode(Encode(b[3..])) == Some(b[3..])
    ensures Decode(Encode(b)) == Some(b)
  {
    EncodeFront(b);
    BlockDecodes(b[0], b[1], b[2]);
    SplitThree(b);
    DecodeGroupThen(EncodeBlock(b[0], b[1], b[2]), Encode(b[3..]), [b[0], b[1], b[2]], b[3..]);
  }

  /** A full group followed by a decodable rest (empty, or whole groups) decodes to both. */
  lemma DecodeGroupThen(q: string, rest: string, bs: seq<Byte>, r: seq<Byte>)
    requires |q| == 4 && IsAlphabet(q[0]) && IsAlphabet(q[1]) && IsAlphabet(q[2]) && IsAlphabet(q[3])
    requires DecodeQuad(Value(q[0]).value, Value(q[1]).value, Value(q[2]).value, Value(q[3]).value) == bs
    requires Decode(rest) == Some(r) && |rest| % 4 == 0
    ensures Decode(q + rest) == Some(bs + r)
  {
    if rest == "" {
      assert q + rest == q;
      assert r == [];
      assert bs + r == bs;
    } else {
      DecodeCons(q, rest, r);
    }
  }

  lemma SplitThree(b: seq<Byte>)
    requires |b| >= 3
    ensures [b[0], b[1], b[2]] + b[3..] == b
  {
  }
}
