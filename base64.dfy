/** `window.btoa`: base64 encoding of a Latin-1 string as section 4 of RFC 4648
    defines it (alphabet `A-Z a-z 0-9 + /`, `=` padding), with the canonical
    decoding as its inverse. */
module Base64 {
  import opened Wrappers
  import opened Bytes

  /** Value of a base64 alphabet character, or -1 for any other character. */
  function SextetOf(c: char): int
  {
    if 'A' <= c <= 'Z' then c as int - 'A' as int
    else if 'a' <= c <= 'z' then c as int - 'a' as int + 26
    else if '0' <= c <= '9' then c as int - '0' as int + 52
    else if c == '+' then 62
    else if c == '/' then 63
    else -1
  }

  predicate IsAlphabet(c: char)
  {
    0 <= SextetOf(c)
  }

  /** The alphabet character for a 6-bit value (Table 1 of RFC 4648). */
  function Digit(v: int): (c: char)
    requires 0 <= v < 64
    ensures IsAlphabet(c) && SextetOf(c) == v
  {
    if v < 26 then ('A' as int + v) as char
    else if v < 52 then ('a' as int + v - 26) as char
    else if v < 62 then ('0' as int + v - 52) as char
    else if v == 62 then '+'
    else '/'
  }

  /** A character of an encoded text: an alphabet character or the pad `=`. */
  predicate IsEncodedChar(c: char)
  {
    IsAlphabet(c) || c == '='
  }

  function Block3(x: int, y: int, z: int): string
    requires 0 <= x < 256 && 0 <= y < 256 && 0 <= z < 256
  {
    [Digit(x / 4), Digit((x % 4) * 16 + y / 16), Digit((y % 16) * 4 + z / 64), Digit(z % 64)]
  }

  /** Base64 of a byte sequence: every 3 bytes give 4 characters; a final group
      of 1 or 2 bytes is padded with `=` to 4 characters. */
  function Encode(b: seq<byte>): (r: string)
    ensures forall i :: 0 <= i < |r| ==> IsEncodedChar(r[i])
    decreases |b|
  {
    if |b| == 0 then ""
    else if |b| == 1 then
      var x := b[0] as int;
      [Digit(x / 4), Digit((x % 4) * 16), '=', '=']
    else if |b| == 2 then
      var x, y := b[0] as int, b[1] as int;
      [Digit(x / 4), Digit((x % 4) * 16 + y / 16), Digit((y % 16) * 4), '=']
    else
      Block3(b[0] as int, b[1] as int, b[2] as int) + Encode(b[3..])
  }

  /** Every 3 bytes, or final part of one, take 4 characters. */
  lemma {:induction false} EncodedLength(b: seq<byte>)
    ensures |Encode(b)| == 4 * ((|b| + 2) / 3)
    decreases |b|
  {
    if |b| > 2 {
      EncodedLength(b[3..]);
      assert (|b| + 2) / 3 == (|b[3..]| + 2) / 3 + 1;
    }
  }

  /** Decoding of four alphabet characters back to three bytes. */
  function DecodeFull(q: string): Option<seq<byte>>
    requires |q| == 4
  {
    var a, b, c, d := SextetOf(q[0]), SextetOf(q[1]), SextetOf(q[2]), SextetOf(q[3]);
    if a < 0 || b < 0 || c < 0 || d < 0 then None
    else Some([(a * 4 + b / 16) as byte, ((b % 16) * 16 + c / 4) as byte, ((c % 4) * 64 + d) as byte])
  }

  /** Decoding of the last group, which may carry one or two pad characters.
      The bits a pad leaves unused must be zero (section 3.5 of RFC 4648), so
      only the canonical encoding of the bytes is accepted. */
  function DecodeLast(q: string): Option<seq<byte>>
    requires |q| == 4
  {
    var a, b, c, d := SextetOf(q[0]), SextetOf(q[1]), SextetOf(q[2]), SextetOf(q[3]);
    if a < 0 || b < 0 then None
    else if q[2] == '=' && q[3] == '=' then
      if b % 16 != 0 then None else Some([(a * 4 + b / 16) as byte])
    else if c < 0 then None
    else if q[3] == '=' then
      if c % 4 != 0 then None else Some([(a * 4 + b / 16) as byte, ((b % 16) * 16 + c / 4) as byte])
    else DecodeFull(q)
  }

  /** The canonical decoding, the inverse of `Encode`; `None` for a text that
      is not the canonical encoding of any bytes. */
  function Decode(s: string): Option<seq<byte>>
    decreases |s|
  {
    if |s| == 0 then Some([])
    else if |s| < 4 then None
    else if |s| == 4 then DecodeLast(s)
    else
      match DecodeFull(s[..4])
      case None => None
      case Some(head) =>
        match Decode(s[4..])
        case None => None
        case Some(tail) => Some(head + tail)
  }

  lemma SplitByte(x: int, k: int)
    requires 0 <= x && 0 < k
    ensures (x / k) * k + x % k == x
  {
  }

  lemma FullGroupRoundTrip(x: int, y: int, z: int)
    requires 0 <= x < 256 && 0 <= y < 256 && 0 <= z < 256
    ensures DecodeFull(Block3(x, y, z)) == Some([x as byte, y as byte, z as byte])
  {
    var b := (x % 4) * 16 + y / 16;
    var c := (y % 16) * 4 + z / 64;
    assert b / 16 == x % 4 && b % 16 == y / 16;
    assert c / 4 == y % 16 && c % 4 == z / 64;
    SplitByte(x, 4);
    SplitByte(y, 16);
    SplitByte(z, 64);
  }

  lemma LastOneRoundTrip(x: int)
    requires 0 <= x < 256
    ensures DecodeLast([Digit(x / 4), Digit((x % 4) * 16), '=', '=']) == Some([x as byte])
  {
    SplitByte(x, 4);
    assert ((x % 4) * 16) / 16 == x % 4;
  }

  lemma LastTwoRoundTrip(x: int, y: int)
    requires 0 <= x < 256 && 0 <= y < 256
    ensures DecodeLast([Digit(x / 4), Digit((x % 4) * 16 + y / 16), Digit((y % 16) * 4), '='])
         == Some([x as byte, y as byte])
  {
    var m := (x % 4) * 16 + y / 16;
    assert m / 16 == x % 4 && m % 16 == y / 16;
    assert ((y % 16) * 4) / 4 == y % 16;
    SplitByte(x, 4);
    SplitByte(y, 16);
  }

  /** A final group of three bytes has no padding, so `DecodeLast` reads it as a full group. */
  lemma LastThreeRoundTrip(x: int, y: int, z: int)
    requires 0 <= x < 256 && 0 <= y < 256 && 0 <= z < 256
    ensures DecodeLast(Block3(x, y, z)) == Some([x as byte, y as byte, z as byte])
  {
    FullGroupRoundTrip(x, y, z);
  }

  /** A full group followed by more text decodes group by group. */
  lemma DecodeGroupThenRest(head: string, rest: string)
    requires |head| == 4 && |rest| > 0
    ensures Decode(head + rest) ==
      match DecodeFull(head)
      case None => None
      case Some(h) => match Decode(rest) case None => None case Some(t) => Some(h + t)
  {
    assert (head + rest)[..4] == head;
    assert (head + rest)[4..] == rest;
  }

  /** Encoding of the tail after one full group. */
  lemma EncodeTail(b: seq<byte>)
    requires |b| > 3
    ensures Encode(b) == Block3(b[0] as int, b[1] as int, b[2] as int) + Encode(b[3..])
    ensures |Encode(b[3..])| > 0
  {
  }

  lemma RoundTripOne(b: seq<byte>)
    requires |b| == 1
    ensures Decode(Encode(b)) == Some(b)
  {
    LastOneRoundTrip(b[0] as int);
    assert [b[0]] == b;
  }

  lemma RoundTripTwo(b: seq<byte>)
    requires |b| == 2
    ensures Decode(Encode(b)) == Some(b)
  {
    LastTwoRoundTrip(b[0] as int, b[1] as int);
    assert [b[0], b[1]] == b;
  }

  lemma RoundTripThree(b: seq<byte>)
    requires |b| == 3
    ensures Decode(Encode(b)) == Some(b)
  {
    var head := Block3(b[0] as int, b[1] as int, b[2] as int);
    LastThreeRoundTrip(b[0] as int, b[1] as int, b[2] as int);
    assert b[3..] == [];
    assert Encode(b) == head + "" == head;
    assert [b[0], b[1], b[2]] == b;
  }

  /** Decoding an encoding gives back the bytes. */
  lemma {:induction false} DecodeEncode(b: seq<byte>)
    ensures Decode(Encode(b)) == Some(b)
    decreases |b|
  {
    if |b| == 0 {
    } else if |b| == 1 {
      RoundTripOne(b);
    } else if |b| == 2 {
      RoundTripTwo(b);
    } else if |b| == 3 {
      RoundTripThree(b);
    } else {
      var head := Block3(b[0] as int, b[1] as int, b[2] as int);
      EncodeTail(b);
      FullGroupRoundTrip(b[0] as int, b[1] as int, b[2] as int);
      DecodeEncode(b[3..]);
      DecodeGroupThenRest(head, Encode(b[3..]));
      assert [b[0], b[1], b[2]] + b[3..] == b;
    }
  }

  /** Each alphabet character is the digit of its own value. */
  lemma DigitOfSextet(c: char)
    requires IsAlphabet(c)
    ensures Digit(SextetOf(c)) == c
  {
  }

  /** Regrouping four 6-bit values as three bytes and back gives the same values. */
  lemma SextetsRegroup(a: int, b: int, c: int, d: int)
    requires 0 <= a < 64 && 0 <= b < 64 && 0 <= c < 64 && 0 <= d < 64
    ensures 0 <= a * 4 + b / 16 < 256 && 0 <= (b % 16) * 16 + c / 4 < 256 && 0 <= (c % 4) * 64 + d < 256
    ensures (a * 4 + b / 16) / 4 == a
    ensures ((a * 4 + b / 16) % 4) * 16 + ((b % 16) * 16 + c / 4) / 16 == b
    ensures (((b % 16) * 16 + c / 4) % 16) * 4 + ((c % 4) * 64 + d) / 64 == c
    ensures ((c % 4) * 64 + d) % 64 == d
  {
    var x, y, z := a * 4 + b / 16, (b % 16) * 16 + c / 4, (c % 4) * 64 + d;
    assert x / 4 == a && x % 4 == b / 16;
    assert y / 16 == b % 16 && y % 16 == c / 4;
    assert z / 64 == c % 4 && z % 64 == d;
    SplitByte(b, 16);
    SplitByte(c, 4);
  }

  /** A group whose digit values are known encodes as those digits. */
  lemma Block3Digits(x: int, y: int, z: int, a: int, b: int, c: int, d: int)
    requires 0 <= x < 256 && 0 <= y < 256 && 0 <= z < 256
    requires x / 4 == a && (x % 4) * 16 + y / 16 == b && (y % 16) * 4 + z / 64 == c && z % 64 == d
    ensures Block3(x, y, z) == [Digit(a), Digit(b), Digit(c), Digit(d)]
  {
  }

  /** The bytes of a full group are re-encoded as that group. */
  lemma FullGroupEncode(q: string)
    requires |q| == 4 && DecodeFull(q).Some?
    ensures var v := DecodeFull(q).value;
      |v| == 3 && Block3(v[0] as int, v[1] as int, v[2] as int) == q
  {
    var a, b, c, d := SextetOf(q[0]), SextetOf(q[1]), SextetOf(q[2]), SextetOf(q[3]);
    var x, y, z := a * 4 + b / 16, (b % 16) * 16 + c / 4, (c % 4) * 64 + d;
    var v := DecodeFull(q).value;
    assert v[0] as int == x && v[1] as int == y && v[2] as int == z;
    SextetsRegroup(a, b, c, d);
    Block3Digits(x, y, z, a, b, c, d);
    DigitOfSextet(q[0]);
    DigitOfSextet(q[1]);
    DigitOfSextet(q[2]);
    DigitOfSextet(q[3]);
    assert [Digit(a), Digit(b), Digit(c), Digit(d)] == [q[0], q[1], q[2], q[3]] == q;
  }

  /** A final group with `==` padding that decodes is re-encoded as itself. */
  lemma LastOneEncode(q: string)
    requires |q| == 4 && q[2] == '=' && q[3] == '=' && DecodeLast(q).Some?
    ensures Encode(DecodeLast(q).value) == q
  {
    var a, b := SextetOf(q[0]), SextetOf(q[1]);
    var x := a * 4 + b / 16;
    assert DecodeLast(q).value == [x as byte];
    assert x / 4 == a && (x % 4) * 16 == b;
    DigitOfSextet(q[0]);
    DigitOfSextet(q[1]);
  }

  /** A final group with `=` padding that decodes is re-encoded as itself. */
  lemma LastTwoEncode(q: string)
    requires |q| == 4 && q[2] != '=' && q[3] == '=' && DecodeLast(q).Some?
    ensures Encode(DecodeLast(q).value) == q
  {
    var a, b, c := SextetOf(q[0]), SextetOf(q[1]), SextetOf(q[2]);
    var x, y := a * 4 + b / 16, (b % 16) * 16 + c / 4;
    assert DecodeLast(q).value == [x as byte, y as byte];
    assert x / 4 == a && x % 4 == b / 16 && y / 16 == b % 16;
    SplitByte(b, 16);
    assert (x % 4) * 16 + y / 16 == b;
    assert (y % 16) * 4 == c;
    DigitOfSextet(q[0]);
    DigitOfSextet(q[1]);
    DigitOfSextet(q[2]);
  }

  /** An unpadded final group that decodes is re-encoded as itself. */
  lemma LastThreeEncode(q: string)
    requires |q| == 4 && q[3] != '=' && DecodeLast(q).Some?
    ensures Encode(DecodeLast(q).value) == q
  {
    var v := DecodeLast(q).value;
    assert DecodeLast(q) == DecodeFull(q);
    FullGroupEncode(q);
    assert v[3..] == [];
    assert Encode(v) == Block3(v[0] as int, v[1] as int, v[2] as int) + "";
  }

  /** A single group that decodes is re-encoded as itself. */
  lemma LastGroupEncode(q: string)
    requires |q| == 4 && DecodeLast(q).Some?
    ensures Encode(DecodeLast(q).value) == q
  {
    if q[2] == '=' && q[3] == '=' {
      LastOneEncode(q);
    } else if q[3] == '=' {
      LastTwoEncode(q);
    } else {
      LastThreeEncode(q);
    }
  }

  /** Every text that decodes at all is the encoding of what it decodes to:
      there is exactly one encoding of each byte sequence. */
  lemma {:induction false} EncodeOfDecode(t: string)
    requires Decode(t).Some?
    ensures Encode(Decode(t).value) == t
    decreases |t|
  {
    if |t| == 4 {
      LastGroupEncode(t);
    } else if |t| > 4 {
      var q, rest := t[..4], t[4..];
      var head, tail := DecodeFull(q).value, Decode(rest).value;
      FullGroupEncode(q);
      EncodeOfDecode(rest);
      assert |tail| > 0 by {
        if |rest| == 4 { assert DecodeLast(rest).Some?; } else { assert |DecodeFull(rest[..4]).value| == 3; }
      }
      var v := head + tail;
      assert Decode(t).value == v;
      assert v[..3] == head && v[3..] == tail;
      EncodeTail(v);
      assert t == q + rest;
    }
  }

  /** `window.btoa(s)`: `None` stands for the `InvalidCharacterError` it throws
      when a character code exceeds 255. */
  function Btoa(s: string): (r: Option<string>)
    ensures r.Some? <==> IsLatin1(s)
    ensures r.Some? ==> Decode(r.value) == Some(CharCodes(s))
  {
    if IsLatin1(s) then
      DecodeEncode(CharCodes(s));
      Some(Encode(CharCodes(s)))
    else None
  }

  /** `btoa`'s result is the only text that decodes to the string's character codes. */
  lemma BtoaIsCanonical(s: string, t: string)
    requires IsLatin1(s) && Decode(t) == Some(CharCodes(s))
    ensures Btoa(s) == Some(t)
  {
    EncodeOfDecode(t);
  }
}
