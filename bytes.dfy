/** Bytes of a binary socket frame and the one-byte-per-character decoding the
    login handshake applies to them (`String.fromCharCode` on each byte). */
module Bytes {

  newtype byte = x: int | 0 <= x < 256

  /** True when every character code fits in one byte (a "Latin-1" string). */
  predicate IsLatin1(s: string)
  {
    forall i :: 0 <= i < |s| ==> s[i] as int < 256
  }

  /** `String.fromCharCode(b[0]) + ... + String.fromCharCode(b[n-1])`. */
  function FromCharCodes(b: seq<byte>): (s: string)
    ensures |s| == |b|
  {
    seq(|b|, i requires 0 <= i < |b| => (b[i] as int) as char)
  }

  /** Each character's code is its byte, so the text is Latin-1. */
  lemma FromCharCodesCodes(b: seq<byte>)
    ensures forall i :: 0 <= i < |b| ==> FromCharCodes(b)[i] as int == b[i] as int
    ensures IsLatin1(FromCharCodes(b))
  {
  }

  /** `s.charCodeAt(i)` for every position of a Latin-1 string. */
  function CharCodes(s: string): (b: seq<byte>)
    requires IsLatin1(s)
    ensures |b| == |s|
  {
    seq(|s|, i requires 0 <= i < |s| => s[i] as int as byte)
  }

  /** Decoding bytes to characters loses nothing: the character codes are the bytes. */
  lemma CharCodesOfFromCharCodes(b: seq<byte>)
    ensures CharCodes(FromCharCodes(b)) == b
  {
    var s := FromCharCodes(b);
    FromCharCodesCodes(b);
    forall i | 0 <= i < |b| ensures CharCodes(s)[i] == b[i] {
      assert s[i] as int == b[i] as int;
    }
  }

  /** And every Latin-1 string is the decoding of its own character codes. */
  lemma FromCharCodesOfCharCodes(s: string)
    requires IsLatin1(s)
    ensures FromCharCodes(CharCodes(s)) == s
  {
    var b := CharCodes(s);
    forall i | 0 <= i < |s| ensures FromCharCodes(b)[i] == s[i] {
      assert b[i] as int == s[i] as int;
    }
  }
}
