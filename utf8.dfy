/**
 * UTF-8, the byte encoding bcrypt hashes a password in. Dafny's `char`
 * is a Unicode scalar value, so every character has an encoding of one
 * to four bytes.
 */
module Utf8 {
  type Byte = x: int | 0 <= x < 256

  /** The encoding of one character. */
  function EncodeChar(c: char): (b: seq<Byte>)
    ensures 1 <= |b| <= 4
  {
    var cp := c as int;
    if cp < 0x80 then [cp]
    else if cp < 0x800 then [0xC0 + cp / 64, 0x80 + cp % 64]
    else if cp < 0x10000 then [0xE0 + cp / 4096, 0x80 + (cp / 64) % 64, 0x80 + cp % 64]
    else [0xF0 + cp / 262144, 0x80 + (cp / 4096) % 64, 0x80 + (cp / 64) % 64, 0x80 + cp % 64]
  }

  /** The length of the sequence that starts with `lead`. */
  function SequenceLength(lead: Byte): nat {
    if lead < 0x80 then 1 else if lead < 0xE0 then 2 else if lead < 0xF0 then 3 else 4
  }

  /** The code point a sequence of one to four bytes stands for. */
  function DecodeChar(b: seq<Byte>): int
    requires 1 <= |b| <= 4
  {
    var b0, b1, b2, b3 := b[0] as int, if |b| > 1 then b[1] as int else 0, if |b| > 2 then b[2] as int else 0, if |b| > 3 then b[3] as int else 0;
    if |b| == 1 then b0
    else if |b| == 2 then (b0 - 0xC0) * 64 + (b1 - 0x80)
    else if |b| == 3 then (b0 - 0xE0) * 4096 + (b1 - 0x80) * 64 + (b2 - 0x80)
    else (b0 - 0xF0) * 262144 + (b1 - 0x80) * 4096 + (b2 - 0x80) * 64 + (b3 - 0x80)
  }

  /**
   * The lead byte of a character's encoding gives its length, and only
   * the NUL character encodes to a zero byte.
   */
  lemma EncodeCharShape(c: char)
    ensures |EncodeChar(c)| == SequenceLength(EncodeChar(c)[0])
    ensures c != '\0' ==> forall j :: 0 <= j < |EncodeChar(c)| ==> EncodeChar(c)[j] != 0
  {
  }

  /** Decoding undoes the encoding of a character. */
  lemma DecodeEncodeChar(c: char)
    ensures DecodeChar(EncodeChar(c)) == c as int
  {
    var cp := c as int;
    if cp < 0x80 {
    } else if cp < 0x800 {
      assert cp == (cp / 64) * 64 + cp % 64;
    } else if cp < 0x10000 {
      assert cp / 64 == (cp / 4096) * 64 + (cp / 64) % 64;
      assert cp == (cp / 64) * 64 + cp % 64;
    } else {
      assert cp / 4096 == (cp / 262144) * 64 + (cp / 4096) % 64;
      assert cp / 64 == (cp / 4096) * 64 + (cp / 64) % 64;
      assert cp == (cp / 64) * 64 + cp % 64;
    }
  }

  /**
   * The encodings of two different characters differ at a position both
   * have: neither is a prefix of the other.
   */
  lemma EncodeCharPrefixFree(a: char, b: char)
    requires a != b
    ensures exists k :: 0 <= k < |EncodeChar(a)| && k < |EncodeChar(b)| && EncodeChar(a)[k] != EncodeChar(b)[k]
  {
    EncodeCharShape(a);
    EncodeCharShape(b);
    DecodeEncodeChar(a);
    DecodeEncodeChar(b);
    if EncodeChar(a)[0] == EncodeChar(b)[0] {
      assert |EncodeChar(a)| == |EncodeChar(b)|;
      assert EncodeChar(a) != EncodeChar(b);
    } else {
      assert EncodeChar(a)[0] != EncodeChar(b)[0];
    }
  }

  /** The encoding of a string: its characters' encodings, one after another. */
  function Encode(s: string): (b: seq<Byte>)
    ensures |b| >= |s|
  {
    if s == [] then [] else EncodeChar(s[0]) + Encode(s[1..])
  }

  /** The string has no NUL character. */
  predicate NoNul(s: string) {
    forall i :: 0 <= i < |s| ==> s[i] != '\0'
  }

  lemma {:induction false} EncodeAppend(s: string, t: string)
    ensures Encode(s + t) == Encode(s) + Encode(t)
  {
    if s != [] {
      assert (s + t)[0] == s[0] && (s + t)[1..] == s[1..] + t;
      EncodeAppend(s[1..], t);
    } else {
      assert s + t == t;
    }
  }

  /** A string without NUL characters encodes to bytes none of which is zero. */
  lemma {:induction false} EncodeNoZero(s: string)
    requires NoNul(s)
    ensures forall i :: 0 <= i < |Encode(s)| ==> Encode(s)[i] != 0
  {
    if s != [] {
      EncodeCharShape(s[0]);
      EncodeNoZero(s[1..]);
    }
  }

  /** Different strings have different encodings. */
  lemma {:induction false} EncodeInjective(s: string, t: string)
    requires Encode(s) == Encode(t)
    ensures s == t
  {
    if s != [] && t != [] {
      if s[0] != t[0] {
        EncodeCharPrefixFree(s[0], t[0]);
        assert false;
      }
      assert Encode(s)[|EncodeChar(s[0])|..] == Encode(s[1..]);
      EncodeInjective(s[1..], t[1..]);
    }
  }

  /** A proper infix of a string encodes to fewer bytes than the string. */
  lemma EncodeInfixShorter(s: string, i: nat, j: nat)
    requires i <= j <= |s| && j - i < |s|
    ensures |Encode(s[i..j])| < |Encode(s)|
  {
    assert s == s[..i] + (s[i..j] + s[j..]);
    EncodeAppend(s[..i], s[i..j] + s[j..]);
    EncodeAppend(s[i..j], s[j..]);
  }
}
