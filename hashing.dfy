/**
 * Password hashing with bcryptjs at cost 10. bcrypt keys its cipher with
 * exactly 72 bytes: the password's UTF-8 encoding followed by a NUL byte,
 * repeated as often as needed and cut at 72. Two passwords with the same
 * key are the same password to bcrypt. Beyond that, bcrypt is modelled as
 * an ideal salted hash: a digest records the salt drawn for it and the key
 * it was made from. The salt is a parameter because bcrypt draws it at
 * random.
 */
module Hashing {
  import opened Utf8

  /** The number of key bytes bcrypt uses. */
  const KeyLength: nat := 72

  datatype Digest = Digest(salt: nat, key: seq<Byte>)

  /** `bytes` repeated as often as needed and cut at `n`. */
  function Cycle(bytes: seq<Byte>, n: nat): (c: seq<Byte>)
    requires bytes != []
    ensures |c| == n
    ensures forall i :: 0 <= i < |bytes| && i < n ==> c[i] == bytes[i]
  {
    if n <= |bytes| then bytes[..n] else bytes + Cycle(bytes, n - |bytes|)
  }

  /** The 72 bytes bcrypt keys its cipher with for `password`. */
  function Key(password: string): (k: seq<Byte>)
    ensures |k| == KeyLength
    ensures forall i :: 0 <= i < |Encode(password)| && i < KeyLength ==> k[i] == Encode(password)[i]
    ensures |Encode(password)| < KeyLength ==> k[|Encode(password)|] == 0
  {
    var b := Encode(password) + [0];
    assert forall i :: 0 <= i < |Encode(password)| ==> b[i] == Encode(password)[i];
    Cycle(b, KeyLength)
  }

  /** `HashUtil.hashPassword`: a digest that checks against the password it was made from. */
  function HashPassword(password: string, salt: nat): (d: Digest)
    ensures CheckPassword(password, d)
    ensures d.salt == salt
  {
    Digest(salt, Key(password))
  }

  /**
   * `HashUtil.checkPassword`: `bcrypt.compare` hashes the input with the
   * digest's salt and compares the result with the digest.
   */
  predicate CheckPassword(input: string, d: Digest): (ok: bool)
    ensures ok ==> |d.key| == KeyLength
    ensures ok ==> forall i :: 0 <= i < |Encode(input)| && i < KeyLength ==> d.key[i] == Encode(input)[i]
  {
    Key(input) == d.key
  }

  /** The check accepts exactly the inputs that hash, under the digest's own salt, to the digest. */
  lemma CheckRehashes(input: string, d: Digest)
    ensures CheckPassword(input, d) <==> HashPassword(input, d.salt) == d
  {
  }

  /**
   * An input whose encoding is shorter than the password's, when the
   * password has at most 72 bytes and no NUL character, is rejected: its
   * key has the NUL terminator where the password's has a password byte.
   */
  lemma ShorterInputFails(password: string, input: string, salt: nat)
    requires NoNul(password) && |Encode(input)| < |Encode(password)| <= KeyLength
    ensures !CheckPassword(input, HashPassword(password, salt))
  {
    EncodeNoZero(password);
    var m := |Encode(input)|;
    assert Key(input)[m] == 0 != Key(password)[m];
  }

  /**
   * A digest of a password of at most 72 bytes without NUL characters
   * accepts that password and no other such password.
   */
  lemma CheckMatchesOnlyTheHashedPassword(password: string, input: string, salt: nat)
    requires NoNul(password) && NoNul(input)
    requires |Encode(password)| <= KeyLength && |Encode(input)| <= KeyLength
    ensures CheckPassword(input, HashPassword(password, salt)) <==> input == password
  {
    var l, m := |Encode(password)|, |Encode(input)|;
    if m < l {
      ShorterInputFails(password, input, salt);
    } else if l < m {
      ShorterInputFails(input, password, salt);
    } else if CheckPassword(input, HashPassword(password, salt)) {
      assert Encode(input) == Encode(password) by {
        forall i | 0 <= i < l
          ensures Encode(input)[i] == Encode(password)[i]
        {
          assert Key(input)[i] == Key(password)[i];
        }
      }
      EncodeInjective(input, password);
    }
  }

  /**
   * Only the first 72 bytes count: two inputs of at least 72 bytes check
   * alike exactly when their first 72 bytes agree.
   */
  lemma LongPasswordsCompareByPrefix(password: string, input: string, salt: nat)
    requires |Encode(password)| >= KeyLength && |Encode(input)| >= KeyLength
    ensures CheckPassword(input, HashPassword(password, salt)) <==> Encode(input)[..KeyLength] == Encode(password)[..KeyLength]
  {
    assert Key(input) == Encode(input)[..KeyLength];
    assert Key(password) == Encode(password)[..KeyLength];
  }

  /** Text appended to a password of at least 72 bytes is ignored, in either direction. */
  lemma AppendedTextIgnored(password: string, extra: string, salt: nat)
    requires |Encode(password)| >= KeyLength
    ensures CheckPassword(password + extra, HashPassword(password, salt))
    ensures CheckPassword(password, HashPassword(password + extra, salt))
  {
    EncodeAppend(password, extra);
    assert Encode(password + extra)[..KeyLength] == Encode(password)[..KeyLength];
    LongPasswordsCompareByPrefix(password, password + extra, salt);
    LongPasswordsCompareByPrefix(password + extra, password, salt);
  }

  /**
   * An input whose first character differs from the password's is
   * rejected, whatever the lengths: the first character's encoding lies
   * within the 72 key bytes.
   */
  lemma ChangedFirstCharacterFails(password: string, input: string, salt: nat)
    requires password != [] && input != [] && password[0] != input[0]
    ensures !CheckPassword(input, HashPassword(password, salt))
  {
    EncodeCharPrefixFree(password[0], input[0]);
    var k :| 0 <= k < |EncodeChar(password[0])| && k < |EncodeChar(input[0])| && EncodeChar(password[0])[k] != EncodeChar(input[0])[k];
    assert Encode(password)[k] == EncodeChar(password[0])[k];
    assert Encode(input)[k] == EncodeChar(input[0])[k];
    assert Key(password)[k] != Key(input)[k];
  }
}
