/**
 * Passphrase generation in FileObj.encrypt (FilePG.py:61-62): KeyLength
 * characters, each chosen from `string.ascii_letters + string.digits`.
 * The cryptographic random source is not modelled: the indices it chose are
 * an input, so every property below holds for every possible draw.
 */
module Passphrase {
  import opened Config

  /** The `count` consecutive characters starting at `first`. */
  function CharRange(first: char, count: nat): (r: string)
    requires first as int + count <= 128
    ensures |r| == count
  {
    seq(count, k requires 0 <= k < count => (first as int + k) as char)
  }

  /** `string.ascii_lowercase`: "abcdefghijklmnopqrstuvwxyz". */
  const Lowercase: string := CharRange('a', 26)
  /** `string.ascii_uppercase`: "ABCDEFGHIJKLMNOPQRSTUVWXYZ". */
  const Uppercase: string := CharRange('A', 26)
  /** `string.digits`: "0123456789". */
  const Digits: string := CharRange('0', 10)
  /** `string.ascii_letters + string.digits`, in that order. */
  const Alphabet: string := Lowercase + Uppercase + Digits

  /** The three ranges are the constants of Python's `string` module, character for character. */
  lemma AlphabetLiterals()
    ensures Lowercase == "abcdefghijklmnopqrstuvwxyz"
    ensures Uppercase == "ABCDEFGHIJKLMNOPQRSTUVWXYZ"
    ensures Digits == "0123456789"
    ensures |Alphabet| == 62
  {
  }

  /** An ASCII letter or digit. */
  predicate IsAlnum(c: char)
  {
    ('a' <= c <= 'z') || ('A' <= c <= 'Z') || ('0' <= c <= '9')
  }

  /** What one run of `choice(alphabet) for i in range(KEYLENGTH)` can produce. */
  predicate IsDraw(picks: seq<nat>)
  {
    |picks| == KeyLength && forall k :: 0 <= k < |picks| ==> picks[k] < |Alphabet|
  }

  /** A well-formed passphrase: KeyLength ASCII letters and digits. */
  predicate IsKey(s: string)
  {
    |s| == KeyLength && forall k :: 0 <= k < |s| ==> IsAlnum(s[k])
  }

  /** Position of an alphanumeric character in Alphabet. */
  function IndexOf(c: char): nat
  {
    if 'a' <= c <= 'z' then c as nat - 'a' as nat
    else if 'A' <= c <= 'Z' then 26 + (c as nat - 'A' as nat)
    else if '0' <= c <= '9' then 52 + (c as nat - '0' as nat)
    else 0
  }

  /** Alphabet holds exactly the 62 ASCII letters and digits, each once, at IndexOf. */
  lemma AlphabetIsAlnum(i: nat)
    requires i < |Alphabet|
    ensures IsAlnum(Alphabet[i]) && IndexOf(Alphabet[i]) == i
  {
    assert |Alphabet| == 62;
    if i < 26 {
      assert Alphabet[i] == Lowercase[i];
    } else if i < 52 {
      assert Alphabet[i] == Uppercase[i - 26];
    } else {
      assert Alphabet[i] == Digits[i - 52];
    }
  }

  /** Every ASCII letter or digit occurs in Alphabet. */
  lemma AlnumInAlphabet(c: char)
    requires IsAlnum(c)
    ensures IndexOf(c) < |Alphabet| && Alphabet[IndexOf(c)] == c
  {
    assert |Alphabet| == 62;
    if 'a' <= c <= 'z' {
      assert Alphabet[IndexOf(c)] == Lowercase[IndexOf(c)];
    } else if 'A' <= c <= 'Z' {
      assert Alphabet[IndexOf(c)] == Uppercase[IndexOf(c) - 26];
    } else {
      assert Alphabet[IndexOf(c)] == Digits[IndexOf(c) - 52];
    }
  }

  /** `''.join(alphabet[p] for p in picks)`. */
  function Password(picks: seq<nat>): (pw: string)
    requires forall k :: 0 <= k < |picks| ==> picks[k] < |Alphabet|
    ensures |pw| == |picks|
    ensures forall k :: 0 <= k < |pw| ==> IsAlnum(pw[k])
  {
    if picks == [] then ""
    else
      AlphabetIsAlnum(picks[0]);
      [Alphabet[picks[0]]] + Password(picks[1..])
  }

  /** Every draw gives a well-formed key. */
  lemma PasswordIsKey(picks: seq<nat>)
    requires IsDraw(picks)
    ensures IsKey(Password(picks))
  {
  }

  /** Reads a passphrase back as the indices that were drawn. */
  function Indices(pw: string): (r: seq<nat>)
    ensures |r| == |pw|
  {
    if pw == [] then [] else [IndexOf(pw[0])] + Indices(pw[1..])
  }

  /**
   * Indices undoes Password, so distinct draws give distinct passphrases:
   * the passphrase keeps every bit of the draw.
   */
  lemma {:induction false} PasswordRoundTrip(picks: seq<nat>)
    requires forall k :: 0 <= k < |picks| ==> picks[k] < |Alphabet|
    ensures Indices(Password(picks)) == picks
  {
    if picks != [] {
      AlphabetIsAlnum(picks[0]);
      PasswordRoundTrip(picks[1..]);
    }
  }

  /** Password and Indices are inverse the other way round too, on well-formed keys. */
  lemma {:induction false} IndicesRoundTrip(pw: string)
    requires forall k :: 0 <= k < |pw| ==> IsAlnum(pw[k])
    ensures forall k :: 0 <= k < |pw| ==> Indices(pw)[k] < |Alphabet|
    ensures Password(Indices(pw)) == pw
  {
    if pw != [] {
      AlnumInAlphabet(pw[0]);
      IndicesRoundTrip(pw[1..]);
    }
  }

  /** Two draws give the same passphrase only when they are the same draw. */
  lemma PasswordInjective(a: seq<nat>, b: seq<nat>)
    requires IsDraw(a) && IsDraw(b)
    requires Password(a) == Password(b)
    ensures a == b
  {
    PasswordRoundTrip(a);
    PasswordRoundTrip(b);
  }
}
