/**
 * platformValidation (FilePG.py:167-193). Seven checks run in order and each
 * failing one overwrites `status`, so the result is the number of the LAST
 * failing check, or 0 when all pass. The host platform, the exit status and
 * the output of `gpg --version` are parameters; the configuration values the
 * checks read are a Settings record.
 */
module Validation {
  import opened Config

  /** What the program learns from its host: `sys.platform` and `gpg --version`. */
  datatype Env = Env(platform: string, gpgExitOk: bool, gpgVersion: string)

  /** The configuration values the checks read: KEYLENGTH, CIPHER, DIGEST, EXT. */
  datatype Settings = Settings(keyLength: int, cipher: string, digest: string, ext: string)

  /** The configuration the program ships with. */
  const Shipped: Settings := Settings(KeyLength, Cipher, Digest, Ext)

  const ExpectedVersionPrefix: string := "gpg (GnuPG) 2."

  /** `needle` starts at position i of `hay`. */
  predicate OccursAt(needle: string, hay: string, i: nat)
  {
    i + |needle| <= |hay| && hay[i..i + |needle|] == needle
  }

  /** Python's `needle in hay` on strings. */
  predicate IsSubstring(needle: string, hay: string)
  {
    exists i: nat :: i <= |hay| && OccursAt(needle, hay, i)
  }

  /**
   * As with Python's `in`: the empty string is in every string, a string is
   * in any string that contains it as a part, and nothing is in a shorter
   * string.
   */
  lemma IsSubstringFacts(needle: string, before: string, after: string, hay: string)
    ensures IsSubstring([], hay)
    ensures IsSubstring(needle, before + needle + after)
    ensures |hay| < |needle| ==> !IsSubstring(needle, hay)
  {
    assert OccursAt([], hay, 0);
    var whole := before + needle + after;
    assert whole[|before|..|before| + |needle|] == needle;
    assert OccursAt(needle, whole, |before|);
  }

  /** `gpgVersion[0:14] != "gpg (GnuPG) 2."`; a shorter string is its own slice. */
  predicate VersionMismatch(version: string)
    ensures !VersionMismatch(version) <==> |version| >= 14 && version[..14] == ExpectedVersionPrefix
  {
    (if |version| < 14 then version else version[..14]) != ExpectedVersionPrefix
  }

  /** Check number `check` (1 to 7) fails. */
  predicate Fails(check: nat, env: Env, s: Settings)
    ensures Fails(check, env, s) ==> 1 <= check <= 7
  {
    match check
    case 1 => env.platform != "linux"
    case 2 => !env.gpgExitOk
    case 3 => VersionMismatch(env.gpgVersion)
    case 4 => s.keyLength < 10
    case 5 => !IsSubstring(s.cipher, env.gpgVersion)
    case 6 => !IsSubstring(s.digest, env.gpgVersion)
    case 7 => |s.ext| < 1
    case _ => false
  }

  /** The highest-numbered failing check among 1..k, or 0 when none fails. */
  function HighestFailing(env: Env, s: Settings, k: nat): nat
  {
    if k == 0 then 0
    else if Fails(k, env, s) then k
    else HighestFailing(env, s, k - 1)
  }

  /** HighestFailing is what its name says: 0 iff all pass, else a failing check with none above it. */
  lemma {:induction false} HighestFailingSpec(env: Env, s: Settings, k: nat)
    ensures HighestFailing(env, s, k) <= k
    ensures HighestFailing(env, s, k) == 0 <==> forall c :: 1 <= c <= k ==> !Fails(c, env, s)
    ensures HighestFailing(env, s, k) != 0 ==>
      Fails(HighestFailing(env, s, k), env, s) &&
      forall c :: HighestFailing(env, s, k) < c <= k ==> !Fails(c, env, s)
  {
    if k > 0 && !Fails(k, env, s) {
      HighestFailingSpec(env, s, k - 1);
    }
  }

  /** platformValidation(): each failing check overwrites the status. */
  method PlatformValidation(env: Env, s: Settings) returns (status: nat)
    ensures status <= 7
    ensures status == 0 <==> forall c :: 1 <= c <= 7 ==> !Fails(c, env, s)
    ensures status != 0 ==> Fails(status, env, s) && forall c :: status < c <= 7 ==> !Fails(c, env, s)
    ensures status == HighestFailing(env, s, 7)
  {
    status := 0;
    if env.platform != "linux" {
      status := 1;
    }
    assert status == HighestFailing(env, s, 1);
    if !env.gpgExitOk {
      status := 2;
    }
    assert status == HighestFailing(env, s, 2);
    var version := env.gpgVersion;
    if (if |version| < 14 then version else version[..14]) != ExpectedVersionPrefix {
      status := 3;
    }
    assert status == HighestFailing(env, s, 3);
    if s.keyLength < 10 {
      status := 4;
    }
    assert status == HighestFailing(env, s, 4);
    if !IsSubstring(s.cipher, version) {
      status := 5;
    }
    assert status == HighestFailing(env, s, 5);
    if !IsSubstring(s.digest, version) {
      status := 6;
    }
    assert status == HighestFailing(env, s, 6);
    if |s.ext| < 1 {
      status := 7;
    }
    assert status == HighestFailing(env, s, 7);
    HighestFailingSpec(env, s, 7);
  }

  /** With the shipped configuration, checks 4 and 7 always pass. */
  lemma ShippedNeverFailsFourOrSeven(env: Env)
    ensures HighestFailing(env, Shipped, 7) != 4 && HighestFailing(env, Shipped, 7) != 7
  {
    assert !Fails(4, env, Shipped) && !Fails(7, env, Shipped);
    HighestFailingSpec(env, Shipped, 7);
  }

  /** A wrong version string together with a missing digest is reported as 6, not 3. */
  lemma BadVersionAndMissingDigestIsSix(env: Env, s: Settings)
    requires VersionMismatch(env.gpgVersion)
    requires !IsSubstring(s.digest, env.gpgVersion)
    requires |s.ext| >= 1
    ensures HighestFailing(env, s, 7) == 6
  {
  }

  /**
   * When `gpg --version` exits non-zero with no output, the shipped digest is
   * missing from the empty text, so the status is 6 and never 2.
   */
  lemma SilentGpgFailureIsReportedAsDigest(platform: string)
    ensures HighestFailing(Env(platform, false, ""), Shipped, 7) == 6
  {
    assert !IsSubstring(Digest, "") by {
      forall i: nat | i <= 0 ensures !OccursAt(Digest, "", i) { }
    }
  }

  /** A GnuPG 2 listing that names AES256 and SHA256 passes every check on Linux. */
  lemma GnuPG2OnLinuxPasses(version: string)
    requires |version| >= 14 && version[..14] == ExpectedVersionPrefix
    requires IsSubstring(Cipher, version) && IsSubstring(Digest, version)
    ensures HighestFailing(Env("linux", true, version), Shipped, 7) == 0
  {
    var env := Env("linux", true, version);
    assert !Fails(3, env, Shipped) && !Fails(5, env, Shipped) && !Fails(6, env, Shipped);
    HighestFailingSpec(env, Shipped, 7);
  }
}
