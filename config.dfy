/**
 * The fixed configuration of File Privacy Guard (FilePG.py:27-37).
 * The program has no flags: every run uses these values.
 */
module Config {

  /** Symmetric cipher passed to `gpg --cipher-algo`. */
  const Cipher: string := "AES256"
  /** Digest passed to `gpg --digest-algo`. */
  const Digest: string := "SHA256"
  /** Name endings that mark a directory entry as a file to process. */
  const DetectedFileTypes: seq<string> := ["zip", "7z"]
  /** Number of characters of every generated passphrase. */
  const KeyLength: nat := 20
  /** Files larger than this many megabytes are split. */
  const SplitLimitMB: nat := 1000
  /** Extension appended to the name of every encrypted file. */
  const Ext: string := ".enc"

  /** Bytes in one megabyte as the program counts them (2^20). */
  const BytesPerMB: nat := 1048576

  /**
   * The split decision `size / 1048576 > SPLITLIMIT` on a byte count.
   * Dividing by a power of two is exact, so the comparison is stated on
   * integers.
   */
  predicate ExceedsSplitLimit(sizeBytes: nat)
  {
    sizeBytes > SplitLimitMB * BytesPerMB
  }

  /** The integer test is Python's `size / 1048576 > SPLITLIMIT` with true division. */
  lemma SplitLimitIsTrueDivision(sizeBytes: nat)
    ensures ExceedsSplitLimit(sizeBytes) <==> sizeBytes as real / BytesPerMB as real > SplitLimitMB as real
  {
  }
}
