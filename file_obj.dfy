/**
 * One file to be processed: class FileObj (FilePG.py:40-141).
 * The shell commands it runs (`gpg`, `split`, `rm`, `mv`) are reduced to
 * their exit status, given as a parameter; every command a method runs is
 * returned as an Exec so that callers can reason about what touched the disk.
 */
module FileObjects {
  import opened Wrappers
  import opened Config
  import opened Passphrase

  /** A shell command the program runs on a file. */
  datatype Command =
    | Gpg(passphrase: string, input: string, output: string)
    | Split(pieceMB: nat, input: string, prefix: string)
    | Rm(path: string)
    | Mv(src: string, dst: string)

  /** A command that was run, with whether it exited with status 0. */
  datatype Exec = Exec(cmd: Command, ok: bool)

  /** The exceptions the methods raise. */
  datatype Error =
    | NotEncrypted   // `Exception('File has not been encrypted yet')`
    | CommandFailed  // `CalledProcessError` from `check_returncode()`

  /**
   * The commands splitIfShouldSplit runs on an encrypted file called `name`
   * of `sizeBytes` bytes: nothing within the limit, otherwise `split` and,
   * once that succeeded, `rm` of the combined ciphertext.
   */
  function SplitCommands(name: string, sizeBytes: nat, splitOk: bool, rmOk: bool): seq<Exec>
  {
    if !ExceedsSplitLimit(sizeBytes) then []
    else
      [Exec(Split(SplitLimitMB, name + Ext, name + Ext + "."), splitOk)]
      + (if splitOk then [Exec(Rm(name + Ext), rmOk)] else [])
  }

  /**
   * The split commands of one file only split and remove; they all succeed
   * unless the file is over the limit and `split` or `rm` fails, and then
   * only the last one failed.
   */
  lemma SplitCommandsOutcome(name: string, sizeBytes: nat, splitOk: bool, rmOk: bool)
    ensures var t := SplitCommands(name, sizeBytes, splitOk, rmOk);
      && (forall k :: 0 <= k < |t| ==> t[k].cmd.Split? || t[k].cmd.Rm?)
      && (t == [] <==> !ExceedsSplitLimit(sizeBytes))
      && ((forall k :: 0 <= k < |t| ==> t[k].ok) <==> !(ExceedsSplitLimit(sizeBytes) && !(splitOk && rmOk)))
      && (ExceedsSplitLimit(sizeBytes) && !(splitOk && rmOk) ==>
            |t| > 0 && !t[|t| - 1].ok && forall k :: 0 <= k < |t| - 1 ==> t[k].ok)
  {
    var t := SplitCommands(name, sizeBytes, splitOk, rmOk);
    if ExceedsSplitLimit(sizeBytes) && !(splitOk && rmOk) {
      assert !t[|t| - 1].ok;
    }
  }

  class FileObj {
    /** `_fileName`: the current name, without the appended Ext. */
    var name: string
    /** `_fileSize`, as the byte count `stat` printed at construction; never re-read. */
    const sizeBytes: nat
    /** `_key`: None until encrypt draws a passphrase. */
    var key: Option<string>
    /** `_isEncrypted`: set only when `gpg` succeeds, never reset. */
    var encrypted: bool

    /** An encrypted object always holds a well-formed key. */
    ghost predicate Valid()
      reads this
    {
      encrypted ==> key.Some? && IsKey(key.value)
    }

    /**
     * `__init__` (FilePG.py:43-53) once `stat` has succeeded and printed
     * `statBytes`; a failing `stat` raises before the object exists, which
     * the caller models.
     */
    constructor (fileName: string, statBytes: nat)
      ensures name == fileName && sizeBytes == statBytes
      ensures key == None && !encrypted
      ensures Valid()
    {
      name := fileName;
      sizeBytes := statBytes;
      key := None;
      encrypted := false;
    }

    /** `isEncrypted()`. */
    function IsEncrypted(): (r: bool)
      reads this
      ensures Valid() ==> (r <==> GetKey().Ok?)
    {
      encrypted
    }

    /** `__str__`: the current name. */
    function Display(): string
      reads this
    {
      name
    }

    /**
     * `encrypt()` (FilePG.py:56-71). The key is stored before `gpg` runs, so
     * a failed `gpg` leaves a key behind while the object stays unencrypted.
     * `ok` is false where the source raises.
     */
    method Encrypt(picks: seq<nat>, gpgOk: bool) returns (ok: bool, exec: Exec)
      requires Valid() && IsDraw(picks)
      modifies this
      ensures Valid()
      ensures ok == gpgOk
      ensures exec == Exec(Gpg(Password(picks), old(name), old(name) + Ext), gpgOk)
      ensures key == Some(Password(picks))
      ensures encrypted == (old(encrypted) || gpgOk)
      ensures name == old(name)
    {
      var password := Password(picks);
      PasswordIsKey(picks);
      key := Some(password);
      exec := Exec(Gpg(password, name, name + Ext), gpgOk);
      ok := gpgOk;
      if !gpgOk {
        return;
      }
      encrypted := true;
    }

    /** Whether splitIfShouldSplit raises, given what `split` and `rm` do. */
    predicate SplitRaises(splitOk: bool, rmOk: bool)
      reads this
    {
      !encrypted || (ExceedsSplitLimit(sizeBytes) && !(splitOk && rmOk))
    }

    /**
     * `splitIfShouldSplit()` (FilePG.py:74-92): 0 when the file was split and
     * the combined ciphertext removed, 1 when it was left whole. It changes
     * nothing in the object and decides from the size taken at construction.
     */
    method SplitIfShouldSplit(splitOk: bool, rmOk: bool) returns (r: Result<nat, Error>, execs: seq<Exec>)
      ensures r == Err(NotEncrypted) <==> !encrypted
      ensures r == Ok(0) <==> encrypted && ExceedsSplitLimit(sizeBytes) && splitOk && rmOk
      ensures r == Ok(1) <==> encrypted && !ExceedsSplitLimit(sizeBytes)
      ensures r == Err(CommandFailed) <==> encrypted && ExceedsSplitLimit(sizeBytes) && !(splitOk && rmOk)
      ensures r.Err? <==> SplitRaises(splitOk, rmOk)
      ensures execs == if encrypted then SplitCommands(name, sizeBytes, splitOk, rmOk) else []
    {
      if !encrypted {
        return Err(NotEncrypted), [];
      }
      if sizeBytes > SplitLimitMB * BytesPerMB {
        execs := [Exec(Split(SplitLimitMB, name + Ext, name + Ext + "."), splitOk)];
        if !splitOk {
          return Err(CommandFailed), execs;
        }
        execs := execs + [Exec(Rm(name + Ext), rmOk)];
        if !rmOk {
          return Err(CommandFailed), execs;
        }
        return Ok(0), execs;
      } else {
        return Ok(1), [];
      }
    }

    /**
     * `rename(newName)` (FilePG.py:95-102): moves `name + Ext` and then
     * stores the new name; a failing `mv` raises before the name changes.
     * Encryption is not required.
     */
    method Rename(newName: string, mvOk: bool) returns (ok: bool, exec: Exec)
      requires Valid()
      modifies this`name
      ensures Valid()
      ensures ok == mvOk
      ensures exec == Exec(Mv(old(name) + Ext, newName + Ext), mvOk)
      ensures name == if mvOk then newName else old(name)
    {
      exec := Exec(Mv(name + Ext, newName + Ext), mvOk);
      ok := mvOk;
      if mvOk {
        name := newName;
      }
    }

    /** `getKey()` (FilePG.py:113-121): the passphrase, or an error before encryption. */
    function GetKey(): (r: Result<string, Error>)
      reads this
      requires Valid()
      ensures r.Ok? <==> encrypted
      ensures r.Ok? ==> key == Some(r.value) && IsKey(r.value)
      ensures r.Err? ==> r.error == NotEncrypted
    {
      if !encrypted then Err(NotEncrypted) else Ok(key.value)
    }
  }
}
