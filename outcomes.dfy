/**
 * What a run of the main script (FilePG.py:196-307) does, as functions of its
 * inputs: the host environment, the selected names, what each external
 * command does for each file, the passphrase draws, and the lines of
 * standard input. The methods of Pipeline are proved to produce exactly these
 * outcomes; the lemmas here state what every outcome satisfies.
 */
module Outcomes {
  import opened Wrappers
  import opened Config
  import opened Passphrase
  import opened FileObjects
  import opened KeyPrinting
  import opened Validation
  import opened Prompts

  /** What the external commands do for one selected file, and the passphrase draw for it. */
  datatype FileScript = FileScript(
    statBytes: Option<nat>,  // None: `stat` failed
    picks: seq<nat>,          // the indices `secrets.choice` drew
    gpgOk: bool,
    mvOk: bool,
    splitOk: bool,
    rmOk: bool)

  /** How a run ends. */
  datatype End =
    | Unsupported(status: nat)          // platformValidation() != 0
    | StatFailed(index: nat)            // FileObj(fileName) raised
    | NoFiles                           // no supported files
    | NotConfirmed                      // first answer was not "y"
    | QuitAfterGpgError(index: nat)     // gpg failed on this file, user chose "q"
    | KeysAfterGpgError(index: nat)     // gpg failed on this file, user chose "v"
    | RenameRaised(index: nat)          // mv failed on this file
    | SplitRaised(index: nat, error: Error)  // splitIfShouldSplit raised on this file
    | InputExhausted                    // input() raised EOFError
    | Finished

  /** Every file has a draw `choice` can produce. */
  predicate WellFormed(script: seq<FileScript>)
  {
    forall i :: 0 <= i < |script| ==> IsDraw(script[i].picks)
  }

  /** The passphrase drawn for file i. */
  function Key(script: seq<FileScript>, i: nat): string
    requires i < |script| && IsDraw(script[i].picks)
  {
    Password(script[i].picks)
  }

  // ---------------------------------------------------------------------
  // Where each loop stops

  /** The first file from k on whose `stat` fails (FilePG.py:49-50 inside the loop at 225-226). */
  function StatFailure(script: seq<FileScript>, k: nat := 0): (r: Option<nat>)
    decreases |script| - k
    ensures r.Some? ==> k <= r.value < |script| && script[r.value].statBytes.None?
    ensures forall j :: k <= j < |script| && (r.None? || j < r.value) ==> script[j].statBytes.Some?
  {
    if |script| <= k then None
    else if script[k].statBytes.None? then Some(k)
    else StatFailure(script, k + 1)
  }

  /** The first file from k on whose `gpg` fails (FilePG.py:69 inside the loop at 258-264). */
  function GpgFailure(script: seq<FileScript>, k: nat := 0): (r: Option<nat>)
    decreases |script| - k
    ensures r.Some? ==> k <= r.value < |script| && !script[r.value].gpgOk
    ensures forall j :: k <= j < |script| && (r.None? || j < r.value) ==> script[j].gpgOk
  {
    if |script| <= k then None
    else if !script[k].gpgOk then Some(k)
    else GpgFailure(script, k + 1)
  }

  /**
   * The first rename from k on that does not complete when `avail` lines of
   * input were left at rename 0: input runs out before it is read, or its
   * `mv` fails.
   */
  function RenameStop(script: seq<FileScript>, avail: nat, k: nat := 0): (r: Option<nat>)
    requires k <= avail
    decreases |script| - k
    ensures r.Some? ==> k <= r.value < |script| && r.value <= avail && (r.value == avail || !script[r.value].mvOk)
    ensures r.None? ==> |script| <= avail
    ensures forall j :: k <= j < |script| && (r.None? || j < r.value) ==> j < avail && script[j].mvOk
  {
    if |script| <= k then None
    else if k == avail || !script[k].mvOk then Some(k)
    else RenameStop(script, avail, k + 1)
  }

  /**
   * RenameStop is the first rename i that does not complete: every earlier
   * rename had its line and a successful `mv`.
   */
  lemma RenameStopAt(script: seq<FileScript>, avail: nat, i: nat)
    requires i <= |script| && i <= avail
    requires forall j :: 0 <= j < i ==> script[j].mvOk
    ensures i < |script| && (i == avail || !script[i].mvOk) ==> RenameStop(script, avail) == Some(i)
    ensures i == |script| ==> RenameStop(script, avail) == None
  {
  }

  /** splitIfShouldSplit raises on this file once it is encrypted. */
  predicate SplitFails(s: FileScript)
  {
    s.statBytes.Some? && ExceedsSplitLimit(s.statBytes.value) && !(s.splitOk && s.rmOk)
  }

  /** The first file from k on on which splitIfShouldSplit raises (FilePG.py:302-307). */
  function SplitFailure(script: seq<FileScript>, k: nat := 0): (r: Option<nat>)
    decreases |script| - k
    ensures r.Some? ==> k <= r.value < |script| && SplitFails(script[r.value])
    ensures forall j :: k <= j < |script| && (r.None? || j < r.value) ==> !SplitFails(script[j])
  {
    if |script| <= k then None
    else if SplitFails(script[k]) then Some(k)
    else SplitFailure(script, k + 1)
  }

  // ---------------------------------------------------------------------
  // The commands and lines of each stage

  /** The `gpg` commands for the first n files, each with its own draw. */
  function GpgExecs(names: seq<string>, script: seq<FileScript>, n: nat): seq<Exec>
    requires n <= |names| == |script| && WellFormed(script)
  {
    seq(n, k requires 0 <= k < n => Exec(Gpg(Key(script, k), names[k], names[k] + Ext), script[k].gpgOk))
  }

  /** What keyPrinter prints when exactly the first m files are encrypted. */
  function KeysOf(names: seq<string>, script: seq<FileScript>, m: nat): seq<string>
    requires m <= |names| == |script| && WellFormed(script)
  {
    seq(m, j requires 0 <= j < m => KeyLine(names[j], Key(script, j)))
  }

  /** The first m `mv` commands, renaming file k to input line pos + k. */
  function MvExecs(names: seq<string>, script: seq<FileScript>, stdin: seq<string>, pos: nat, m: nat): seq<Exec>
    requires m <= |names| == |script| && pos + m <= |stdin|
  {
    seq(m, k requires 0 <= k < m => Exec(Mv(names[k] + Ext, stdin[pos + k] + Ext), script[k].mvOk))
  }

  /** The split commands for an encrypted file called `name`, sized by its `stat`. */
  function SplitOf(name: string, s: FileScript): seq<Exec>
  {
    match s.statBytes
    case None => []
    case Some(bytes) => SplitCommands(name, bytes, s.splitOk, s.rmOk)
  }

  /** The split commands of the first n files, in list order. */
  function SplitTrace(names: seq<string>, script: seq<FileScript>, n: nat): seq<Exec>
    requires n <= |names| && n <= |script|
  {
    if n == 0 then [] else SplitTrace(names, script, n - 1) + SplitOf(names[n - 1], script[n - 1])
  }

  // ---------------------------------------------------------------------
  // The outcome of each stage, and of the run

  /** Lines 269-275: the recovery prompt after `gpg` failed on file `failed`. */
  function RecoveryOutcome(names: seq<string>, script: seq<FileScript>, stdin: seq<string>, pos: nat, failed: nat)
    : (r: (End, seq<string>))
    requires failed <= |names| == |script| && WellFormed(script) && pos <= |stdin|
    ensures r.0 == InputExhausted || r.0 == QuitAfterGpgError(failed) || r.0 == KeysAfterGpgError(failed)
    ensures r.0 == InputExhausted <==> forall k :: pos <= k < |stdin| ==> stdin[k] != "q" && stdin[k] != "v"
    ensures r.0.KeysAfterGpgError? ==> r.1 == KeysOf(names, script, failed)
    ensures !r.0.KeysAfterGpgError? ==> r.1 == []
  {
    match RecoveryChoice(stdin, pos)
    case EndOfInput => (InputExhausted, [])
    case Quit => (QuitAfterGpgError(failed), [])
    case ViewKeys => (KeysAfterGpgError(failed), KeysOf(names, script, failed))
  }

  /**
   * Lines 294-299 from input position pos: the end of the run if renaming
   * ends it, and the `mv` commands run.
   */
  function RenameOutcome(names: seq<string>, script: seq<FileScript>, stdin: seq<string>, pos: nat)
    : (r: (Option<End>, seq<Exec>))
    requires |names| == |script| && pos <= |stdin|
    ensures r.0.None? ==> pos + |names| <= |stdin|
  {
    var avail := |stdin| - pos;
    match RenameStop(script, avail)
    case Some(k) =>
      if k == avail then (Some(InputExhausted), MvExecs(names, script, stdin, pos, k))
      else (Some(RenameRaised(k)), MvExecs(names, script, stdin, pos, k + 1))
    case None => (None, MvExecs(names, script, stdin, pos, |names|))
  }

  /** Lines 302-307 on files now called `cur`, after the commands `mv`. */
  function SplitOutcome(cur: seq<string>, script: seq<FileScript>, mv: seq<Exec>): (r: (End, seq<Exec>))
    requires |cur| == |script|
    ensures |mv| <= |r.1| && r.1[..|mv|] == mv
    ensures r.0 == Finished || r.0.SplitRaised?
    ensures r.0 == Finished <==> forall i :: 0 <= i < |script| ==> !SplitFails(script[i])
    ensures r.0.SplitRaised? ==> r.0.error == CommandFailed && r.0.index < |script| && SplitFails(script[r.0.index])
  {
    match SplitFailure(script)
    case Some(i) => (SplitRaised(i, CommandFailed), mv + SplitTrace(cur, script, i + 1))
    case None => (Finished, mv + SplitTrace(cur, script, |cur|))
  }

  /** Lines 291-307 once `answer` was read: renaming when it is "r", then splitting. */
  function LaterOutcome(names: seq<string>, script: seq<FileScript>, stdin: seq<string>, pos: nat, answer: string)
    : (r: (End, seq<Exec>))
    requires |names| == |script| && pos <= |stdin|
    ensures r.0.RenameRaised? || r.0 == InputExhausted ==> answer == "r"
    ensures r.0 == InputExhausted ==> |stdin| - pos < |names|
  {
    if answer != "r" then SplitOutcome(names, script, [])
    else
      var renamed := RenameOutcome(names, script, stdin, pos);
      if renamed.0.Some? then (renamed.0.value, renamed.1)
      else SplitOutcome(stdin[pos..pos + |names|], script, renamed.1)
  }

  /** Lines 285-307 once every file is encrypted, `last` being the line read last. */
  function RevealOutcome(names: seq<string>, script: seq<FileScript>, stdin: seq<string>, pos: nat, last: string)
    : (r: (End, seq<Exec>, seq<string>))
    requires |names| == |script| && WellFormed(script) && pos <= |stdin|
    ensures (last != "v" && forall k :: pos <= k < |stdin| ==> stdin[k] != "v") ==> r == (InputExhausted, [], [])
    ensures !(last != "v" && forall k :: pos <= k < |stdin| ==> stdin[k] != "v") ==> r.2 == KeysOf(names, script, |names|)
    ensures r.1 != [] ==> r.2 == KeysOf(names, script, |names|)
  {
    match RevealAt(stdin, pos, last)
    case None => (InputExhausted, [], [])
    case Some(next) =>
      var later := LaterFrom(names, script, stdin, next);
      (later.0, later.1, KeysOf(names, script, |names|))
  }

  /** Lines 291-307 once the keys were shown, `next` being the next input position. */
  function LaterFrom(names: seq<string>, script: seq<FileScript>, stdin: seq<string>, next: nat)
    : (End, seq<Exec>)
    requires |names| == |script| && next <= |stdin|
  {
    if next == |stdin| then (InputExhausted, [])
    else LaterOutcome(names, script, stdin, next + 1, stdin[next])
  }

  /** Lines 255-307 once the user confirmed with `userIn`. */
  function BatchOutcome(names: seq<string>, script: seq<FileScript>, stdin: seq<string>, pos: nat, userIn: string)
    : (r: (End, seq<Exec>, seq<string>))
    requires |names| == |script| && WellFormed(script) && pos <= |stdin|
    ensures GpgFailure(script).Some? ==>
      r.0 == InputExhausted || r.0 == QuitAfterGpgError(GpgFailure(script).value) ||
      r.0 == KeysAfterGpgError(GpgFailure(script).value)
    ensures GpgFailure(script).None? ==> !r.0.QuitAfterGpgError? && !r.0.KeysAfterGpgError?
  {
    match GpgFailure(script)
    case Some(f) =>
      var recovery := RecoveryOutcome(names, script, stdin, pos, f);
      (recovery.0, GpgExecs(names, script, f + 1), recovery.1)
    case None =>
      var after := RevealOutcome(names, script, stdin, pos, userIn);
      (after.0, GpgExecs(names, script, |names|) + after.1, after.2)
  }

  /**
   * The whole script on the selected `names`: how it ends, every command it
   * runs in order, and the lines keyPrinter prints.
   */
  function RunOutcome(env: Env, names: seq<string>, script: seq<FileScript>, stdin: seq<string>)
    : (r: (End, seq<Exec>, seq<string>))
    requires |names| == |script| && WellFormed(script)
    ensures r.0.Unsupported? <==> HighestFailing(env, Shipped, 7) != 0
    ensures r.1 != [] || r.2 != [] ==> names != [] && stdin != [] && stdin[0] == "y"
  {
    var status := HighestFailing(env, Shipped, 7);
    if status != 0 then (Unsupported(status), [], [])
    else if StatFailure(script).Some? then (StatFailed(StatFailure(script).value), [], [])
    else if names == [] then (NoFiles, [], [])
    else if stdin == [] then (InputExhausted, [], [])
    else if stdin[0] != "y" then (NotConfirmed, [], [])
    else BatchOutcome(names, script, stdin, 1, stdin[0])
  }

  // ---------------------------------------------------------------------
  // Properties of traces

  /** Stage of the pipeline a command belongs to. */
  function Stage(c: Command): nat
  {
    match c
    case Gpg(_, _, _) => 0
    case Mv(_, _) => 1
    case Split(_, _, _) => 2
    case Rm(_) => 2
  }

  /** Only the last command of a trace may have failed: no command runs after a failure. */
  predicate FailureIsLast(t: seq<Exec>)
  {
    forall k :: 0 <= k < |t| && !t[k].ok ==> k == |t| - 1
  }

  predicate AllOk(t: seq<Exec>)
  {
    forall k :: 0 <= k < |t| ==> t[k].ok
  }

  /** The first n commands encrypted the n files successfully. */
  predicate AllEncryptedFirst(t: seq<Exec>, n: nat)
  {
    n <= |t| && forall i :: 0 <= i < n ==> t[i].cmd.Gpg? && t[i].ok
  }

  /** No file that `stat` measured exceeds the split limit. */
  predicate SmallFiles(script: seq<FileScript>)
  {
    forall i :: 0 <= i < |script| && script[i].statBytes.Some? ==> !ExceedsSplitLimit(script[i].statBytes.value)
  }

  /** Stages never go back: encryption, then renaming, then splitting. */
  predicate StagesInOrder(t: seq<Exec>)
  {
    forall j, k :: 0 <= j < k < |t| ==> Stage(t[j].cmd) <= Stage(t[k].cmd)
  }

  /** The k-th `gpg` command encrypts the k-th file with the k-th draw. */
  predicate EncryptsInOrder(t: seq<Exec>, names: seq<string>, script: seq<FileScript>)
    requires |names| == |script| && WellFormed(script)
  {
    forall k :: 0 <= k < |t| && t[k].cmd.Gpg? ==>
      k < |script| && t[k] == Exec(Gpg(Key(script, k), names[k], names[k] + Ext), script[k].gpgOk)
  }

  /** Nothing but encryption runs until all n files are encrypted. */
  predicate EncryptionFirst(t: seq<Exec>, n: nat)
  {
    forall k :: 0 <= k < |t| && !t[k].cmd.Gpg? ==> n <= k && AllEncryptedFirst(t, n)
  }

  /** The `mv` commands, right after the n encryptions, move the files in list order. */
  predicate RenamesInOrder(t: seq<Exec>, names: seq<string>)
  {
    forall k :: 0 <= k < |t| && t[k].cmd.Mv? ==>
      |names| <= k < 2 * |names| && t[k].cmd.src == names[k - |names|] + Ext
  }

  /**
   * The commands run after encryption: stages in order, a failure only at
   * the end, and the `mv` commands first, moving the files in list order.
   */
  predicate LaterStages(rest: seq<Exec>, names: seq<string>)
  {
    && FailureIsLast(rest) && StagesInOrder(rest)
    && (forall k :: 0 <= k < |rest| ==> Stage(rest[k].cmd) > 0)
    && (forall k :: 0 <= k < |rest| && rest[k].cmd.Mv? ==> k < |names| && rest[k].cmd.src == names[k] + Ext)
  }

  /** mv holds only successful `mv` commands moving the files in list order. */
  predicate RenamedInOrder(mv: seq<Exec>, names: seq<string>)
  {
    forall k :: 0 <= k < |mv| ==> mv[k].cmd.Mv? && mv[k].ok && k < |names| && mv[k].cmd.src == names[k] + Ext
  }

  // ---------------------------------------------------------------------
  // What every outcome satisfies

  /**
   * The split stage only splits and removes; it runs nothing on files within
   * the limit, and every command succeeds until a file on which
   * splitIfShouldSplit raises.
   */
  lemma SplitTraceFacts(names: seq<string>, script: seq<FileScript>, n: nat)
    requires n <= |names| && n <= |script|
    ensures forall k :: 0 <= k < |SplitTrace(names, script, n)| ==> Stage(SplitTrace(names, script, n)[k].cmd) == 2
    ensures (forall i :: 0 <= i < n ==> !SplitFails(script[i])) ==> AllOk(SplitTrace(names, script, n))
    ensures SmallFiles(script) ==> SplitTrace(names, script, n) == []
  {
    SplitTraceStages(names, script, n);
    if forall i :: 0 <= i < n ==> !SplitFails(script[i]) {
      SplitTraceOk(names, script, n);
    }
    if SmallFiles(script) {
      SplitTraceSmall(names, script, n);
    }
  }

  lemma {:induction false} SplitTraceStages(names: seq<string>, script: seq<FileScript>, n: nat)
    requires n <= |names| && n <= |script|
    ensures forall k :: 0 <= k < |SplitTrace(names, script, n)| ==> Stage(SplitTrace(names, script, n)[k].cmd) == 2
  {
    if n > 0 {
      SplitTraceStages(names, script, n - 1);
      var t0 := SplitTrace(names, script, n - 1);
      var s := script[n - 1];
      var c := SplitOf(names[n - 1], s);
      if s.statBytes.Some? {
        SplitCommandsOutcome(names[n - 1], s.statBytes.value, s.splitOk, s.rmOk);
      }
      assert forall k :: 0 <= k < |t0 + c| ==> (t0 + c)[k] == if k < |t0| then t0[k] else c[k - |t0|];
    }
  }

  lemma {:induction false} SplitTraceOk(names: seq<string>, script: seq<FileScript>, n: nat)
    requires n <= |names| && n <= |script|
    requires forall i :: 0 <= i < n ==> !SplitFails(script[i])
    ensures AllOk(SplitTrace(names, script, n))
  {
    if n > 0 {
      SplitTraceOk(names, script, n - 1);
      var t0 := SplitTrace(names, script, n - 1);
      var s := script[n - 1];
      var c := SplitOf(names[n - 1], s);
      if s.statBytes.Some? {
        SplitCommandsOutcome(names[n - 1], s.statBytes.value, s.splitOk, s.rmOk);
      }
      assert forall k :: 0 <= k < |t0 + c| ==> (t0 + c)[k] == if k < |t0| then t0[k] else c[k - |t0|];
    }
  }

  lemma {:induction false} SplitTraceSmall(names: seq<string>, script: seq<FileScript>, n: nat)
    requires n <= |names| && n <= |script|
    requires SmallFiles(script)
    ensures SplitTrace(names, script, n) == []
  {
    if n > 0 {
      SplitTraceSmall(names, script, n - 1);
    }
  }

  /** When file i is the first to raise, the split stage's last command is its failed one. */
  lemma SplitFailureIsLast(names: seq<string>, script: seq<FileScript>, i: nat)
    requires i < |names| && i < |script|
    requires SplitFails(script[i]) && forall j :: 0 <= j < i ==> !SplitFails(script[j])
    ensures var t := SplitTrace(names, script, i + 1);
      |t| > 0 && !t[|t| - 1].ok && FailureIsLast(t)
  {
    SplitTraceFacts(names, script, i);
    var s := script[i];
    SplitCommandsOutcome(names[i], s.statBytes.value, s.splitOk, s.rmOk);
  }

  /** Appending the split stage after a successful rename stage. */
  lemma SplitAfterRename(mv: seq<Exec>, split: seq<Exec>, names: seq<string>)
    requires RenamedInOrder(mv, names)
    requires forall k :: 0 <= k < |split| ==> Stage(split[k].cmd) == 2
    requires FailureIsLast(split)
    ensures LaterStages(mv + split, names)
  {
    assert forall k :: |mv| <= k < |mv + split| ==> (mv + split)[k] == split[k - |mv|];
  }

  /**
   * After a successful rename stage, splitting keeps the stage order, ends
   * only with a failed command when it raises, raises only command
   * failures, and adds nothing when every file is within the limit.
   */
  lemma SplitOutcomeFacts(cur: seq<string>, script: seq<FileScript>, mv: seq<Exec>, names: seq<string>)
    requires |cur| == |script| && RenamedInOrder(mv, names)
    ensures var (end, rest) := SplitOutcome(cur, script, mv);
      && LaterStages(rest, names)
      && (end.SplitRaised? || end == Finished)
      && (end.SplitRaised? ==> end.index < |script| && end.error == CommandFailed && |rest| > 0 && !rest[|rest| - 1].ok)
      && (end.Finished? ==> AllOk(rest))
      && (SmallFiles(script) ==> rest == mv)
  {
    match SplitFailure(script)
    case Some(i) =>
      SplitTraceFacts(cur, script, i + 1);
      SplitFailureIsLast(cur, script, i);
      SplitAfterRename(mv, SplitTrace(cur, script, i + 1), names);
    case None =>
      SplitTraceFacts(cur, script, |cur|);
      SplitAfterRename(mv, SplitTrace(cur, script, |cur|), names);
  }

  /**
   * The rename stage moves the files in list order, each to its input line;
   * it ends the run only when input runs out, with every `mv` so far
   * successful, or when an `mv` fails, as its last command.
   */
  lemma RenameOutcomeFacts(names: seq<string>, script: seq<FileScript>, stdin: seq<string>, pos: nat)
    requires |names| == |script| && pos <= |stdin|
    ensures var (stop, mv) := RenameOutcome(names, script, stdin, pos);
      && LaterStages(mv, names)
      && (forall k :: 0 <= k < |mv| ==> mv[k].cmd.Mv?)
      && (stop.None? ==> RenamedInOrder(mv, names) && |mv| == |names|)
      && (stop == Some(InputExhausted) ==> AllOk(mv) && pos + |mv| == |stdin|)
      && (stop.Some? ==>
            (stop.value == InputExhausted ||
             (stop.value.RenameRaised? && stop.value.index < |script| && !script[stop.value.index].mvOk)))
  {
    var avail := |stdin| - pos;
    var r := RenameStop(script, avail);
    var m := if r.Some? && r.value < avail then r.value + 1 else if r.Some? then r.value else |names|;
    var ok := if r.Some? then r.value else m;
    MvExecsFacts(names, script, stdin, pos, m, ok);
  }

  /**
   * The first m renames are `mv` commands moving the files in list order,
   * of which the first `ok` succeed.
   */
  lemma MvExecsFacts(names: seq<string>, script: seq<FileScript>, stdin: seq<string>, pos: nat, m: nat, ok: nat)
    requires m <= |names| == |script| && pos + m <= |stdin| && m - 1 <= ok <= m
    requires forall j :: 0 <= j < ok ==> script[j].mvOk
    ensures var mv := MvExecs(names, script, stdin, pos, m);
      && LaterStages(mv, names) && (forall k :: 0 <= k < m ==> mv[k].cmd.Mv?)
      && (forall k :: 0 <= k < ok ==> mv[k].ok)
  {
    var mv := MvExecs(names, script, stdin, pos, m);
    assert forall k :: 0 <= k < m ==> Stage(mv[k].cmd) == 1;
  }

  /**
   * What the stages after the reveal guarantee: stages in order with the
   * `mv` commands moving the files in list order, a failure only at the end,
   * a rename failure only where `mv` failed, splitting raising only command
   * failures, and nothing but renames when every file is within the limit.
   */
  predicate LaterFacts(end: End, rest: seq<Exec>, names: seq<string>, script: seq<FileScript>)
  {
    && LaterStages(rest, names)
    && (end.RenameRaised? || end.SplitRaised? || end == Finished || end == InputExhausted)
    && (end.RenameRaised? ==> end.index < |script| && !script[end.index].mvOk)
    && (end.SplitRaised? ==> end.error == CommandFailed && |rest| > 0 && !rest[|rest| - 1].ok)
    && (end.Finished? ==> AllOk(rest))
    && (SmallFiles(script) ==> forall k :: 0 <= k < |rest| ==> rest[k].cmd.Mv?)
  }

  /** Without "r" nothing is renamed: only the split stage runs. */
  lemma SkipRenameFacts(names: seq<string>, script: seq<FileScript>)
    requires |names| == |script|
    ensures var (end, rest) := SplitOutcome(names, script, []);
      LaterFacts(end, rest, names, script) && forall k :: 0 <= k < |rest| ==> !rest[k].cmd.Mv?
  {
    SplitOutcomeFacts(names, script, [], names);
    var n := if SplitFailure(script).Some? then SplitFailure(script).value + 1 else |names|;
    SplitTraceFacts(names, script, n);
    assert [] + SplitTrace(names, script, n) == SplitTrace(names, script, n);
  }

  /** On "r": the rename stage, then, when it completes, the split stage on the new names. */
  lemma RenameFirstFacts(names: seq<string>, script: seq<FileScript>, stdin: seq<string>, pos: nat)
    requires |names| == |script| && pos <= |stdin|
    ensures var (end, rest) := LaterOutcome(names, script, stdin, pos, "r");
      LaterFacts(end, rest, names, script)
  {
    var renamed := RenameOutcome(names, script, stdin, pos);
    RenameOutcomeFacts(names, script, stdin, pos);
    if renamed.0.None? {
      SplitOutcomeFacts(stdin[pos..pos + |names|], script, renamed.1, names);
    }
  }

  /** LaterFacts holds after every answer, and without "r" no `mv` runs. */
  lemma LaterOutcomeFacts(names: seq<string>, script: seq<FileScript>, stdin: seq<string>, pos: nat, answer: string)
    requires |names| == |script| && pos <= |stdin|
    ensures var (end, rest) := LaterOutcome(names, script, stdin, pos, answer);
      && LaterFacts(end, rest, names, script)
      && (answer != "r" ==> forall k :: 0 <= k < |rest| ==> !rest[k].cmd.Mv?)
  {
    if answer != "r" {
      SkipRenameFacts(names, script);
    } else {
      RenameFirstFacts(names, script, stdin, pos);
    }
  }

  /** The encryption stage followed by the later stages. */
  lemma ComposeTrace(gpg: seq<Exec>, rest: seq<Exec>, names: seq<string>, script: seq<FileScript>)
    requires |names| == |script| && WellFormed(script)
    requires |gpg| == |names| && AllOk(gpg) && EncryptsInOrder(gpg, names, script)
    requires forall k :: 0 <= k < |gpg| ==> gpg[k].cmd.Gpg?
    requires LaterStages(rest, names)
    ensures FailureIsLast(gpg + rest) && StagesInOrder(gpg + rest)
    ensures EncryptsInOrder(gpg + rest, names, script)
    ensures EncryptionFirst(gpg + rest, |names|) && RenamesInOrder(gpg + rest, names)
    ensures AllEncryptedFirst(gpg + rest, |names|)
    ensures AllOk(rest) ==> AllOk(gpg + rest)
    ensures |rest| > 0 ==> (gpg + rest)[|gpg + rest| - 1] == rest[|rest| - 1]
    ensures (forall k :: 0 <= k < |rest| ==> rest[k].cmd.Mv?) ==>
      forall k :: 0 <= k < |gpg + rest| ==> !(gpg + rest)[k].cmd.Split? && !(gpg + rest)[k].cmd.Rm?
  {
    var t := gpg + rest;
    assert forall k :: |gpg| <= k < |t| ==> t[k] == rest[k - |gpg|];
    ComposeOrder(gpg, rest, names, script);
  }

  /** The ordering half of ComposeTrace, proved apart to keep each proof small. */
  lemma ComposeOrder(gpg: seq<Exec>, rest: seq<Exec>, names: seq<string>, script: seq<FileScript>)
    requires |names| == |script| && WellFormed(script)
    requires |gpg| == |names| && AllOk(gpg) && EncryptsInOrder(gpg, names, script)
    requires forall k :: 0 <= k < |gpg| ==> gpg[k].cmd.Gpg?
    requires LaterStages(rest, names)
    ensures FailureIsLast(gpg + rest) && StagesInOrder(gpg + rest)
    ensures EncryptsInOrder(gpg + rest, names, script)
    ensures EncryptionFirst(gpg + rest, |names|) && RenamesInOrder(gpg + rest, names)
    ensures AllEncryptedFirst(gpg + rest, |names|)
  {
    var t := gpg + rest;
    assert forall k :: |gpg| <= k < |t| ==> t[k] == rest[k - |gpg|];
  }

  /**
   * What the stages after encryption guarantee: the later stages, with
   * every key shown before any of them runs a command; the run ends with
   * nothing run only when input runs out.
   */
  predicate RevealFacts(end: End, rest: seq<Exec>, shown: seq<string>, names: seq<string>, script: seq<FileScript>)
    requires |names| == |script| && WellFormed(script)
  {
    && ((end == InputExhausted && rest == []) || LaterFacts(end, rest, names, script))
    && LaterStages(rest, names)
    && (end != InputExhausted ==> shown == KeysOf(names, script, |names|))
    && (shown == [] || shown == KeysOf(names, script, |names|))
    && (rest != [] ==> shown == KeysOf(names, script, |names|))
  }

  /** Every outcome once all files are encrypted satisfies RevealFacts. */
  lemma RevealOutcomeFacts(names: seq<string>, script: seq<FileScript>, stdin: seq<string>, pos: nat, last: string)
    requires |names| == |script| && WellFormed(script) && pos <= |stdin|
    ensures var (end, rest, shown) := RevealOutcome(names, script, stdin, pos, last);
      RevealFacts(end, rest, shown, names, script)
  {
    var r := RevealOutcome(names, script, stdin, pos, last);
    match RevealAt(stdin, pos, last)
    case None =>
      assert r == (InputExhausted, [], []);
    case Some(next) =>
      if next < |stdin| {
        var later := LaterOutcome(names, script, stdin, next + 1, stdin[next]);
        LaterOutcomeFacts(names, script, stdin, next + 1, stdin[next]);
        assert r == (later.0, later.1, KeysOf(names, script, |names|));
      } else {
        assert r == (InputExhausted, [], KeysOf(names, script, |names|));
      }
  }

  /**
   * What a confirmed batch guarantees: no command runs after a failed one,
   * stages never go back, the k-th `gpg` encrypts the k-th file with the
   * k-th draw, and nothing else runs until every file is encrypted; after a
   * `gpg` failure only the keys of the earlier files can be shown; renaming
   * and splitting run only once every key was shown (a trace longer than the
   * encryptions comes with every key shown, however the run ends); files
   * within the limit are never split.
   */
  predicate BatchFacts(end: End, trace: seq<Exec>, shown: seq<string>, names: seq<string>, script: seq<FileScript>)
    requires |names| == |script| && WellFormed(script)
  {
    && (end.QuitAfterGpgError? || end.KeysAfterGpgError? || end.RenameRaised? ||
        end.SplitRaised? || end.InputExhausted? || end.Finished?)
    && FailureIsLast(trace) && StagesInOrder(trace)
    && EncryptsInOrder(trace, names, script)
    && EncryptionFirst(trace, |script|) && RenamesInOrder(trace, names)
    && (end.QuitAfterGpgError? || end.KeysAfterGpgError? ==>
          end.index < |script| && |trace| == end.index + 1 && !trace[end.index].ok)
    && (end.KeysAfterGpgError? ==> end.index <= |script| && shown == KeysOf(names, script, end.index))
    && (end.RenameRaised? || end.SplitRaised? || end.Finished? ==>
          AllEncryptedFirst(trace, |script|) && shown == KeysOf(names, script, |script|))
    && (end.RenameRaised? ==> end.index < |script| && !script[end.index].mvOk)
    && (end.SplitRaised? ==> end.error == CommandFailed && |trace| > 0 && !trace[|trace| - 1].ok)
    && (end.Finished? ==> AllOk(trace))
    && (SmallFiles(script) ==> forall k :: 0 <= k < |trace| ==> !trace[k].cmd.Split? && !trace[k].cmd.Rm?)
    && (shown != [] ==> end.KeysAfterGpgError? || AllEncryptedFirst(trace, |script|))
    && (|trace| > |script| ==> shown == KeysOf(names, script, |script|))
  }

  /** After a `gpg` failure on file f: the f + 1 encryptions, then at most the keys of files before f. */
  lemma GpgFailedFacts(names: seq<string>, script: seq<FileScript>, stdin: seq<string>, pos: nat, f: nat)
    requires |names| == |script| && WellFormed(script) && pos <= |stdin|
    requires f < |script| && !script[f].gpgOk && forall j :: 0 <= j < f ==> script[j].gpgOk
    ensures var recovery := RecoveryOutcome(names, script, stdin, pos, f);
      BatchFacts(recovery.0, GpgExecs(names, script, f + 1), recovery.1, names, script)
  {
    var gpg := GpgExecs(names, script, f + 1);
    assert forall k :: 0 <= k < f ==> gpg[k].ok;
  }

  /** The n encryptions followed by what the reveal stage guarantees. */
  lemma EncryptedThenLater(end: End, rest: seq<Exec>, shown: seq<string>, names: seq<string>, script: seq<FileScript>)
    requires |names| == |script| && WellFormed(script)
    requires forall j :: 0 <= j < |script| ==> script[j].gpgOk
    requires RevealFacts(end, rest, shown, names, script)
    ensures BatchFacts(end, GpgExecs(names, script, |names|) + rest, shown, names, script)
    ensures AllEncryptedFirst(GpgExecs(names, script, |names|) + rest, |script|)
  {
    ComposeTrace(GpgExecs(names, script, |names|), rest, names, script);
  }

  /** With every file encrypted: the encryptions, then the reveal and the later stages. */
  lemma AllEncryptedFacts(names: seq<string>, script: seq<FileScript>, stdin: seq<string>, pos: nat, userIn: string)
    requires |names| == |script| && WellFormed(script) && pos <= |stdin|
    requires forall j :: 0 <= j < |script| ==> script[j].gpgOk
    ensures var after := RevealOutcome(names, script, stdin, pos, userIn);
      && BatchFacts(after.0, GpgExecs(names, script, |names|) + after.1, after.2, names, script)
      && AllEncryptedFirst(GpgExecs(names, script, |names|) + after.1, |script|)
  {
    var after := RevealOutcome(names, script, stdin, pos, userIn);
    RevealOutcomeFacts(names, script, stdin, pos, userIn);
    EncryptedThenLater(after.0, after.1, after.2, names, script);
  }

  /**
   * Every confirmed batch satisfies BatchFacts, and encryption stops exactly
   * at the first `gpg` failure.
   */
  lemma BatchOutcomeFacts(names: seq<string>, script: seq<FileScript>, stdin: seq<string>, pos: nat, userIn: string)
    requires |names| == |script| && WellFormed(script) && pos <= |stdin|
    ensures var (end, trace, shown) := BatchOutcome(names, script, stdin, pos, userIn);
      && BatchFacts(end, trace, shown, names, script)
      && (GpgFailure(script).Some? ==> |trace| == GpgFailure(script).value + 1)
      && (GpgFailure(script).None? ==> AllEncryptedFirst(trace, |script|))
  {
    var r := BatchOutcome(names, script, stdin, pos, userIn);
    match GpgFailure(script)
    case Some(f) =>
      var recovery := RecoveryOutcome(names, script, stdin, pos, f);
      assert r == (recovery.0, GpgExecs(names, script, f + 1), recovery.1);
      GpgFailedFacts(names, script, stdin, pos, f);
    case None =>
      var after := RevealOutcome(names, script, stdin, pos, userIn);
      assert r == (after.0, GpgExecs(names, script, |names|) + after.1, after.2);
      AllEncryptedFacts(names, script, stdin, pos, userIn);
  }

  /**
   * What a whole run guarantees: validation decides first, by the last
   * failing check; `stat` failures, an empty selection and a missing
   * confirmation end it before any `gpg`, `mv`, `split` or `rm` runs, and
   * so does input running out at the confirmation; after confirmation
   * BatchFacts holds.
   */
  predicate RunFacts(env: Env, end: End, trace: seq<Exec>, shown: seq<string>,
                     names: seq<string>, script: seq<FileScript>, stdin: seq<string>)
    requires |names| == |script| && WellFormed(script)
  {
    var passes := HighestFailing(env, Shipped, 7) == 0;
    var built := passes && StatFailure(script).None?;
    var confirmed := built && names != [] && stdin != [] && stdin[0] == "y";
    && (end.Unsupported? <==> !passes)
    && (end.Unsupported? ==> end.status == HighestFailing(env, Shipped, 7))
    && (end.StatFailed? <==> passes && StatFailure(script).Some?)
    && (end.StatFailed? ==> end.index < |script| && script[end.index].statBytes.None?)
    && (end == NoFiles <==> built && names == [])
    && (end == NotConfirmed <==> built && names != [] && stdin != [] && stdin[0] != "y")
    && (end == InputExhausted && trace == [] <== built && names != [] && stdin == [])
    && (!confirmed ==> trace == [] && shown == [])
    && (confirmed ==> BatchFacts(end, trace, shown, names, script))
    && (end.Finished? ==> confirmed && |script| > 0)
  }

  /** Every run satisfies RunFacts. */
  lemma RunOutcomeFacts(env: Env, names: seq<string>, script: seq<FileScript>, stdin: seq<string>)
    requires |names| == |script| && WellFormed(script)
    ensures var (end, trace, shown) := RunOutcome(env, names, script, stdin);
      RunFacts(env, end, trace, shown, names, script, stdin)
  {
    if HighestFailing(env, Shipped, 7) == 0 && StatFailure(script).None? && names != [] && stdin != [] && stdin[0] == "y" {
      BatchOutcomeFacts(names, script, stdin, 1, stdin[0]);
    }
  }
}
