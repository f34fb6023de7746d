/**
 * The main script (FilePG.py:196-307): validate, select the files, build a
 * FileObj for each, confirm, encrypt them all in order, reveal the keys,
 * optionally rename them all, then split the large ones. Every `quit()` and
 * every uncaught exception ends the run; the End value says which. Each
 * method is proved to produce exactly the outcome the functions of module
 * Outcomes give for the same inputs.
 */
module Pipeline {
  import opened Wrappers
  import opened Config
  import opened Passphrase
  import opened FileObjects
  import opened KeyPrinting
  import opened Validation
  import opened Inventory
  import opened Prompts
  import opened Outcomes

  ghost predicate Distinct(objs: seq<FileObj>)
  {
    forall i, j :: 0 <= i < j < |objs| ==> objs[i] != objs[j]
  }

  /** objs are the objects built for the selected names, with the sizes `stat` reported. */
  ghost predicate Built(objs: seq<FileObj>, names: seq<string>, script: seq<FileScript>)
    reads objs
  {
    && |objs| == |names| == |script| && Distinct(objs) && AllValid(objs)
    && (forall i :: 0 <= i < |objs| ==> objs[i].name == names[i])
    && (forall i :: 0 <= i < |objs| ==> Some(objs[i].sizeBytes) == script[i].statBytes)
  }

  /** Every object carries the name at its position in `cur`. */
  ghost predicate NamedAs(objs: seq<FileObj>, cur: seq<string>)
    reads objs
  {
    |objs| == |cur| && forall i :: 0 <= i < |objs| ==> objs[i].name == cur[i]
  }

  /** Every object is encrypted. */
  ghost predicate AllEncrypted(objs: seq<FileObj>)
    reads objs
  {
    forall i :: 0 <= i < |objs| ==> objs[i].encrypted
  }

  /**
   * The loop `fileObjList.append(FileObj(fileName))` (FilePG.py:224-226):
   * stops at the first file whose `stat` fails.
   */
  method CreateObjects(names: seq<string>, script: seq<FileScript>) returns (objs: seq<FileObj>, failed: Option<nat>)
    requires |script| == |names|
    ensures |objs| <= |names| && Distinct(objs) && AllValid(objs)
    ensures forall i :: 0 <= i < |objs| ==> fresh(objs[i])
    ensures forall i :: 0 <= i < |objs| ==>
      objs[i].name == names[i] && Some(objs[i].sizeBytes) == script[i].statBytes &&
      objs[i].key == None && !objs[i].encrypted
    ensures failed.None? <==> |objs| == |names|
    ensures failed.Some? ==> failed.value == |objs| < |names| && script[failed.value].statBytes.None?
    ensures failed == StatFailure(script)
  {
    objs := [];
    failed := None;
    for i := 0 to |names|
      invariant |objs| == i
      invariant Distinct(objs) && AllValid(objs)
      invariant forall j :: 0 <= j < i ==> fresh(objs[j])
      invariant forall j :: 0 <= j < i ==>
        objs[j].name == names[j] && Some(objs[j].sizeBytes) == script[j].statBytes &&
        objs[j].key == None && !objs[j].encrypted
    {
      match script[i].statBytes {
        case None =>
          return objs, Some(i);
        case Some(bytes) =>
          var o := new FileObj(names[i], bytes);
          objs := objs + [o];
      }
    }
  }

  /**
   * The encryption loop (FilePG.py:258-281): encrypt each object in list
   * order and stop at the first `gpg` failure, reporting its index. The
   * failing object keeps the key drawn for it; later objects are untouched.
   */
  method EncryptAll(objs: seq<FileObj>, ghost names: seq<string>, script: seq<FileScript>)
    returns (failed: Option<nat>, execs: seq<Exec>)
    requires |objs| == |names| == |script| && WellFormed(script)
    requires Distinct(objs) && AllValid(objs)
    requires forall i :: 0 <= i < |objs| ==> objs[i].name == names[i]
    requires forall i :: 0 <= i < |objs| ==> !objs[i].encrypted
    modifies set o | o in objs
    ensures AllValid(objs)
    ensures failed == GpgFailure(script)
    ensures forall i :: 0 <= i < |objs| ==> objs[i].name == names[i]
    ensures failed.None? ==> |execs| == |objs|
    ensures failed.Some? ==> failed.value < |objs| && |execs| == failed.value + 1 && !script[failed.value].gpgOk
    ensures execs == GpgExecs(names, script, |execs|)
    ensures FailureIsLast(execs) && (failed.None? ==> AllOk(execs))
    ensures forall i :: 0 <= i < |objs| ==>
      (objs[i].encrypted <==> i < |objs| && (failed.None? || i < failed.value))
    ensures forall i :: 0 <= i < |objs| && objs[i].encrypted ==> objs[i].key == Some(Key(script, i))
    ensures failed.Some? ==> objs[failed.value].key == Some(Key(script, failed.value))
    ensures forall i :: failed.Some? && failed.value < i < |objs| ==> objs[i].key == old(objs[i].key)
  {
    failed := None;
    execs := [];
    for i := 0 to |objs|
      invariant |execs| == i && AllOk(execs)
      invariant AllValid(objs)
      invariant forall j :: 0 <= j < i ==> script[j].gpgOk
      invariant forall j :: 0 <= j < |objs| ==> objs[j].name == names[j]
      invariant forall j :: 0 <= j < |objs| ==> (objs[j].encrypted <==> j < i)
      invariant forall j :: 0 <= j < i ==> objs[j].key == Some(Key(script, j))
      invariant forall j :: i <= j < |objs| ==> objs[j].key == old(objs[j].key)
      invariant execs == GpgExecs(names, script, i)
    {
      var ok, exec := objs[i].Encrypt(script[i].picks, script[i].gpgOk);
      execs := execs + [exec];
      assert execs == GpgExecs(names, script, i + 1);
      if !ok {
        failed := Some(i);
        return;
      }
    }
  }

  /**
   * The renaming loop (FilePG.py:294-299): one line of input per object is
   * its new name; an `mv` failure raises and ends the loop. `names` are the
   * names before renaming.
   */
  method RenameAll(objs: seq<FileObj>, ghost names: seq<string>, script: seq<FileScript>, stdin: seq<string>, pos: nat)
    returns (failed: Option<nat>, exhausted: bool, next: nat, execs: seq<Exec>)
    requires |objs| == |names| == |script| && pos <= |stdin|
    requires Distinct(objs) && AllValid(objs)
    requires forall i :: 0 <= i < |objs| ==> objs[i].name == names[i]
    modifies set o | o in objs
    ensures AllValid(objs)
    ensures forall i :: 0 <= i < |objs| ==>
      objs[i].encrypted == old(objs[i].encrypted) && objs[i].key == old(objs[i].key)
    ensures pos <= next <= |stdin| && next == pos + |execs|
    ensures |execs| <= |objs|
    ensures execs == MvExecs(names, script, stdin, pos, |execs|)
    ensures forall i :: 0 <= i < |objs| ==>
      objs[i].name == if i < |execs| && execs[i].ok then stdin[pos + i] else names[i]
    ensures FailureIsLast(execs)
    ensures failed.None? && !exhausted ==> |execs| == |objs| && AllOk(execs)
    ensures exhausted ==> failed.None? && next == |stdin| && AllOk(execs)
    ensures failed.Some? ==> !exhausted && failed.value < |objs| && |execs| == failed.value + 1 && !script[failed.value].mvOk
    ensures RenameOutcome(names, script, stdin, pos) ==
      (if exhausted then Some(InputExhausted) else if failed.Some? then Some(RenameRaised(failed.value)) else None, execs)
  {
    failed, exhausted, next, execs := None, false, pos, [];
    for i := 0 to |objs|
      invariant next == pos + i <= |stdin| && |execs| == i && AllOk(execs)
      invariant execs == MvExecs(names, script, stdin, pos, i)
      invariant forall j :: 0 <= j < i ==> script[j].mvOk
      invariant AllValid(objs)
      invariant forall j :: 0 <= j < |objs| ==>
        objs[j].encrypted == old(objs[j].encrypted) && objs[j].key == old(objs[j].key)
      invariant forall j :: 0 <= j < i ==> objs[j].name == stdin[pos + j]
      invariant forall j :: i <= j < |objs| ==> objs[j].name == old(objs[j].name)
    {
      if next == |stdin| {
        exhausted := true;
        break;
      }
      var newName := stdin[next];
      next := next + 1;
      var ok, exec := objs[i].Rename(newName, script[i].mvOk);
      execs := execs + [exec];
      assert execs == MvExecs(names, script, stdin, pos, i + 1);
      if !ok {
        failed := Some(i);
        break;
      }
    }
    RenameStopAt(script, |stdin| - pos, if failed.Some? then failed.value else |execs|);
  }

  /** The split commands of the first n objects that are encrypted, in list order. */
  ghost function ObjSplitTrace(objs: seq<FileObj>, script: seq<FileScript>, n: nat): seq<Exec>
    reads objs
    requires n <= |objs| && n <= |script|
  {
    if n == 0 then []
    else
      var o := objs[n - 1];
      ObjSplitTrace(objs, script, n - 1) +
        (if o.encrypted then SplitCommands(o.name, o.sizeBytes, script[n - 1].splitOk, script[n - 1].rmOk) else [])
  }

  /**
   * The splitting loop (FilePG.py:303-307): splitIfShouldSplit on each
   * object in order; the first object on which it raises ends the loop,
   * after its own commands.
   */
  method SplitAll(objs: seq<FileObj>, script: seq<FileScript>) returns (raised: Option<(nat, Error)>, execs: seq<Exec>)
    requires |objs| == |script|
    ensures raised.None? ==> forall j :: 0 <= j < |objs| ==> !objs[j].SplitRaises(script[j].splitOk, script[j].rmOk)
    ensures raised.Some? ==> (raised.value.0 < |objs| &&
      objs[raised.value.0].SplitRaises(script[raised.value.0].splitOk, script[raised.value.0].rmOk) &&
      forall j :: 0 <= j < raised.value.0 ==> !objs[j].SplitRaises(script[j].splitOk, script[j].rmOk))
    ensures raised.Some? ==>
      raised.value.1 == if objs[raised.value.0].encrypted then CommandFailed else NotEncrypted
    ensures execs == ObjSplitTrace(objs, script, if raised.Some? then raised.value.0 + 1 else |objs|)
    ensures forall k :: 0 <= k < |execs| ==> Stage(execs[k].cmd) == 2
    ensures FailureIsLast(execs)
    ensures raised.None? ==> AllOk(execs)
    ensures raised.Some? && raised.value.1 == CommandFailed ==> |execs| > 0 && !execs[|execs| - 1].ok
    ensures raised.Some? ==> forall j :: 0 <= j < raised.value.0 ==> objs[j].encrypted
    ensures raised.None? ==> forall j :: 0 <= j < |objs| ==> objs[j].encrypted
    ensures (forall j :: 0 <= j < |objs| ==> !ExceedsSplitLimit(objs[j].sizeBytes)) ==> execs == []
  {
    raised, execs := None, [];
    for i := 0 to |objs|
      invariant execs == ObjSplitTrace(objs, script, i)
      invariant forall j :: 0 <= j < i ==> !objs[j].SplitRaises(script[j].splitOk, script[j].rmOk)
    {
      var r, more := objs[i].SplitIfShouldSplit(script[i].splitOk, script[i].rmOk);
      execs := execs + more;
      if r.Err? {
        raised := Some((i, r.error));
        SplitAllConsequences(objs, script, raised, execs);
        return;
      }
    }
    SplitAllConsequences(objs, script, raised, execs);
  }

  /** What follows from which object raised and which commands ran. */
  lemma SplitAllConsequences(objs: seq<FileObj>, script: seq<FileScript>, raised: Option<(nat, Error)>, execs: seq<Exec>)
    requires |objs| == |script|
    requires raised.None? ==> forall j :: 0 <= j < |objs| ==> !objs[j].SplitRaises(script[j].splitOk, script[j].rmOk)
    requires raised.Some? ==> (raised.value.0 < |objs| &&
      objs[raised.value.0].SplitRaises(script[raised.value.0].splitOk, script[raised.value.0].rmOk) &&
      forall j :: 0 <= j < raised.value.0 ==> !objs[j].SplitRaises(script[j].splitOk, script[j].rmOk))
    requires raised.Some? ==>
      raised.value.1 == if objs[raised.value.0].encrypted then CommandFailed else NotEncrypted
    requires execs == ObjSplitTrace(objs, script, if raised.Some? then raised.value.0 + 1 else |objs|)
    ensures forall k :: 0 <= k < |execs| ==> Stage(execs[k].cmd) == 2
    ensures FailureIsLast(execs)
    ensures raised.None? ==> AllOk(execs)
    ensures raised.Some? && raised.value.1 == CommandFailed ==> |execs| > 0 && !execs[|execs| - 1].ok
    ensures raised.Some? ==> forall j :: 0 <= j < raised.value.0 ==> objs[j].encrypted
    ensures raised.None? ==> forall j :: 0 <= j < |objs| ==> objs[j].encrypted
    ensures (forall j :: 0 <= j < |objs| ==> !ExceedsSplitLimit(objs[j].sizeBytes)) ==> execs == []
  {
    var n := if raised.Some? then raised.value.0 + 1 else |objs|;
    ObjSplitTraceStages(objs, script, n);
    if forall j :: 0 <= j < |objs| ==> !ExceedsSplitLimit(objs[j].sizeBytes) {
      ObjSplitTraceSmall(objs, script, n);
    }
    match raised
    case Some((i, e)) =>
      ObjSplitFailureIsLast(objs, script, i);
      if e == CommandFailed {
        assert objs[i].encrypted;
      }
    case None =>
      ObjSplitTraceOk(objs, script, |objs|);
  }

  /**
   * The commands of the first n objects all belong to the split stage; they
   * all succeed when none of those objects raises, and there are none when
   * every one of them is within the limit.
   */
  lemma ObjSplitTraceFacts(objs: seq<FileObj>, script: seq<FileScript>, n: nat)
    requires n <= |objs| == |script|
    ensures forall k :: 0 <= k < |ObjSplitTrace(objs, script, n)| ==> Stage(ObjSplitTrace(objs, script, n)[k].cmd) == 2
    ensures (forall j :: 0 <= j < n ==> !objs[j].SplitRaises(script[j].splitOk, script[j].rmOk)) ==>
      AllOk(ObjSplitTrace(objs, script, n))
    ensures (forall j :: 0 <= j < n ==> !ExceedsSplitLimit(objs[j].sizeBytes)) ==> ObjSplitTrace(objs, script, n) == []
  {
    ObjSplitTraceStages(objs, script, n);
    if forall j :: 0 <= j < n ==> !objs[j].SplitRaises(script[j].splitOk, script[j].rmOk) {
      ObjSplitTraceOk(objs, script, n);
    }
    if forall j :: 0 <= j < n ==> !ExceedsSplitLimit(objs[j].sizeBytes) {
      ObjSplitTraceSmall(objs, script, n);
    }
  }

  lemma {:induction false} ObjSplitTraceStages(objs: seq<FileObj>, script: seq<FileScript>, n: nat)
    requires n <= |objs| == |script|
    ensures forall k :: 0 <= k < |ObjSplitTrace(objs, script, n)| ==> Stage(ObjSplitTrace(objs, script, n)[k].cmd) == 2
  {
    if n > 0 {
      ObjSplitTraceStages(objs, script, n - 1);
      var t0 := ObjSplitTrace(objs, script, n - 1);
      var o := objs[n - 1];
      var c := if o.encrypted then SplitCommands(o.name, o.sizeBytes, script[n - 1].splitOk, script[n - 1].rmOk) else [];
      SplitCommandsOutcome(o.name, o.sizeBytes, script[n - 1].splitOk, script[n - 1].rmOk);
      assert forall k :: 0 <= k < |t0 + c| ==> (t0 + c)[k] == if k < |t0| then t0[k] else c[k - |t0|];
    }
  }

  lemma {:induction false} ObjSplitTraceOk(objs: seq<FileObj>, script: seq<FileScript>, n: nat)
    requires n <= |objs| == |script|
    requires forall j :: 0 <= j < n ==> !objs[j].SplitRaises(script[j].splitOk, script[j].rmOk)
    ensures AllOk(ObjSplitTrace(objs, script, n))
  {
    if n > 0 {
      ObjSplitTraceOk(objs, script, n - 1);
      var t0 := ObjSplitTrace(objs, script, n - 1);
      var o := objs[n - 1];
      var c := SplitCommands(o.name, o.sizeBytes, script[n - 1].splitOk, script[n - 1].rmOk);
      SplitCommandsOutcome(o.name, o.sizeBytes, script[n - 1].splitOk, script[n - 1].rmOk);
      assert forall k :: 0 <= k < |t0 + c| ==> (t0 + c)[k] == if k < |t0| then t0[k] else c[k - |t0|];
    }
  }

  lemma {:induction false} ObjSplitTraceSmall(objs: seq<FileObj>, script: seq<FileScript>, n: nat)
    requires n <= |objs| == |script|
    requires forall j :: 0 <= j < n ==> !ExceedsSplitLimit(objs[j].sizeBytes)
    ensures ObjSplitTrace(objs, script, n) == []
  {
    if n > 0 {
      ObjSplitTraceSmall(objs, script, n - 1);
    }
  }

  /**
   * When object i is the first to raise, only its own commands can have
   * failed, and when it is encrypted its last command did.
   */
  lemma ObjSplitFailureIsLast(objs: seq<FileObj>, script: seq<FileScript>, i: nat)
    requires i < |objs| == |script|
    requires objs[i].SplitRaises(script[i].splitOk, script[i].rmOk)
    requires forall j :: 0 <= j < i ==> !objs[j].SplitRaises(script[j].splitOk, script[j].rmOk)
    ensures var t := ObjSplitTrace(objs, script, i + 1);
      FailureIsLast(t) && (objs[i].encrypted ==> |t| > 0 && !t[|t| - 1].ok)
  {
    ObjSplitTraceFacts(objs, script, i);
    var o := objs[i];
    SplitCommandsOutcome(o.name, o.sizeBytes, script[i].splitOk, script[i].rmOk);
  }

  /**
   * For encrypted objects named `cur` with the sizes `stat` reported, the
   * commands SplitAll runs are those SplitTrace gives for the script.
   */
  lemma {:induction false} ObjSplitTraceMatches(objs: seq<FileObj>, cur: seq<string>, script: seq<FileScript>, n: nat)
    requires n <= |objs| == |cur| == |script| && AllEncrypted(objs)
    requires forall i :: 0 <= i < |objs| ==> objs[i].name == cur[i] && Some(objs[i].sizeBytes) == script[i].statBytes
    ensures ObjSplitTrace(objs, script, n) == SplitTrace(cur, script, n)
  {
    if n > 0 {
      ObjSplitTraceMatches(objs, cur, script, n - 1);
    }
  }

  /** Line 288: keyPrinter once every file is encrypted shows every file's key, in order. */
  method ShowAllKeys(objs: seq<FileObj>, ghost names: seq<string>, script: seq<FileScript>)
    returns (shown: seq<string>)
    requires Built(objs, names, script) && WellFormed(script) && AllEncrypted(objs)
    requires forall i :: 0 <= i < |objs| ==> objs[i].key == Some(Key(script, i))
    ensures shown == KeysOf(names, script, |names|)
  {
    shown := KeyPrinter(objs);
    KeyLinesOfEncryptedPrefix(objs, |objs|);
  }

  /** Lines 269-275 after a `gpg` failure on file `failed`: show the earlier keys or quit. */
  method AfterGpgFailure(objs: seq<FileObj>, ghost names: seq<string>, script: seq<FileScript>,
                         failed: nat, stdin: seq<string>, pos: nat)
    returns (end: End, shown: seq<string>)
    requires |objs| == |names| == |script| && WellFormed(script) && AllValid(objs)
    requires failed < |objs| && pos <= |stdin|
    requires forall i :: 0 <= i < |objs| ==> objs[i].name == names[i]
    requires forall i :: 0 <= i < |objs| ==> (objs[i].encrypted <==> i < failed)
    requires forall i :: 0 <= i < |objs| && objs[i].encrypted ==> objs[i].key == Some(Key(script, i))
    ensures (end, shown) == RecoveryOutcome(names, script, stdin, pos, failed)
    ensures end == InputExhausted || end == QuitAfterGpgError(failed) || end == KeysAfterGpgError(failed)
    ensures end.KeysAfterGpgError? ==> shown == KeysOf(names, script, failed)
    ensures !end.KeysAfterGpgError? ==> shown == []
  {
    shown := [];
    var choice, _ := RecoveryPrompt(stdin, pos);
    match choice {
      case EndOfInput =>
        end := InputExhausted;
      case Quit =>
        end := QuitAfterGpgError(failed);
      case ViewKeys =>
        shown := KeyPrinter(objs);
        KeyLinesOfEncryptedPrefix(objs, failed);
        assert shown == KeysOf(names, script, failed);
        end := KeysAfterGpgError(failed);
    }
  }

  /**
   * Lines 291-299: rename every object when the answer was "r". `stop` is
   * the end of the run when renaming ended it; otherwise every object now
   * carries its new name.
   */
  method RenameStage(objs: seq<FileObj>, ghost names: seq<string>, script: seq<FileScript>,
                     stdin: seq<string>, pos: nat, answer: string)
    returns (stop: Option<End>, mv: seq<Exec>)
    requires Built(objs, names, script) && pos <= |stdin|
    modifies set o | o in objs
    ensures (stop, mv) == if answer == "r" then RenameOutcome(names, script, stdin, pos) else (None, [])
    ensures stop.None? && answer == "r" ==> pos + |names| <= |stdin|
    ensures stop.None? ==> forall i :: 0 <= i < |objs| ==>
      objs[i].name == if answer == "r" then stdin[pos + i] else names[i]
    ensures AllValid(objs)
    ensures forall i :: 0 <= i < |objs| ==>
      objs[i].encrypted == old(objs[i].encrypted) && objs[i].key == old(objs[i].key)
    ensures forall k :: 0 <= k < |mv| ==> mv[k].cmd.Mv? && k < |names| && mv[k].cmd.src == names[k] + Ext
    ensures FailureIsLast(mv)
    ensures stop.None? ==> AllOk(mv)
    ensures stop.Some? ==> (stop.value == InputExhausted ||
      (stop.value.RenameRaised? && stop.value.index < |script| && !script[stop.value.index].mvOk))
    ensures answer != "r" ==> stop.None? && mv == []
  {
    stop, mv := None, [];
    if answer == "r" {
      var renameFailed, exhausted, _, mvExecs := RenameAll(objs, names, script, stdin, pos);
      mv := mvExecs;
      if exhausted {
        stop := Some(InputExhausted);
      } else if renameFailed.Some? {
        stop := Some(RenameRaised(renameFailed.value));
      }
    }
  }

  /**
   * Lines 302-307, after the rename stage ran the commands `mv`
   * successfully: split every object, now named `cur`. `rest` is `mv`
   * followed by the split commands.
   */
  method SplitStage(objs: seq<FileObj>, ghost cur: seq<string>, ghost names: seq<string>,
                    script: seq<FileScript>, mv: seq<Exec>)
    returns (end: End, rest: seq<Exec>)
    requires |objs| == |cur| == |script| && AllEncrypted(objs)
    requires forall i :: 0 <= i < |objs| ==> objs[i].name == cur[i] && Some(objs[i].sizeBytes) == script[i].statBytes
    requires RenamedInOrder(mv, names)
    ensures (end, rest) == SplitOutcome(cur, script, mv)
    ensures (forall j :: 0 <= j < |objs| ==> !ExceedsSplitLimit(objs[j].sizeBytes)) ==> rest == mv
    ensures end.SplitRaised? || end == Finished
    ensures LaterStages(rest, names)
    ensures end.SplitRaised? ==> end.error == CommandFailed && |rest| > 0 && !rest[|rest| - 1].ok
    ensures end.Finished? ==> AllOk(rest)
  {
    var raised, splitExecs := SplitAll(objs, script);
    ObjSplitTraceMatches(objs, cur, script, if raised.Some? then raised.value.0 + 1 else |objs|);
    assert forall j :: 0 <= j < |objs| ==>
      (objs[j].SplitRaises(script[j].splitOk, script[j].rmOk) <==> SplitFails(script[j]));
    if raised.Some? {
      assert SplitFailure(script) == Some(raised.value.0);
    }
    SplitAfterRename(mv, splitExecs, names);
    rest := mv + splitExecs;
    end := if raised.Some? then SplitRaised(raised.value.0, raised.value.1) else Finished;
  }

  /**
   * Lines 291-307: the rename stage, then splitting. `rest` is every
   * command run.
   */
  method RenameThenSplit(objs: seq<FileObj>, ghost names: seq<string>, script: seq<FileScript>,
                         stdin: seq<string>, pos: nat, answer: string)
    returns (end: End, rest: seq<Exec>)
    requires Built(objs, names, script) && AllEncrypted(objs) && pos <= |stdin|
    modifies set o | o in objs
    ensures (end, rest) == LaterOutcome(names, script, stdin, pos, answer)
    ensures LaterFacts(end, rest, names, script)
    ensures AllValid(objs) && AllEncrypted(objs)
    ensures forall i :: 0 <= i < |objs| ==> objs[i].key == old(objs[i].key)
    ensures answer != "r" || RenameOutcome(names, script, stdin, pos).0.None? ==>
      NamedAs(objs, if answer == "r" then stdin[pos..pos + |names|] else names)
  {
    end, rest := RenameThenSplitSteps(objs, names, script, stdin, pos, answer);
    LaterOutcomeFacts(names, script, stdin, pos, answer);
  }

  /** The statements of RenameThenSplit, proved against LaterOutcome alone. */
  method RenameThenSplitSteps(objs: seq<FileObj>, ghost names: seq<string>, script: seq<FileScript>,
                              stdin: seq<string>, pos: nat, answer: string)
    returns (end: End, rest: seq<Exec>)
    requires Built(objs, names, script) && AllEncrypted(objs) && pos <= |stdin|
    modifies set o | o in objs
    ensures (end, rest) == LaterOutcome(names, script, stdin, pos, answer)
    ensures AllValid(objs) && AllEncrypted(objs)
    ensures forall i :: 0 <= i < |objs| ==> objs[i].key == old(objs[i].key)
    ensures answer != "r" || RenameOutcome(names, script, stdin, pos).0.None? ==>
      NamedAs(objs, if answer == "r" then stdin[pos..pos + |names|] else names)
  {
    var stop, mv := RenameStage(objs, names, script, stdin, pos, answer);
    if stop.Some? {
      end, rest := stop.value, mv;
    } else {
      ghost var cur := if answer == "r" then stdin[pos..pos + |names|] else names;
      assert NamedAs(objs, cur);
      RenameOutcomeFacts(names, script, stdin, pos);
      end, rest := SplitStage(objs, cur, names, script, mv);
    }
  }

  /**
   * Lines 285-307 once every file is encrypted: wait for "v", show the keys,
   * ask whether to rename, then split. `rest` is every command run.
   */
  method AfterEncryption(objs: seq<FileObj>, ghost names: seq<string>, script: seq<FileScript>,
                         stdin: seq<string>, pos: nat, userIn: string)
    returns (end: End, rest: seq<Exec>, shown: seq<string>)
    requires Built(objs, names, script) && WellFormed(script) && AllEncrypted(objs) && pos <= |stdin|
    requires forall i :: 0 <= i < |objs| ==> objs[i].key == Some(Key(script, i))
    modifies set o | o in objs
    ensures (end, rest, shown) == RevealOutcome(names, script, stdin, pos, userIn)
    ensures RevealFacts(end, rest, shown, names, script)
    ensures AllValid(objs) && AllEncrypted(objs)
    ensures forall i :: 0 <= i < |objs| ==> objs[i].key == Some(Key(script, i))
  {
    end, rest, shown := RevealThenLater(objs, names, script, stdin, pos, userIn);
    RevealOutcomeFacts(names, script, stdin, pos, userIn);
  }

  /** The statements of AfterEncryption, proved against RevealOutcome alone. */
  method RevealThenLater(objs: seq<FileObj>, ghost names: seq<string>, script: seq<FileScript>,
                         stdin: seq<string>, pos: nat, userIn: string)
    returns (end: End, rest: seq<Exec>, shown: seq<string>)
    requires Built(objs, names, script) && WellFormed(script) && AllEncrypted(objs) && pos <= |stdin|
    requires forall i :: 0 <= i < |objs| ==> objs[i].key == Some(Key(script, i))
    modifies set o | o in objs
    ensures (end, rest, shown) == RevealOutcome(names, script, stdin, pos, userIn)
    ensures AllValid(objs) && AllEncrypted(objs)
    ensures forall i :: 0 <= i < |objs| ==> objs[i].key == Some(Key(script, i))
  {
    end, rest, shown := InputExhausted, [], [];
    var found, next := RevealPrompt(stdin, pos, userIn);
    if found {
      shown := ShowAllKeys(objs, names, script);
      end, rest := LaterFromStage(objs, names, script, stdin, next);
    }
  }

  /** Lines 291-307 once the keys were shown: ask about renaming, if input is left, then split. */
  method LaterFromStage(objs: seq<FileObj>, ghost names: seq<string>, script: seq<FileScript>,
                        stdin: seq<string>, next: nat)
    returns (end: End, rest: seq<Exec>)
    requires Built(objs, names, script) && AllEncrypted(objs) && next <= |stdin|
    modifies set o | o in objs
    ensures (end, rest) == LaterFrom(names, script, stdin, next)
    ensures AllValid(objs) && AllEncrypted(objs)
    ensures forall i :: 0 <= i < |objs| ==> objs[i].key == old(objs[i].key)
  {
    end, rest := InputExhausted, [];
    if next < |stdin| {
      end, rest := RenameThenSplit(objs, names, script, stdin, next + 1, stdin[next]);
    }
  }


  /**
   * Lines 255-307, once the user confirmed with `userIn`: encrypt every
   * object in order, then either the recovery prompt or the reveal, rename
   * and split stages.
   */
  method ProcessBatch(objs: seq<FileObj>, ghost names: seq<string>, script: seq<FileScript>,
                      stdin: seq<string>, pos: nat, userIn: string)
    returns (end: End, trace: seq<Exec>, shown: seq<string>)
    requires Built(objs, names, script) && WellFormed(script) && pos <= |stdin|
    requires forall i :: 0 <= i < |objs| ==> !objs[i].encrypted
    modifies set o | o in objs
    ensures (end, trace, shown) == BatchOutcome(names, script, stdin, pos, userIn)
    ensures BatchFacts(end, trace, shown, names, script)
    ensures AllValid(objs)
    ensures forall i :: 0 <= i < |objs| ==>
      (objs[i].encrypted <==> GpgFailure(script).None? || i < GpgFailure(script).value)
    ensures forall i :: 0 <= i < |objs| && objs[i].encrypted ==> objs[i].key == Some(Key(script, i))
  {
    BatchOutcomeFacts(names, script, stdin, pos, userIn);
    var failed, gpgExecs := EncryptAll(objs, names, script);
    trace := gpgExecs;
    if failed.Some? {
      end, shown := AfterGpgFailure(objs, names, script, failed.value, stdin, pos);
      return;
    }
    var rest;
    end, rest, shown := AfterEncryption(objs, names, script, stdin, pos, userIn);
    trace := gpgExecs + rest;
  }

  /**
   * The script from line 222 on, for the selected `names`: validation,
   * building the objects, confirmation, then the batch. Returns how the run
   * ended, every `gpg`, `mv`, `split` and `rm` it ran in order, and the
   * lines keyPrinter printed.
   */
  method Launch(env: Env, names: seq<string>, script: seq<FileScript>, stdin: seq<string>)
    returns (end: End, trace: seq<Exec>, shown: seq<string>)
    requires |script| == |names| && WellFormed(script)
    ensures (end, trace, shown) == RunOutcome(env, names, script, stdin)
    ensures RunFacts(env, end, trace, shown, names, script, stdin)
  {
    RunOutcomeFacts(env, names, script, stdin);
    end, trace, shown := Finished, [], [];
    var status := PlatformValidation(env, Shipped);
    if status != 0 {
      end := Unsupported(status);
      return;
    }

    var objs, statFailed := CreateObjects(names, script);
    if statFailed.Some? {
      end := StatFailed(statFailed.value);
      return;
    }
    if |objs| == 0 {
      end := NoFiles;
      return;
    }

    if |stdin| == 0 {
      end := InputExhausted;
      return;
    }
    var userIn := stdin[0];
    if userIn != "y" {
      end := NotConfirmed;
      return;
    }
    end, trace, shown := ProcessBatch(objs, names, script, stdin, 1, userIn);
  }

  /**
   * The whole script (FilePG.py:196-307) on a directory listing, with the
   * selection as written (`fi[-3:]` against the extension list), the
   * outcomes of the commands for each selected file and the lines of
   * standard input.
   */
  method Run(env: Env, entries: seq<Entry>, script: seq<FileScript>, stdin: seq<string>)
    returns (end: End, trace: seq<Exec>, shown: seq<string>)
    requires |script| == |SelectAsWritten(entries)| && WellFormed(script)
    ensures (end, trace, shown) == RunOutcome(env, SelectAsWritten(entries), script, stdin)
    ensures RunFacts(env, end, trace, shown, SelectAsWritten(entries), script, stdin)
  {
    end, trace, shown := Launch(env, SelectAsWritten(entries), script, stdin);
  }

  /** The whole script with the corrected selection, which also picks up `.7z` archives. */
  method RunCorrected(env: Env, entries: seq<Entry>, script: seq<FileScript>, stdin: seq<string>)
    returns (end: End, trace: seq<Exec>, shown: seq<string>)
    requires |script| == |Select(entries)| && WellFormed(script)
    ensures (end, trace, shown) == RunOutcome(env, Select(entries), script, stdin)
    ensures RunFacts(env, end, trace, shown, Select(entries), script, stdin)
  {
    end, trace, shown := Launch(env, Select(entries), script, stdin);
  }
}
