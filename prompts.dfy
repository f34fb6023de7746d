/**
 * The interactive prompts of the main script (FilePG.py:250-291). Standard
 * input is a sequence of lines read from position `pos` on; running out of
 * lines is where `input()` raises EOFError.
 */
module Prompts {
  import opened Wrappers

  /** Outcome of the prompt shown after a `gpg` failure. */
  datatype Recovery = ViewKeys | Quit | EndOfInput

  /** The answer the recovery prompt settles on when reading from `pos`: the first "q" or "v" line. */
  function RecoveryChoice(stdin: seq<string>, pos: nat): (c: Recovery)
    requires pos <= |stdin|
    decreases |stdin| - pos
    ensures c == EndOfInput <==> forall k :: pos <= k < |stdin| ==> stdin[k] != "q" && stdin[k] != "v"
  {
    if pos == |stdin| then EndOfInput
    else if stdin[pos] == "q" then Quit
    else if stdin[pos] == "v" then ViewKeys
    else RecoveryChoice(stdin, pos + 1)
  }

  /**
   * Where reading resumes once the reveal loop has seen a "v", given the
   * last line read before it; None when the input runs out first.
   */
  function RevealAt(stdin: seq<string>, pos: nat, last: string): (r: Option<nat>)
    requires pos <= |stdin|
    decreases |stdin| - pos
    ensures r.Some? ==> pos <= r.value <= |stdin|
    ensures r.None? <==> last != "v" && forall k :: pos <= k < |stdin| ==> stdin[k] != "v"
  {
    if last == "v" then Some(pos)
    else if pos == |stdin| then None
    else RevealAt(stdin, pos + 1, stdin[pos])
  }

  /**
   * The loop `while True: input("Enter 'v' to view keys, 'q' to quit")`
   * (FilePG.py:269-275): the first line that is "q" or "v" decides, every
   * other line is ignored.
   */
  method RecoveryPrompt(stdin: seq<string>, pos: nat) returns (choice: Recovery, next: nat)
    requires pos <= |stdin|
    ensures pos <= next <= |stdin|
    ensures forall k :: pos <= k < next - 1 ==> stdin[k] != "q" && stdin[k] != "v"
    ensures choice == EndOfInput <==> next == |stdin| && forall k :: pos <= k < |stdin| ==> stdin[k] != "q" && stdin[k] != "v"
    ensures choice == Quit ==> pos < next && stdin[next - 1] == "q"
    ensures choice == ViewKeys ==> pos < next && stdin[next - 1] == "v"
    ensures choice == RecoveryChoice(stdin, pos)
  {
    next := pos;
    while true
      invariant pos <= next <= |stdin|
      invariant forall k :: pos <= k < next ==> stdin[k] != "q" && stdin[k] != "v"
      invariant RecoveryChoice(stdin, next) == RecoveryChoice(stdin, pos)
      decreases |stdin| - next
    {
      if next == |stdin| {
        return EndOfInput, next;
      }
      var userIn := stdin[next];
      next := next + 1;
      if userIn == "q" {
        return Quit, next;
      }
      if userIn == "v" {
        return ViewKeys, next;
      }
    }
  }

  /**
   * The loop `while userIn != 'v': userIn = input(...)` (FilePG.py:285-286),
   * entered with the last line read so far in `last`. It stops at the first
   * "v"; `found` is false when the input ran out first.
   */
  method RevealPrompt(stdin: seq<string>, pos: nat, last: string) returns (found: bool, next: nat)
    requires pos <= |stdin|
    ensures pos <= next <= |stdin|
    ensures last == "v" ==> found && next == pos
    ensures last != "v" ==> forall k :: pos <= k < next - 1 ==> stdin[k] != "v"
    ensures last != "v" && found ==> pos < next && stdin[next - 1] == "v"
    ensures !found <==> last != "v" && forall k :: pos <= k < |stdin| ==> stdin[k] != "v"
    ensures RevealAt(stdin, pos, last) == if found then Some(next) else None
  {
    var userIn := last;
    next := pos;
    while userIn != "v"
      invariant pos <= next <= |stdin|
      invariant last == "v" ==> next == pos
      invariant last != "v" ==> forall k :: pos <= k < next - 1 ==> stdin[k] != "v"
      invariant last != "v" && userIn == "v" ==> pos < next && stdin[next - 1] == "v"
      invariant userIn != "v" ==> forall k :: pos <= k < next ==> stdin[k] != "v"
      invariant RevealAt(stdin, next, userIn) == RevealAt(stdin, pos, last)
      decreases |stdin| - next, if userIn == "v" then 0 else 1
    {
      if next == |stdin| {
        return false, next;
      }
      userIn := stdin[next];
      next := next + 1;
    }
    found := true;
  }
}
