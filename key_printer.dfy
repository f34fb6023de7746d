/**
 * keyPrinter (FilePG.py:145-152): one `name : key` line for every encrypted
 * object, in list order. Printing is modelled by returning the lines.
 */
module KeyPrinting {
  import opened Wrappers
  import opened Passphrase
  import opened FileObjects

  /** The text printed for one object: `str(fileObj) + " : " + fileObj.getKey() + "\n"`. */
  function KeyLine(name: string, key: string): string
  {
    name + " : " + key + "\n"
  }

  /**
   * A printed line gives back the file name and the passphrase: keys have a
   * fixed length, so no two (name, key) pairs print the same line.
   */
  lemma KeyLineDeterminesNameAndKey(n1: string, k1: string, n2: string, k2: string)
    requires IsKey(k1) && IsKey(k2)
    requires KeyLine(n1, k1) == KeyLine(n2, k2)
    ensures n1 == n2 && k1 == k2
  {
    var line := KeyLine(n1, k1);
    assert |n1| == |n2|;
    assert n1 == line[..|n1|] && n2 == KeyLine(n2, k2)[..|n2|];
    assert k1 == line[|n1| + 3..|n1| + 3 + |k1|];
    assert k2 == KeyLine(n2, k2)[|n2| + 3..|n2| + 3 + |k2|];
  }

  ghost predicate AllValid(objs: seq<FileObj>)
    reads objs
  {
    forall i :: 0 <= i < |objs| ==> objs[i].Valid()
  }

  /** The lines keyPrinter prints for objs, in order. */
  ghost function KeyLines(objs: seq<FileObj>): (r: seq<string>)
    reads objs
    requires AllValid(objs)
    ensures |r| <= |objs|
  {
    if objs == [] then []
    else
      var o := objs[|objs| - 1];
      KeyLines(objs[..|objs| - 1]) + (if o.encrypted then [KeyLine(o.Display(), o.GetKey().value)] else [])
  }

  /** Positions of the encrypted objects, in increasing order. */
  ghost function EncryptedIndices(objs: seq<FileObj>): seq<nat>
    reads objs
  {
    if objs == [] then []
    else
      var n := |objs| - 1;
      EncryptedIndices(objs[..n]) + (if objs[n].encrypted then [n] else [])
  }

  /** EncryptedIndices lists exactly the encrypted positions, strictly increasing. */
  lemma {:induction false} EncryptedIndicesExact(objs: seq<FileObj>)
    ensures forall j :: 0 <= j < |EncryptedIndices(objs)| ==> EncryptedIndices(objs)[j] < |objs|
    ensures forall j, k :: 0 <= j < k < |EncryptedIndices(objs)| ==>
      EncryptedIndices(objs)[j] < EncryptedIndices(objs)[k]
    ensures forall i :: i in EncryptedIndices(objs) <==> 0 <= i < |objs| && objs[i].encrypted
  {
    if objs != [] {
      var n := |objs| - 1;
      EncryptedIndicesExact(objs[..n]);
    }
  }

  /**
   * keyPrinter prints the j-th encrypted object's name and key as its j-th
   * line, and nothing for unencrypted objects.
   */
  lemma {:induction false} KeyLinesAreEncryptedObjects(objs: seq<FileObj>)
    requires AllValid(objs)
    ensures |KeyLines(objs)| == |EncryptedIndices(objs)|
    ensures forall j :: 0 <= j < |KeyLines(objs)| ==>
      EncryptedIndices(objs)[j] < |objs| && objs[EncryptedIndices(objs)[j]].encrypted &&
      KeyLines(objs)[j] == KeyLine(objs[EncryptedIndices(objs)[j]].name,
                                   objs[EncryptedIndices(objs)[j]].key.value)
  {
    if objs != [] {
      var n := |objs| - 1;
      assert AllValid(objs[..n]);
      KeyLinesAreEncryptedObjects(objs[..n]);
    }
  }

  /**
   * When exactly the first m objects are encrypted, the lines are theirs,
   * one each, in order.
   */
  lemma {:induction false} KeyLinesOfEncryptedPrefix(objs: seq<FileObj>, m: nat)
    requires AllValid(objs) && m <= |objs|
    requires forall j :: 0 <= j < |objs| ==> (objs[j].encrypted <==> j < m)
    ensures |KeyLines(objs)| == m
    ensures forall j :: 0 <= j < m ==> KeyLines(objs)[j] == KeyLine(objs[j].name, objs[j].key.value)
  {
    if objs != [] {
      var n := |objs| - 1;
      assert AllValid(objs[..n]);
      KeyLinesOfEncryptedPrefix(objs[..n], if m == |objs| then n else m);
    }
  }

  /** keyPrinter(fileObjList). */
  method KeyPrinter(objs: seq<FileObj>) returns (lines: seq<string>)
    requires AllValid(objs)
    ensures lines == KeyLines(objs)
  {
    lines := [];
    for i := 0 to |objs|
      invariant lines == KeyLines(objs[..i])
    {
      var o := objs[i];
      assert objs[..i + 1][..i] == objs[..i];
      assert AllValid(objs[..i]);
      if o.IsEncrypted() {
        var k := o.GetKey();
        lines := lines + [KeyLine(o.Display(), k.value)];
      }
    }
    assert objs[..|objs|] == objs;
  }
}
