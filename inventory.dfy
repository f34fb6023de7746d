/**
 * The input-file selection (FilePG.py:220-221): keep a directory entry when
 * it is a regular file and `fi[-3:] in DETECTEDFILETYPES`. The directory
 * listing and its order are given.
 */
module Inventory {
  import opened Config

  /** One entry of `listdir("./")` with the answer of `isfile` for it. */
  datatype Entry = Entry(name: string, isRegularFile: bool)

  /** `s[-3:]`: the last three characters, or all of a shorter string. */
  function LastThree(s: string): (t: string)
    ensures |t| == if |s| < 3 then |s| else 3
    ensures t == s[|s| - |t|..]
  {
    if |s| <= 3 then s else s[|s| - 3..]
  }

  predicate EndsWith(s: string, suffix: string)
  {
    |suffix| <= |s| && s[|s| - |suffix|..] == suffix
  }

  /** The test the program applies: `fi[-3:] in DETECTEDFILETYPES`. */
  predicate DetectedAsWritten(name: string)
    ensures DetectedAsWritten(name) <==> EndsWith(name, "zip") || name == "7z"
  {
    LastThree(name) in DetectedFileTypes
  }

  /** The evidently intended test: the name ends with one of the detected types. */
  predicate Detected(name: string)
    ensures Detected(name) <==> EndsWith(name, "zip") || EndsWith(name, "7z")
  {
    exists t :: t in DetectedFileTypes && EndsWith(name, t)
  }

  /** The list comprehension: names of the regular-file entries that `keep` accepts, in listing order. */
  function SelectBy(entries: seq<Entry>, keep: string -> bool): (r: seq<string>)
    ensures |r| <= |entries|
    ensures forall k :: 0 <= k < |r| ==> keep(r[k])
  {
    if entries == [] then []
    else
      (if entries[0].isRegularFile && keep(entries[0].name) then [entries[0].name] else [])
      + SelectBy(entries[1..], keep)
  }

  /** `fileNameList` as the program computes it. */
  function SelectAsWritten(entries: seq<Entry>): (r: seq<string>)
    ensures |r| <= |entries|
    ensures forall k :: 0 <= k < |r| ==> DetectedAsWritten(r[k])
  {
    SelectBy(entries, DetectedAsWritten)
  }

  /** `fileNameList` with the corrected test, used by `Pipeline.RunCorrected`. */
  function Select(entries: seq<Entry>): (r: seq<string>)
    ensures |r| <= |entries|
    ensures forall k :: 0 <= k < |r| ==> Detected(r[k])
  {
    SelectBy(entries, Detected)
  }

  /** A name is selected iff some regular-file entry carries it and passes the test. */
  lemma {:induction false} SelectByMembership(entries: seq<Entry>, keep: string -> bool, name: string)
    ensures name in SelectBy(entries, keep) <==>
      exists i :: 0 <= i < |entries| && entries[i].name == name && entries[i].isRegularFile && keep(name)
  {
    if entries != [] {
      SelectByMembership(entries[1..], keep, name);
      if name in SelectBy(entries[1..], keep) {
        var i :| 1 <= i + 1 < |entries| && entries[1..][i].name == name && entries[1..][i].isRegularFile && keep(name);
        assert entries[i + 1].name == name;
      }
    }
  }

  /** Selection keeps listing order: selecting from two parts of a listing is selecting from each. */
  lemma {:induction false} SelectByAppend(a: seq<Entry>, b: seq<Entry>, keep: string -> bool)
    ensures SelectBy(a + b, keep) == SelectBy(a, keep) + SelectBy(b, keep)
  {
    if a != [] {
      assert (a + b)[1..] == a[1..] + b;
      SelectByAppend(a[1..], b, keep);
    } else {
      assert a + b == b;
    }
  }

  /** `"x.zip"` and `"xzip"` pass the program's test; `"x.7z"` fails it because `".7z" != "7z"`. */
  lemma AsWrittenExamples()
    ensures DetectedAsWritten("x.zip") && DetectedAsWritten("xzip")
    ensures !DetectedAsWritten("x.7z") && !DetectedAsWritten("archive.7z")
    ensures DetectedAsWritten("7z")
  {
    assert LastThree("x.zip") == "zip";
    assert LastThree("xzip") == "zip";
    assert LastThree("x.7z") == ".7z";
    assert LastThree("archive.7z") == ".7z";
  }

  /**
   * The program's test accepts a name ending in "7z" only when the name is
   * exactly "7z", so no 7-Zip archive `name.7z` is ever selected.
   */
  lemma SevenZipNeverSelectedAsWritten(name: string)
    requires EndsWith(name, "7z") && |name| > 2
    ensures !DetectedAsWritten(name)
  {
    var t := LastThree(name);
    assert |t| == 3;
    assert t != "zip" by { assert t[1..] == "7z"; }
  }

  /** The corrected test accepts every `.7z` archive. */
  lemma SevenZipSelected(name: string)
    requires EndsWith(name, ".7z")
    ensures Detected(name)
  {
    assert name[|name| - 2..] == name[|name| - 3..][1..];
    assert EndsWith(name, "7z");
    assert "7z" in DetectedFileTypes;
  }

  /**
   * The correction only adds: it accepts everything the program accepted,
   * and the names it adds are exactly the longer names ending in "7z".
   */
  lemma CorrectionOnlyAddsSevenZip(name: string)
    ensures DetectedAsWritten(name) ==> Detected(name)
    ensures Detected(name) && !DetectedAsWritten(name) <==> |name| > 2 && EndsWith(name, "7z")
  {
    assert "zip" in DetectedFileTypes && "7z" in DetectedFileTypes;
    if DetectedAsWritten(name) {
      if LastThree(name) == "zip" {
        assert EndsWith(name, "zip");
      } else {
        assert LastThree(name) == "7z";
        assert EndsWith(name, "7z");
      }
    }
    if |name| > 2 && EndsWith(name, "7z") {
      SevenZipNeverSelectedAsWritten(name);
    }
    if Detected(name) && !DetectedAsWritten(name) {
      assert EndsWith(name, "7z");
      assert |name| != 2;
    }
  }

  /** A listing with one zip and one 7-Zip archive: the program keeps only the zip. */
  lemma SevenZipArchiveMissed()
    ensures SelectAsWritten([Entry("a.zip", true), Entry("b.7z", true), Entry("c.zip", false)]) == ["a.zip"]
    ensures Select([Entry("a.zip", true), Entry("b.7z", true), Entry("c.zip", false)]) == ["a.zip", "b.7z"]
  {
    AsWrittenExamples();
    assert LastThree("a.zip") == "zip";
    assert LastThree("b.7z") == ".7z";
    SevenZipSelected("b.7z");
    assert EndsWith("a.zip", "zip");
  }
}
