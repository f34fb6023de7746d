# File Privacy Guard — a Dafny model of its decision logic

File Privacy Guard (`FilePG.py`) batch-encrypts the archives in the current
directory with GnuPG. It picks a random passphrase for each file and can rename
the encrypted outputs. It splits every file larger than `SPLITLIMIT` megabytes
into pieces. Almost all of the work is done by shell commands (`gpg`, `stat`,
`split`, `rm`, `mv`). This project models the decisions the script makes around
those commands and proves properties of them:

- **`Config`**: the fixed configuration (`CIPHER`, `DIGEST`,
  `DETECTEDFILETYPES`, `KEYLENGTH`, `SPLITLIMIT`, `EXT`). The split test
  `size / 1048576 > SPLITLIMIT` is stated on the integer byte count. Division by
  2^20 is exact, so this is the same test (`SplitLimitIsTrueDivision`).
- **`Passphrase`**: the passphrase generator. It makes `KEYLENGTH` characters
  of `string.ascii_letters + string.digits`. The indices that `secrets.choice`
  drew are an input.
- **`FileObjects`**: class `FileObj`. Its fields are `name`, the byte count
  `sizeBytes` taken once at construction (a `const`), `key: Option<string>` and
  `encrypted`. Each method takes the exit status of its commands as a parameter.
  It returns each command it ran as an `Exec` (command and success). Where the
  source raises, the model returns `false` or an `Err`. `isEncrypted()` and
  `__str__` are the read-only functions `IsEncrypted` and `Display`.
- **`KeyPrinting`**: `keyPrinter`, which returns the lines it would print.
- **`Validation`**: `platformValidation`, as a function of the platform, the
  exit status and output of `gpg --version`, and the configuration values.
- **`Inventory`**: the comprehension that selects the input files from a
  directory listing.
- **`Outcomes`**: the outcome of each stage as a function of the inputs, and
  the properties of the run proved on those values.
- **`Prompts`**: the two `while` loops that read standard input. Input is a
  sequence of lines. Running out of lines is where `input()` raises `EOFError`.
- **`Pipeline`**: the main script. It runs validation, selection, object
  creation and confirmation. Then it encrypts in list order and stops at the
  first failure. Then it reveals the keys, renames if asked, and splits. `Run`
  returns how the run ended, every `gpg` encryption, `mv`, `split` and `rm`
  run in order, and the key lines printed.

Behaviour of the code that the model keeps, although a reader of the
program's messages might expect otherwise:

- `platformValidation` does not stop at the first failing check. Every check
  runs, and each failure overwrites `status`, so the **last** failing check
  decides. For example, `gpg --version` exiting non-zero with no output is
  reported as 6 (digest not supported), never as 2.
- `splitIfShouldSplit` returns 0 when it split the file and 1 otherwise. It
  does not return a piece count.
- `encrypt` stores the new key before running `gpg`. After a failed `gpg`, the
  object is unencrypted but holds a key, so "key set iff encrypted" holds only
  in the direction "encrypted ⇒ key set" (`FileObj.Valid`). The same order
  means that calling `encrypt` again on an encrypted object, with `gpg` failing,
  replaces the key while the object stays encrypted (`Encrypt`'s contract shows
  this). The script never calls `encrypt` twice on one object.
- The reveal loop `while userIn != 'v'` starts with the `"y"` of the
  confirmation prompt still in `userIn`, so it always asks at least once.

The run is described twice. The functions of module `Outcomes` give, for
each stage, how the run ends, the commands it runs and the lines it prints,
as values computed from the inputs. The methods of module `Pipeline` run the
stages on `FileObj` objects, and each is proved to produce exactly the value
of its `Outcomes` function. The lemmas of `Outcomes` then prove the
properties of the run on those values.

## Model

| member | source | states |
|---|---|---|
| `Config.SplitLimitIsTrueDivision` | FilePG.py:83 | the integer test on the byte count agrees with Python's true division of the size by 1048576 compared with `SPLITLIMIT` |
| `Passphrase.AlphabetLiterals` | FilePG.py:61 | the three character ranges are `ascii_lowercase`, `ascii_uppercase` and `digits` character for character, 62 characters in all |
| `Passphrase.AlphabetIsAlnum` | FilePG.py:61 | every character of the alphabet is an ASCII letter or digit, and `IndexOf` gives back its position |
| `Passphrase.AlnumInAlphabet` | FilePG.py:61 | every ASCII letter and digit occurs in the alphabet, at `IndexOf` |
| `Passphrase.Password` | FilePG.py:61-62 | the passphrase has one character per draw, and every character is an ASCII letter or digit |
| `Passphrase.PasswordIsKey` | FilePG.py:61-62 | every draw of `KEYLENGTH` indices gives a key of exactly `KEYLENGTH` alphanumeric characters |
| `Passphrase.Indices` | FilePG.py:61-62 | reading a passphrase back as indices gives one index per character |
| `Passphrase.PasswordRoundTrip` | FilePG.py:61-62 | reading the passphrase back as indices gives the draw: no draw information is lost |
| `Passphrase.IndicesRoundTrip` | FilePG.py:61-62 | the other direction: every alphanumeric string is the passphrase of the indices read from it |
| `Passphrase.PasswordInjective` | FilePG.py:61-62 | two draws give the same passphrase only when they are the same draw |
| `FileObjects.FileObj.constructor` | FilePG.py:43-53 | a new object has the given name and `stat` byte count, no key, and is not encrypted |
| `FileObjects.FileObj.Encrypt` | FilePG.py:56-71 | runs `gpg` on `name` with output `name + EXT` and the drawn passphrase; the key is stored whatever `gpg` does; the object becomes encrypted exactly when `gpg` succeeds, and is never reset; the name is unchanged; an encrypted object keeps a well-formed key |
| `FileObjects.SplitCommandsOutcome` | FilePG.py:83-92 | one file's split commands are only `split` and `rm`; there are none iff the file is within the limit; all succeed iff the file is within the limit or both `split` and `rm` succeed; otherwise only the last one failed |
| `FileObjects.FileObj.SplitIfShouldSplit` | FilePG.py:74-92 | raises "not encrypted" iff the object is not encrypted; returns 0 iff the construction-time size exceeds `SPLITLIMIT` MB and both `split` and `rm` succeed; returns 1 iff it is encrypted and not over the limit; raises a command failure iff it is encrypted, over the limit and `split` or `rm` fails; runs no command on an unencrypted object; changes no field |
| `FileObjects.FileObj.Rename` | FilePG.py:95-102 | runs `mv name+EXT newName+EXT` whether or not the object is encrypted; the name becomes `newName` exactly when `mv` succeeds; only the name can change |
| `FileObjects.FileObj.GetKey` | FilePG.py:113-121 | returns the key iff the object is encrypted, and that key is well-formed; otherwise the "not encrypted" error |
| `FileObjects.FileObj.IsEncrypted` | FilePG.py:132-137 | on a well-formed object, true exactly when `getKey` would return a key rather than raise |
| `KeyPrinting.KeyLineDeterminesNameAndKey` | FilePG.py:152 | a printed `name : key` line determines both the file name and the passphrase, because every passphrase has the same length |
| `KeyPrinting.KeyLines` | FilePG.py:150-152 | keyPrinter prints at most one line per object |
| `KeyPrinting.EncryptedIndicesExact` | FilePG.py:150-151 | the positions `keyPrinter` prints for are exactly the encrypted objects, in increasing order |
| `KeyPrinting.KeyLinesAreEncryptedObjects` | FilePG.py:145-152 | the j-th printed line is `name : key` of the j-th encrypted object; unencrypted objects print nothing |
| `KeyPrinting.KeyLinesOfEncryptedPrefix` | FilePG.py:145-152 | when exactly the first m objects are encrypted, the lines are their `name : key` lines, one each, in list order |
| `KeyPrinting.KeyPrinter` | FilePG.py:145-152 | the loop prints exactly the lines `KeyLines` describes |
| `Validation.IsSubstringFacts` | FilePG.py:186-189 | Python's `in` on strings: the empty string is in every string, a string is in every string that contains it, and nothing is in a shorter string |
| `Validation.VersionMismatch` | FilePG.py:182 | the version check passes exactly when the output has at least 14 characters and starts with `gpg (GnuPG) 2.` |
| `Validation.Fails` | FilePG.py:174-191 | only the checks numbered 1 to 7 can fail |
| `Validation.HighestFailingSpec` | FilePG.py:172-193 | the status is 0 iff no check fails; otherwise it is a failing check with no failing check numbered above it; it is at most 7 |
| `Validation.PlatformValidation` | FilePG.py:167-193 | the overwriting sequence of seven checks returns 0 iff all pass, else the highest-numbered failing check, in 0..7 |
| `Validation.ShippedNeverFailsFourOrSeven` | FilePG.py:184-191 | with the shipped `KEYLENGTH` and `EXT` the status is never 4 or 7 |
| `Validation.BadVersionAndMissingDigestIsSix` | FilePG.py:182-191 | a wrong version prefix together with a missing digest gives 6, not 3 |
| `Validation.SilentGpgFailureIsReportedAsDigest` | FilePG.py:176-189 | `gpg --version` failing with empty output is reported as 6, never 2 |
| `Validation.GnuPG2OnLinuxPasses` | FilePG.py:172-193 | on Linux, a successful GnuPG 2 listing that names AES256 and SHA256 passes every check |
| `Inventory.LastThree` | FilePG.py:221 | `fi[-3:]` is the last three characters, or the whole of a shorter name |
| `Inventory.DetectedAsWritten` | FilePG.py:221 | the program's test `fi[-3:] in DETECTEDFILETYPES` accepts exactly the names ending in `zip` and the name `7z` itself |
| `Inventory.Detected` | FilePG.py:221 | the corrected test accepts exactly the names ending in `zip` or in `7z` |
| `Inventory.SelectBy` | FilePG.py:220-221 | the comprehension keeps no more names than there are entries, and every name it keeps passes the test |
| `Inventory.SelectAsWritten` | FilePG.py:220-221 | `fileNameList` as written: no more names than entries, each passing the program's test |
| `Inventory.Select` | FilePG.py:220-221 | `fileNameList` with the corrected test: no more names than entries, each passing the corrected test |
| `Inventory.SelectByMembership` | FilePG.py:220-221 | a name is selected iff some regular-file entry carries it and it passes the test |
| `Inventory.SelectByAppend` | FilePG.py:220-221 | selection keeps listing order: selecting from `a + b` is selecting from `a`, then from `b` |
| `Inventory.AsWrittenExamples` | FilePG.py:220-221 | `x.zip` and `xzip` pass the program's test, `x.7z` fails it, and a file named exactly `7z` passes |
| `Inventory.SevenZipNeverSelectedAsWritten` | FilePG.py:220-221 | the program's test rejects every name longer than two characters that ends in `7z` |
| `Inventory.SevenZipSelected` | FilePG.py:220-221 | the corrected test accepts every `.7z` name |
| `Inventory.CorrectionOnlyAddsSevenZip` | FilePG.py:220-221 | the corrected test accepts everything the program's test accepts; the only names it adds are the longer names ending in `7z` |
| `Inventory.SevenZipArchiveMissed` | FilePG.py:220-221 | on a listing with `a.zip`, `b.7z` and a directory `c.zip`, the program selects only `a.zip`; the corrected selection also selects `b.7z` |
| `Prompts.RecoveryChoice` | FilePG.py:269-275 | the recovery prompt runs out of input exactly when no line from the current position on is `q` or `v` |
| `Prompts.RecoveryPrompt` | FilePG.py:269-275 | the first line that is `q` or `v` decides; other lines are ignored; input running out is the only other outcome; the result is `RecoveryChoice` |
| `Prompts.RevealAt` | FilePG.py:285-286 | the reveal loop runs out of input exactly when the last answer was not `v` and no later line is `v`; otherwise reading resumes within the input |
| `Prompts.RevealPrompt` | FilePG.py:285-286 | the loop stops at the first `v` (at once if the last answer was already `v`), and fails only when no `v` is left in the input; the result is `RevealAt` |
| `Outcomes.StatFailure` | FilePG.py:224-226 | the first file whose `stat` fails: every earlier file was measured |
| `Outcomes.GpgFailure` | FilePG.py:258-268 | the first file whose `gpg` fails: every earlier encryption succeeded |
| `Outcomes.RenameStop` | FilePG.py:295-298 | the first rename that does not complete, because input ran out before its line or its `mv` failed; every earlier rename had its line and a successful `mv`; none when every file has its line and its `mv` succeeds |
| `Outcomes.RenameStopAt` | FilePG.py:295-298 | a rename i reached with every earlier `mv` successful, that runs out of input or fails, is the stopping rename; reaching the end of the list means no stop |
| `Outcomes.SplitFailure` | FilePG.py:303-304 | the first encrypted file on which `splitIfShouldSplit` raises: every earlier file was split or left alone successfully |
| `Outcomes.RenameOutcome` | FilePG.py:294-299 | when renaming does not end the run, every file had its line of input |
| `Outcomes.RecoveryOutcome` | FilePG.py:269-275 | after `gpg` failed on file `failed`, the run ends quitting, showing keys, or running out of input, and runs out of input exactly when no later line is "q" or "v"; the keys of files 0..failed-1 are shown when it shows keys, and nothing otherwise |
| `Outcomes.SplitOutcome` | FilePG.py:302-307 | the commands start with the `mv` commands given; splitting ends `Finished` exactly when no file raises, and otherwise raises a command failure on a file where `splitIfShouldSplit` raises |
| `Outcomes.LaterOutcome` | FilePG.py:291-307 | a rename failure or running out of input happens only on the answer "r", and running out of input only when fewer lines are left than there are files |
| `Outcomes.RevealOutcome` | FilePG.py:285-307 | if neither the last line read nor any later line is "v", the run runs out of input with nothing run and no key shown; otherwise the keys of every file are shown, in list order |
| `Outcomes.BatchOutcome` | FilePG.py:255-307 | after a `gpg` failure on file f the run ends quitting, showing keys or running out of input at that failure; without one it never ends at the recovery prompt |
| `Outcomes.RunOutcome` | FilePG.py:196-307 | the run ends `Unsupported` exactly when validation fails; a command runs or a key is shown only when some file was selected and the first input line is "y" |
| `Outcomes.SplitTraceFacts` | FilePG.py:303-307 | the split stage runs only `split` and `rm`; every command succeeds when no file raises; nothing runs when every file is within the limit |
| `Outcomes.SplitFailureIsLast` | FilePG.py:303-307 | when file i is the first to raise, the split stage ends with its failed command and no other command failed |
| `Outcomes.SplitAfterRename` | FilePG.py:294-307 | successful renames followed by the split stage keep the stage order, with the `mv` commands moving the files in list order |
| `Outcomes.SplitOutcomeFacts` | FilePG.py:302-307 | after a successful rename stage, splitting ends `Finished` with every command successful or raises a command failure as its last command; with every file within the limit it adds nothing |
| `Outcomes.RenameOutcomeFacts` | FilePG.py:294-299 | renaming runs only `mv` commands moving the files in list order; if it completes, one successful `mv` per file; running out of input comes after successful `mv`s only; a rename failure is at a file whose `mv` failed |
| `Outcomes.MvExecsFacts` | FilePG.py:294-299 | the first m renames are `mv` commands moving file k to input line k, in list order; the first `ok` of them succeed, so only the last can fail |
| `Outcomes.LaterOutcomeFacts` | FilePG.py:291-307 | the stages after the reveal run renames first, then splits; a failure only at the end; the run ends by running out of input, a rename failure, a split failure or finishing; with every file within the limit only `mv` runs; without `r` no `mv` runs |
| `Outcomes.ComposeTrace` | FilePG.py:258-307 | the encryption stage followed by the later stages gives a trace in stage order, where only the last command can have failed, and the k-th `gpg` encrypts the k-th file |
| `Outcomes.RevealOutcomeFacts` | FilePG.py:285-307 | once all files are encrypted, no `mv`, `split` or `rm` runs before every key was shown, however the run ends, including input running out during renaming; the keys are shown in list order, one line per file; the run ends with nothing shown or run only when input runs out |
| `Outcomes.GpgFailedFacts` | FilePG.py:258-275 | after a `gpg` failure on file f, exactly f + 1 `gpg` commands ran, the last one failed, and at most the keys of the files before f are shown |
| `Outcomes.BatchOutcomeFacts` | FilePG.py:255-307 | a confirmed batch: no command after a failed one; stages never go back; the k-th `gpg` encrypts the k-th file with the k-th draw; nothing else runs until all are encrypted; encryption stops right after the first `gpg` failure; every `mv`, `split` and `rm` comes after every key was shown; files within the limit are never split |
| `Outcomes.RunOutcomeFacts` | FilePG.py:196-307 | the run ends `Unsupported` with the validation status iff that status is non-zero; ends at a failed `stat` iff validation passed and some `stat` failed; ends with no files iff there is nothing to encrypt; no `gpg` encryption, `mv`, `split` or `rm` runs and no key is shown before confirmation; after confirmation the batch properties hold |
| `Pipeline.CreateObjects` | FilePG.py:224-226 | one fresh, distinct, unencrypted object per selected name, with its `stat` size; stops exactly at `StatFailure` |
| `Pipeline.EncryptAll` | FilePG.py:258-281 | stops exactly at `GpgFailure`; the k-th command encrypts the k-th file with the k-th draw; exactly the files before the failure are encrypted, under their drawn keys; the failing file holds its drawn key; later files keep their keys |
| `Pipeline.RenameAll` | FilePG.py:294-299 | the k-th `mv` renames file k to input line k plus `EXT`; each object's new name is its input line iff its `mv` ran and succeeded, else its old name; where it stops is `RenameOutcome`; encryption state and keys are unchanged |
| `Pipeline.SplitAll` | FilePG.py:302-307 | raises at the first object on which `splitIfShouldSplit` raises, with "not encrypted" iff that object is unencrypted; the commands are the split commands of each encrypted object up to that one, in list order |
| `Pipeline.SplitAllConsequences` | FilePG.py:302-307 | the split loop's commands are only `split` and `rm`, only the last may fail, and none run when every file is within the limit |
| `Pipeline.ObjSplitTraceFacts` | FilePG.py:303-307 | the split commands of the objects are only `split` and `rm`; all succeed when none raises; none run when every object is within the limit |
| `Pipeline.ObjSplitTraceMatches` | FilePG.py:302-307 | on encrypted objects built from the script, the loop's commands are those `SplitTrace` gives for the current names |
| `Pipeline.ShowAllKeys` | FilePG.py:288 | once every file is encrypted, keyPrinter shows one line per file, in list order, naming the file and its drawn passphrase |
| `Pipeline.AfterGpgFailure` | FilePG.py:265-275 | the outcome is `RecoveryOutcome`: quitting, running out of input, or showing exactly the keys of files 0..i-1 |
| `Pipeline.RenameStage` | FilePG.py:291-299 | the outcome is `RenameOutcome` on the answer `r` and nothing otherwise; when the run goes on, every object carries its input line as its name; encryption state and keys are unchanged |
| `Pipeline.SplitStage` | FilePG.py:302-307 | the outcome is `SplitOutcome` for the current names: splitting encrypted objects ends `Finished` or raises a command failure, and adds nothing when every file is within the limit |
| `Pipeline.RenameThenSplit` | FilePG.py:291-307 | the outcome is `LaterOutcome`, with the properties `LaterOutcomeFacts` proves; every object stays encrypted under its key; when the run goes on, each object carries its input line as its name on `r`, and its old name otherwise |
| `Pipeline.RenameThenSplitSteps` | FilePG.py:291-307 | the statements of `RenameThenSplit`: the outcome is `LaterOutcome`; keys and encryption are unchanged; when the run goes on, every object carries its current name |
| `Pipeline.AfterEncryption` | FilePG.py:285-307 | the outcome is `RevealOutcome`, with the properties `RevealOutcomeFacts` proves; every object stays encrypted under its drawn key |
| `Pipeline.RevealThenLater` | FilePG.py:285-307 | the statements of `AfterEncryption`: the outcome is `RevealOutcome`; every object stays encrypted under its drawn key |
| `Pipeline.LaterFromStage` | FilePG.py:291-307 | once the keys were shown, the outcome is `LaterFrom`: the run ends out of input when no line is left, and is `LaterOutcome` on the next line otherwise; keys and encryption are unchanged |
| `Pipeline.ProcessBatch` | FilePG.py:255-307 | the outcome is `BatchOutcome`, with the properties `BatchOutcomeFacts` proves; afterwards exactly the files before the first `gpg` failure are encrypted, each under its drawn key |
| `Pipeline.Launch` | FilePG.py:198-307 | the outcome is `RunOutcome` for the selected names, with the properties `RunOutcomeFacts` proves |
| `Pipeline.Run` | FilePG.py:196-307 | the whole script on a directory listing with the selection as written: the outcome is `RunOutcome` for `SelectAsWritten`, with the properties `RunOutcomeFacts` proves |
| `Pipeline.RunCorrected` | FilePG.py:196-307 | the same script with the corrected selection: the outcome is `RunOutcome` for `Select`, with the same properties |

## Findings

| source | as written | input that shows it | evidently intended | confidence | as-written member | corrected member |
|---|---|---|---|---|---|---|
| FilePG.py:220-221 | `fi[-3:] in ["zip", "7z"]` compares the last three characters with the two-character `"7z"` | `b.7z`: its last three characters are `.7z`, so it is never selected; only a file named exactly `7z` matches | select 7-Zip archives as well as zip archives, i.e. names ending in a detected type | high (follows from the text; not executed) | `Inventory.SevenZipNeverSelectedAsWritten` | `Inventory.CorrectionOnlyAddsSevenZip` |

`Inventory.SelectAsWritten` is the comprehension as written, and `Pipeline.Run`
selects its files with it. `Inventory.Select` is the corrected one, and
`Pipeline.RunCorrected` runs the same script on its selection. The correction
tests that the name ends with the type. So names such as `xzip`,
which the program accepts, stay accepted (`CorrectionOnlyAddsSevenZip`).

## Left out

- The commands `gpg`, `stat`, `split`, `rm` and `mv` themselves: each is only a success or failure outcome, plus a byte count for `stat`. The parsing of `stat`'s quoted output (`[1:-1]`, `int`) is not modelled.
- `secrets.choice`: its cryptographic randomness cannot be verified. The indices it drew are an input, and every property holds for every draw.
- `getSize`, `getEncryptionSpeed`, `totalFileSize` and the free-space warning (FilePG.py:105-110, 124-129, 155-164, 233-240): these are floating-point rounding, and the warning only prints. The call `statvfs("./")` at FilePG.py:233 is not modelled: the model assumes it succeeds. If it failed, its uncaught `OSError` would end the run after the objects are built and before the confirmation prompt, with nothing encrypted.
- Timing (`time()`), every printed message, and the message chosen for each validation status (FilePG.py:200-218). These are output only; the model keeps the status and how the run ends.
- `sys.platform` detection and the order of `listdir`: both are inputs.
- `run(["gpg", "--version"])` raising `FileNotFoundError` when `gpg` is not installed: this exception is not caught, so the script crashes before validation can finish. The model only sees an exit status.
- The compression level `COMP` and the cipher and digest options passed to `gpg`: these are constants that only reach the external tool, so `Gpg` records only the passphrase and the file names.
- `Pipeline.Run`: its trace lists the `gpg` encryptions, `mv`, `split` and `rm` commands only. The `stat` of each file and `gpg --version`, which run before confirmation, are inputs (the `stat` outcome in each `FileScript`, the `Env` of validation) rather than trace entries.
- `FileObj.Display` (`__str__`): the current name; it is used by `KeyLines` and has no contract of its own.
