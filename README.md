# Specimen image renamer: the renaming engine in Dafny

This project models the renaming engine of a tool for digitised museum specimens.
The tool decodes a data-matrix or barcode symbol in each image, turns the decoded text
into a specimen name, and appends a view suffix: `_D` (dorsal), `_V` (ventral),
`_MANUAL`, or `_L` (lateral). It renames the image, together with its raw `.CR2`
companion, under that name. It keeps a record of every rename, and the record can
later be undone or written to a log.

The repository has three versions of this engine. The project models all three:

- **dm_reader.py**:
  - an optional range table of image numbers, each range tagged with a genus and a
    specific epithet;
  - barcode-first decoding, with the data-matrix reader as fallback;
  - per-id occurrence counting;
  - a `.CR2` companion rename;
  - `Undo`, `Log`, and a recursive, post-order directory walk.
- **dm_only.py**: the same engine with the data-matrix reader only, no range table,
  and a narrower lateral test.
- **src/lib.rs**: a rewrite. It has:
  - `convert_decoded_to_name`, which keeps the decoded text from the leftmost match
    of `(.*?)MGCL\s?[0-9]{7,8}` and tidies it;
  - `run`, which picks the suffix from a map of proper name to the paths seen under
    that name, and keeps an edits map keyed by old path plus a list of failures;
  - `rename_all`, which renames every sibling file that shares the image's stem.

Modules:

| file | module | contents |
|---|---|---|
| wrappers.dfy | `Wrappers` | `Option`, `Result` |
| text.dfy | `Text` | `str.replace` style `Replace`, `split`, `join`, `lower`, digit filters, trimming with a white-space predicate |
| range_table.dfy | `RangeTable` | `Bound`, `should_contain`, the digit-only bound parse, duplicate-marker removal, the first-containing-bound loop |
| naming.dfy | `Naming` | cleaning of decoder text, the specimen id, the taxon suffix, the lateral test, the occurrence counter |
| filesystem.dfy | `FileSystem` | the file system as a map from path to entry, `os.rename`, a batch of renames, undo |
| log_file.dfy | `LogFile` | the dated log name, the collision-free choice of log file, the log text |
| engine.dfy | `Engine` | listings, the per-image step of `ProcessData`, the walk of `RecursiveProcessData`, and class `Session` holding the run state (`occurrences`, `old_new_paths`, the file system) with `ProcessData`, `RecursiveProcessData`, `Undo` and `Log` |
| decoded_name.dfy | `DecodedName` | the regular-expression match start of `convert_decoded_to_name`, the tidy-up, the decoders' empty-output rule |
| batch_run.dfy | `BatchRun` | `Path` operations, `rename_all`, and the loop of `run` |

The Python scripts fail with an uncaught exception in some cases. The model turns
each of these into a `Fault` that ends the run with the state reached so far:

- a file name without a `.`;
- a range-filtered name without digits;
- an unparsable id;
- a failed `os.rename`.

The decoders and the directory listings are parameters, modelled as functions from a
path to a string and from a directory to its sorted entry names. In src/lib.rs the
listing also takes the current file system, because `glob` reads the directory at
each call.

In these places the model follows the code as written:

- The code never checks that the first `_` token of the decoded text is `MGCL`. It
  only requires `MGCL` somewhere in the decoder output, then reads the id from the
  second token (`Naming.ScannedIdOfToken`).
- The lateral branch discards the results of `replace("lat", "")` and
  `replace("eral", "")`. A lateral name therefore keeps its text and only gains `_L`.
- In dm_reader.py the lateral test runs on the name after the taxon was appended,
  and it also matches `_l`.
- A failing `os.rename` ends the Python run (the `OSError` is not caught). It does
  not skip to the next image.
- `Undo` renames the pairs back in record order.
- `run` in src/lib.rs renames even when `convert_decoded_to_name` returns `""` (no
  `MGCL` pattern). The siblings are then renamed to `_D`, `_V`, `_MANUAL` with an
  empty stem.

## Model

| member | source | states |
|---|---|---|
| RangeTable.ShouldContain | dm_reader.py:23-27 | the bound holds `num` exactly when `lower <= num <= upper` |
| RangeTable.RowToBound | dm_reader.py:325-331 | a row yields a bound exactly when both `ImageStart` and `ImageStop` hold a digit; its bounds are their digit values and the taxon is carried over |
| RangeTable.BoundValueDefined | dm_reader.py:326-327 | the digit-only parse fails (Python's `int('')`) exactly when the token holds no digit |
| RangeTable.BoundValueIgnoresSeparator | dm_reader.py:326-327 | a non-digit character anywhere in the token does not change the value |
| RangeTable.BoundValueOfNumber | dm_reader.py:326-327 | a printed number parses back as itself |
| RangeTable.StripWithoutParen | dm_reader.py:136 | removing `(\d+)` markers leaves text without `(` unchanged |
| RangeTable.StripLeadingMarker | dm_reader.py:136 | a leading `(digits)` marker is removed and scanning continues after it |
| RangeTable.ImageNumberIgnoresMarker | dm_reader.py:136-137 | `<number>(<n>)<ext>` is looked up by `<number>` alone: the duplicate marker's digits do not join the number |
| RangeTable.FirstContaining | dm_reader.py:140-149 | the result is the index of the first bound, in table order, that contains the number; None exactly when no bound does |
| RangeTable.SelectBound | dm_reader.py:139-152 | the inner loop skips exactly when the table is non-empty and no bound contains the number; otherwise the taxon is that first bound |
| Naming.CleanLeavesNoSpaceOrQuote | dm_reader.py:167-169 | after cleaning, the name has no space and no `'` |
| Naming.CleanIdempotent | dm_reader.py:167-169 | the second cleaning pass changes nothing (the same holds for dm_only.py:119-121) |
| Naming.PyIntAccepts | dm_reader.py:172 | `int(token)` succeeds exactly when the stripped token is one or more ASCII digits, optionally after `+` or `-`, and then gives their value, negated after `-` |
| Naming.PyIntOfDigits | dm_reader.py:172 | a bare run of ASCII digits reads as its decimal value |
| Naming.PyIntSigned | dm_reader.py:172 | a run of ASCII digits after `-` reads as minus its value, after `+` as its value |
| Naming.PyIntOfNumber | dm_reader.py:172 | `int` reads back any natural number printed in decimal |
| Naming.ScannedIdOfToken | dm_reader.py:172 | text `<code>_<digits>` followed by nothing or by `_...` gives the digits' value as the id, whatever `<code>` is |
| Naming.LateralTests | dm_reader.py:177 | `lateral` is subsumed by `lat`: dm_reader.py's test reduces to `lat` or `_l` in the lower-cased name; dm_only.py's test (dm_only.py:126) reduces to `lat` and implies dm_reader.py's |
| Naming.DesignateLateral | dm_reader.py:177-181 | a lateral name becomes exactly name + `_L`, and `occurrences` is unchanged |
| Naming.DesignateCounts | dm_reader.py:183-196 | a non-lateral id's count becomes old + 1 (1 when absent); the suffix is `_D`, `_V` or `_MANUAL` for 1, 2, 3 or more; every other key is unchanged (same in dm_only.py:132-145) |
| Naming.DorsalVentralManual | dm_reader.py:184-196 | four non-lateral images of a new id get `_D`, `_V`, `_MANUAL`, `_MANUAL`, and the count ends at 4 |
| FileSystem.Rename | dm_reader.py:200 | `os.rename` succeeds exactly when the source is a file and the target is not a directory |
| FileSystem.RenameEffect | dm_reader.py:200 | after a rename, the target holds the moved file, the source is gone, and every other path is unchanged |
| FileSystem.ApplyConcat | dm_reader.py:232-233 | applying two batches of renames in turn is the same as applying their concatenation |
| FileSystem.ApplyKeepsDirs | dm_reader.py:99-102 | renaming files never changes the set of directories the walk lists |
| FileSystem.UndoRestores | dm_only.py:178-184 | on a record whose paths are all distinct and which overwrote nothing, renaming each new path back to its old path (each pair swapped, in record order) succeeds and restores the file system the run started from |
| LogFile.CandidateInjective | dm_reader.py:57-66 | different attempts of the loop try different file names |
| LogFile.ChooseLogName | dm_reader.py:55-66 | the chosen name is `base.csv` or `base_N.csv`, does not exist, and every earlier candidate exists (it is the first free one); dm_only.py:38-49 is the same loop |
| Engine.FilesSelects | dm_only.py:66-72 | a listed name is kept exactly when it is a file whose second `.` segment is in `valid_imgs` (`CR2` for `GetCR2s`) |
| Engine.FilesFails | dm_reader.py:83-88 | the listing raises exactly when some listed file has no `.` |
| Engine.ListFiles | dm_reader.py:91-96 | the loop of `GetImages` / `GetCR2s` returns the listing function's result, including its `IndexError` |
| Engine.Subdirs | dm_reader.py:75-80 | `GetDirs` keeps only listed names that are directories |
| Engine.SubdirsComplete | dm_reader.py:75-80 | `GetDirs` keeps every listed name that is a directory |
| Engine.GetDirs | dm_only.py:58-63 | the loop returns the listed directories in listing order |
| Engine.Decode | dm_reader.py:158-164 | decoder text is used only if it contains `MGCL` |
| Engine.DecodeReaderOrder | dm_reader.py:158-164 | dm_reader.py uses the barcode text when it holds `MGCL`, otherwise the data matrix text when that does, and finds nothing exactly when neither does |
| Engine.DecodeMatrixOnly | dm_only.py:112-116 | dm_only.py decodes only the data matrix, and finds text exactly when it contains `MGCL` |
| Engine.RangeFilterSkips | dm_reader.py:134-152 | with a non-empty table, an image whose number no bound contains is skipped, with no rename, no record entry and no counter change; a contained image with an extension and a symbol is not skipped |
| Engine.TaxonFromFirstBound | dm_reader.py:140-175 | genus and species come from the first containing bound in table order, appended after the cleaned text |
| Engine.NoSymbolSkips | dm_only.py:112-116 | an image whose decoder text lacks `MGCL` leaves the file system, the record and the counter unchanged |
| Engine.RecordEntries | dm_reader.py:199-209 | a renamed image appends exactly `(path+image, path+name+ext)`, then, when `stem.CR2` was listed, `(path+stem+'.CR2', path+name.split('.')[0]+'.CR2')` |
| Engine.StepReplays | dm_reader.py:199-209 | a step only appends to the record, and replaying the appended pairs on the old file system gives the new one |
| Engine.ImagesReplay | dm_reader.py:133-209 | the image loop only appends renames that replay from the starting file system to the final one |
| Engine.ImagesFaultPersists | dm_reader.py:133-209 | after an uncaught exception, later images change nothing |
| Engine.WalkIsPostOrder | dm_reader.py:99-102 | `ProcessData(path)` runs last, after every directory below `path` |
| Engine.WalkAllBelow | dm_reader.py:100-101 | every directory the subdirectory loop visits lies below `path` |
| Engine.WalkVisitsSubdirs | dm_reader.py:99-102 | every directory that `GetDirs(path)` lists is visited by the walk |
| Engine.WalkAllVisits | dm_reader.py:100-101 | the subdirectory loop visits each directory among its subdirectories |
| Engine.WalkRunConcat | dm_reader.py:99-102 | running the walk over two orders in turn is running it over their concatenation, and a fault in the first ends it |
| Engine.WalkAllFaultPersists | dm_reader.py:100-101 | once a subdirectory's walk raised, the later subdirectories change nothing |
| Engine.DirReplays | dm_reader.py:123-209 | `ProcessData` only appends to the record, and the appended renames replay from its starting file system to its final one |
| Engine.WalkRunReplays | dm_reader.py:99-102 | the whole walk only appends to the record, and the appended renames replay from the starting file system to the final one |
| Engine.Session.constructor | dm_reader.py:11-12 | a run starts with empty `occurrences` and an empty record |
| Engine.Session.ProcessImage | dm_reader.py:133-209 | one loop iteration, statement by statement, produces exactly the step function's new state and exception |
| Engine.Session.ReadSymbol | dm_reader.py:158-164 | text is found exactly when a reader's output contains `MGCL`, and it is that output |
| Engine.Session.Designation | dm_reader.py:177-196 | the lateral test and the counter update give exactly `Designate`'s name and counter |
| Engine.Session.Move | dm_reader.py:199-209 | renames the image, then its companion, recording each pair once done; keeps the record replayable from the initial file system |
| Engine.Session.ProcessData | dm_only.py:100-158 | lists the raw files and images, then processes the images in listing order until the first uncaught exception; the new state and exception are `ProcessDir`'s; appends `path` to the directories worked; dm_only.py's version takes no range table |
| Engine.Session.ProcessImageList | dm_only.py:107-158 | the image loop gives exactly the state and exception of `ProcessImages` |
| Engine.Session.RecursiveProcessData | dm_reader.py:99-102 | the new state and exception are those of `WalkRun` over the post-order `Walk`: `ProcessData` with no range table on each directory in turn until the first exception; without one, the directories worked are exactly the `Walk` |
| Engine.Session.ProcessSubdirs | dm_only.py:84-85 | the subdirectory loop gives the state and exception of `WalkRun` over the walks of the subdirectories in listing order |
| Engine.Session.Undo | dm_reader.py:229-235 | renames each new path back in record order, stopping at the first failure; on a disjoint record that overwrote nothing it restores the initial file system |
| Engine.Session.Log | dm_reader.py:49-71 | writes the header and one `old,new` line per pair to the first free candidate name, overwriting nothing |
| DecodedName.FirstPatternFrom | src/lib.rs:65 | the first index at which `MGCL\s?[0-9]{7}` matches |
| DecodedName.LineStart | src/lib.rs:65 | the start of the line holding an index (`.` excludes `\n`) |
| DecodedName.MatchStartIsLeftmost | src/lib.rs:65-78 | the match start is the leftmost position from which the regular expression matches; there is none exactly when it never matches |
| DecodedName.KeepsFromLeftmostMatch | src/lib.rs:73-78 | the text before the leftmost match start is dropped, and only the rest is tidied |
| DecodedName.TidyEmpty | src/lib.rs:69 | without a match the tidied result is `""` |
| DecodedName.EmptyWithoutMatch | src/lib.rs:65-91 | the name is `""` exactly when the pattern does not occur |
| DecodedName.NoNewlineOrSpace | src/lib.rs:87-91 | the name never contains `\n` or a space |
| DecodedName.DecoderOutput | src/lib.rs:114-117 | the output of `dmtxread` (and of `zbarimg`, src/lib.rs:133-136) is returned as read, and an empty output remains the "nothing decoded" value |
| BatchRun.LastIndex | src/lib.rs:188-189 | the index of the last occurrence of a character, or None when it is absent |
| BatchRun.JoinPathParts | src/lib.rs:208-209 | a relative name joined to a directory is read back by `file_name` and `parent` |
| BatchRun.NewPathAbsolute | src/lib.rs:208-209 | a new name starting with `/` is absolute, and `Path::join` then drops the parent directory |
| BatchRun.StemAndExtension | src/lib.rs:205 | `stem.ext` with a non-empty stem and a dot-free extension splits back into the two |
| BatchRun.SiblingsMatch | src/lib.rs:191-195 | the glob yields only entries of the parent directory whose names are the stem, a `.` and more |
| BatchRun.SiblingsComplete | src/lib.rs:191-195 | the glob yields every listed entry of the parent directory whose name is the stem, a `.` and more |
| BatchRun.MatchedComplete | src/lib.rs:191-195 | the glob reads the directory as it is at the call: when the listing names every entry of the current file system's parent directory, every `stem.*` entry is matched, including one an earlier rename of the run created |
| BatchRun.MatchedNames | src/lib.rs:205 | every sibling has an extension, so `extension().unwrap()` never fails |
| BatchRun.RenameEditsAt | src/lib.rs:204-214 | edit `i` moves sibling `i` to the new name with that sibling's own extension |
| BatchRun.RenameAll | src/lib.rs:186-216 | exactly one edit per matched sibling, in glob order, pushed whether or not its rename succeeded |
| BatchRun.RenameAllKeepsExtension | src/lib.rs:186-216 | each edit keeps the directory, replaces the stem with the new name and keeps the file's extension |
| BatchRun.BarcodeOnlyAsFallback | src/lib.rs:243-265 | `zbarimg` is consulted only when barcodes are included and `dmtxread` gave nothing |
| BatchRun.FailureOnlyRecorded | src/lib.rs:245-264 | an undecodable path is pushed to `failures`; `specimen`, `edits` and the file system are unchanged |
| BatchRun.SuffixForNext | src/lib.rs:269-297 | on reachable states the suffix is `_D`, `_V` or `_MANUAL` for the 1st, 2nd, 3rd or later success |
| BatchRun.InsertAllLastWins | src/lib.rs:280-282 | `edits` holds a key exactly when it was present or inserted; the last insert for a key wins; other keys are unchanged |
| BatchRun.InsertEdits | src/lib.rs:292-294 | the insertion loop gives exactly the inserted map |
| BatchRun.RunAllSpecimen | src/lib.rs:239-298 | the `specimen` map depends only on the decoders, not on the renames |
| BatchRun.RunSpecimen | src/lib.rs:269-297 | `specimen[name]` lists exactly the successful paths for `name`, in order; a name is a key exactly once it has a success |
| BatchRun.SuffixOfNextSuccess | src/lib.rs:269-297 | the next success of a name gets `_D` if it is the first, `_V` if the second, `_MANUAL` after that |
| BatchRun.RunFailures | src/lib.rs:255-263 | `failures` lists exactly the undecodable paths, in order |
| BatchRun.Failed | src/lib.rs:257-262 | there are never more failures than collected files |
| BatchRun.RecordSuccess | src/lib.rs:267-297 | the success branch gives exactly the step function's state: renamed siblings, inserted edits, the path appended under its name |
| BatchRun.Run | src/lib.rs:229-330 | returns the number of collected files whatever failed, with `failures` no longer than that; its final state is the run function's |

## Left out

- Decoders: `DMRead`, `BarcodeRead`, `dmtxread` and `zbarimg` run subprocesses or
  image libraries. They are parameters (functions from path to text). Only the
  `MGCL` check and the empty-output rule are modelled.
- Interaction: prompts, the usage text, `Wait`, `get_existing_path`, `file_prompt`,
  `getrange`, `main` and `sys.exit`, the CLI wiring of src/main.rs, and all printed
  output (including the failure rate of src/lib.rs:327) are user interaction or
  reporting.
  - The choice between undo and log is left to the caller of `Undo` and `Log`.
  - The trailing-separator check of `main` is always true, so `/` is always
    appended. Paths passed to the model end in `/`.
- Real file-system calls and time:
  - Directory listings (`sorted(os.listdir)`) and glob results are given sequences.
  - The date in the log name is a parameter.
  - `Instant`, `time.sleep` and the chrono timestamp are not modelled.
- src/lib.rs's CSV log and `collect`:
  - The CSV log iterates a `HashMap` in unspecified order, and the writer is a
    library call.
  - `collect` and `sanity_checks` are glob and file-system calls. The model takes
    their output as a sequence of paths with non-empty file names, in the order
    given (`BatchRun.Collected`).
- Text in the Python versions:
  - `str.isdigit`, `int()`, the `\d` of Python's `re` and `str.lower` are modelled
    on ASCII digits and letters; Python also accepts other Unicode digits and
    cases.
  - `str(bytes)` artefacts such as `b'` arrive inside the decoder text, which is an
    opaque input.
- `rename_all`:
  - Its glob pattern is modelled as the listing of the parent directory in the
    current file system, filtered by the prefix `stem.`. Glob metacharacters in a
    stem, and paths that need normalising, are not modelled.
  - `std::fs::rename` may also move a directory or overwrite an empty one; the
    model renames files only, and lets any other rename fail.
- Engine.Walk: a Python directory listing depends on the path alone. Each
  directory is listed once, when its `ProcessData` starts, and its renames stay
  inside it, so only a decoded name holding `/` could make a later listing differ.
- FileSystem.Rename: does not fail when the target's parent directory is missing
  (a decoded name holding `/`), because the file system is a flat map of paths
  whose directories are entries of their own; `os.rename` and `std::fs::rename`
  would raise there.
- BatchRun.ExtensionOf: the `None` branch is never taken for a matched sibling
  (`BatchRun.MatchedNames`). It exists only so that the edits can be defined without
  a precondition.
- Engine.WalkAll: a subdirectory name that is no longer a directory adds nothing to
  the walk. This guard never applies to names that `GetDirs` returned.
- Engine.Session.RecursiveProcessData: when a fault ends the walk, the new file
  system, counter, record and exception are stated (`Engine.WalkRun`), but not
  the list of directories worked before the fault.
- Engine.Session.Undo: when a rename fails part way, the contract gives the state and
  the fault but no restoration property.
- Concurrency, file permissions and symbolic links are not modelled; the file system
  is a map from path to entry.
