/**
 * `run` and `rename_all` of src/lib.rs: for every collected image, decode,
 * derive the proper name, pick `_D` / `_V` / `_MANUAL` from the paths already
 * seen under that name, rename every sibling sharing the image's stem, and
 * keep the edits (keyed by old path) and the failures.
 */
module BatchRun {
  import opened Wrappers
  import opened Text
  import opened Naming
  import opened FileSystem
  import opened DecodedName

  // ---------------------------------------------------------------------
  // Paths, with `/` as the separator

  /** The last index of `c` in `s`. */
  function LastIndex(s: string, c: char): (r: Option<nat>)
    ensures r.Some? ==> r.value < |s| && s[r.value] == c && forall k :: r.value < k < |s| ==> s[k] != c
    ensures r.None? ==> c !in s
    decreases |s|
  {
    if s == [] then None
    else if s[|s| - 1] == c then Some(|s| - 1)
    else
      assert s == s[..|s| - 1] + [s[|s| - 1]];
      LastIndex(s[..|s| - 1], c)
  }

  /** `Path::file_name`. */
  function FileName(p: string): string {
    match LastIndex(p, '/')
    case None => p
    case Some(k) => p[k + 1..]
  }

  /** `Path::parent`: everything before the last `/`, or `/` itself for an entry of the root. */
  function Parent(p: string): string {
    match LastIndex(p, '/')
    case None => ""
    case Some(k) => if k == 0 then "/" else p[..k]
  }

  /** `Path::join` of a directory and one file name; an absolute name replaces the directory. */
  function JoinPath(dir: string, name: string): string {
    if dir == "" || (name != [] && name[0] == '/') then name
    else if dir[|dir| - 1] == '/' then dir + name
    else dir + "/" + name
  }

  /** `Path::file_stem` of a file name: before the last `.`, unless that dot starts the name. */
  function FileStem(name: string): string {
    match LastIndex(name, '.')
    case None => name
    case Some(k) => if k > 0 then name[..k] else name
  }

  /** `Path::extension` of a file name: after the last `.`, unless that dot starts the name. */
  function Extension(name: string): Option<string> {
    match LastIndex(name, '.')
    case None => None
    case Some(k) => if k > 0 then Some(name[k + 1..]) else None
  }

  /** A directory as `Path::parent` leaves it: no trailing `/` except for the root. */
  predicate NormalDir(dir: string) {
    dir == "" || dir == "/" || dir[|dir| - 1] != '/'
  }

  lemma LastIndexAt(a: string, c: char, b: string)
    requires c !in b
    ensures LastIndex(a + [c] + b, c) == Some(|a|)
  {
    var s := a + [c] + b;
    assert s[|a|] == c;
    assert forall j :: |a| < j < |s| ==> s[j] == b[j - |a| - 1];
  }

  /** A file name joined to a directory is read back by `file_name` and `parent`. */
  lemma {:induction false} JoinPathParts(dir: string, name: string)
    requires '/' !in name && NormalDir(dir)
    ensures FileName(JoinPath(dir, name)) == name
    ensures Parent(JoinPath(dir, name)) == dir
  {
    assert name == [] || name[0] != '/' by {
      if name != [] {
        assert name[0] in name;
      }
    }
    if dir == "" {
    } else if dir[|dir| - 1] == '/' {
      var d := dir[..|dir| - 1];
      assert dir == d + ['/'] && d == [];
      LastIndexAt(d, '/', name);
      assert JoinPath(dir, name) == d + ['/'] + name;
    } else {
      LastIndexAt(dir, '/', name);
      assert JoinPath(dir, name) == dir + ['/'] + name;
      assert (dir + ['/'] + name)[..|dir|] == dir;
    }
  }

  /** A name without `/` and with a non-empty part before its last `.` splits into stem and extension. */
  lemma StemAndExtension(stem: string, ext: string)
    requires stem != [] && '.' !in ext
    ensures FileStem(stem + "." + ext) == stem && Extension(stem + "." + ext) == Some(ext)
  {
    LastIndexAt(stem, '.', ext);
    assert (stem + ['.'] + ext)[..|stem|] == stem;
    assert (stem + ['.'] + ext)[|stem| + 1..] == ext;
    assert stem + "." + ext == stem + ['.'] + ext;
  }

  lemma StemNonEmpty(name: string)
    requires name != []
    ensures FileStem(name) != []
  {
  }

  /** An extension is a tail of the name after its last dot. */
  lemma ExtensionHasNoDot(name: string)
    requires Extension(name).Some?
    ensures '.' !in Extension(name).value
    ensures '/' !in name ==> '/' !in Extension(name).value
  {
    var k := LastIndex(name, '.').value;
    var ext := name[k + 1..];
    assert Extension(name).value == ext;
    assert forall j :: 0 <= j < |ext| ==> ext[j] == name[k + 1 + j];
  }

  /** A name that starts with a non-empty stem and a dot has an extension. */
  lemma MatchedHasExtension(stem: string, name: string)
    requires stem != [] && IsPrefix(stem + ".", name)
    ensures Extension(name).Some?
  {
    assert name[|stem|] == '.';
    var k := LastIndex(name, '.').value;
    assert k >= |stem|;
  }

  // ---------------------------------------------------------------------
  // rename_all

  /**
   * `glob("{parent}/{stem}.*")`: the entries of `parent`, in listing order,
   * whose name is the stem, a dot and anything.
   */
  function Siblings(fs: Fs, names: seq<string>, parent: string, stem: string): seq<string>
    decreases |names|
  {
    if names == [] then []
    else
      var r := Siblings(fs, names[..|names| - 1], parent, stem);
      var n := names[|names| - 1];
      if IsPrefix(stem + ".", n) && '/' !in n && JoinPath(parent, n) in fs then r + [n] else r
  }

  /** Every sibling the glob yields is an entry of `parent` named by the stem, a dot and more. */
  lemma {:induction false} SiblingsMatch(fs: Fs, names: seq<string>, parent: string, stem: string)
    ensures forall n :: n in Siblings(fs, names, parent, stem) ==>
      n in names && IsPrefix(stem + ".", n) && '/' !in n && JoinPath(parent, n) in fs
    decreases |names|
  {
    if names != [] {
      SiblingsMatch(fs, names[..|names| - 1], parent, stem);
    }
  }

  /** Conversely, the glob yields every such entry of `parent`. */
  lemma {:induction false} SiblingsComplete(fs: Fs, names: seq<string>, parent: string, stem: string, n: string)
    requires n in names && IsPrefix(stem + ".", n) && '/' !in n && JoinPath(parent, n) in fs
    ensures n in Siblings(fs, names, parent, stem)
    decreases |names|
  {
    var init := names[..|names| - 1];
    assert names == init + [names[|names| - 1]];
    if n != names[|names| - 1] {
      SiblingsComplete(fs, init, parent, stem, n);
    }
  }

  /** The extension `rename_all` keeps; `extension().unwrap()` never fails on a sibling (`MatchedNames`). */
  function ExtensionOf(name: string): string {
    match Extension(name)
    case Some(e) => e
    case None => ""
  }

  /** The new path of a matched sibling: the new name with the sibling's own extension. */
  function NewPath(parent: string, newName: string, name: string): string {
    JoinPath(parent, newName + "." + ExtensionOf(name))
  }

  /** The edits `rename_all` pushes, one per matched sibling, in match order. */
  function RenameEdits(parent: string, newName: string, matched: seq<string>): (r: seq<Pair>)
    ensures |r| == |matched|
    decreases |matched|
  {
    if matched == [] then []
    else
      var n := matched[|matched| - 1];
      RenameEdits(parent, newName, matched[..|matched| - 1]) + [(JoinPath(parent, n), NewPath(parent, newName, n))]
  }

  /** `std::fs::rename` for each edit in order, its failures ignored. */
  function RenameEach(fs: Fs, edits: seq<Pair>): Fs
    decreases |edits|
  {
    if edits == [] then fs
    else
      var before := RenameEach(fs, edits[..|edits| - 1]);
      var e := edits[|edits| - 1];
      match Rename(before, e.0, e.1)
      case None => before
      case Some(after) => after
  }

  /** Edit `i` moves sibling `i` to its new path. */
  lemma {:induction false} RenameEditsAt(parent: string, newName: string, matched: seq<string>, i: nat)
    requires i < |matched|
    ensures RenameEdits(parent, newName, matched)[i] == (JoinPath(parent, matched[i]), NewPath(parent, newName, matched[i]))
    decreases |matched|
  {
    if i < |matched| - 1 {
      RenameEditsAt(parent, newName, matched[..|matched| - 1], i);
    }
  }

  lemma RenameEditsSnoc(parent: string, newName: string, files: seq<string>, i: nat)
    requires i < |files|
    ensures RenameEdits(parent, newName, files[..i + 1])
      == RenameEdits(parent, newName, files[..i]) + [(JoinPath(parent, files[i]), NewPath(parent, newName, files[i]))]
  {
    assert files[..i + 1][..i] == files[..i];
  }

  lemma RenameEachSnoc(fs: Fs, edits: seq<Pair>, e: Pair)
    ensures RenameEach(fs, edits + [e])
      == match Rename(RenameEach(fs, edits), e.0, e.1) case None => RenameEach(fs, edits) case Some(after) => after
  {
    assert (edits + [e])[..|edits|] == edits;
  }

  /** A new name that starts with `/` is absolute: `Path::join` drops the directory. */
  lemma NewPathAbsolute(parent: string, newName: string, name: string)
    requires newName != [] && newName[0] == '/'
    ensures NewPath(parent, newName, name) == newName + "." + ExtensionOf(name)
  {
    assert (newName + "." + ExtensionOf(name))[0] == '/';
  }

  /** The siblings `rename_all` moves for the image at `basePath`. */
  function Matched(fs: Fs, listing: (Fs, string) -> seq<string>, basePath: string): seq<string> {
    var parent := Parent(basePath);
    Siblings(fs, listing(fs, parent), parent, FileStem(FileName(basePath)))
  }

  /** `listing` reads all of directory `parent` of `fs`: it names every entry directly inside it. */
  ghost predicate ListsDirectory(listing: (Fs, string) -> seq<string>, fs: Fs, parent: string) {
    forall n :: '/' !in n && JoinPath(parent, n) in fs ==> n in listing(fs, parent)
  }

  /**
   * The glob reads the directory as it is when `rename_all` is called: every
   * `stem.*` entry of the current file system is matched, including one that
   * an earlier rename of the run created.
   */
  lemma MatchedComplete(fs: Fs, listing: (Fs, string) -> seq<string>, basePath: string, n: string)
    requires ListsDirectory(listing, fs, Parent(basePath))
    requires IsPrefix(FileStem(FileName(basePath)) + ".", n) && '/' !in n && JoinPath(Parent(basePath), n) in fs
    ensures n in Matched(fs, listing, basePath)
  {
    SiblingsComplete(fs, listing(fs, Parent(basePath)), Parent(basePath), FileStem(FileName(basePath)), n);
  }

  /** For an image with a file name, every sibling has an extension and no `/`. */
  lemma MatchedNames(fs: Fs, listing: (Fs, string) -> seq<string>, basePath: string)
    requires FileName(basePath) != ""
    ensures forall n :: n in Matched(fs, listing, basePath) ==> Extension(n).Some? && '/' !in n
  {
    var parent := Parent(basePath);
    var stem := FileStem(FileName(basePath));
    StemNonEmpty(FileName(basePath));
    SiblingsMatch(fs, listing(fs, parent), parent, stem);
    forall n | n in Matched(fs, listing, basePath) ensures Extension(n).Some? {
      MatchedHasExtension(stem, n);
    }
  }

  /**
   * `rename_all(base_path, new_name)`: every sibling `parent/stem.ext` is
   * renamed to `parent/new_name.ext` and the edit is pushed whether or not
   * the rename succeeded.
   */
  method RenameAll(fs: Fs, listing: (Fs, string) -> seq<string>, basePath: string, newName: string)
    returns (edits: seq<Pair>, fs': Fs)
    requires FileName(basePath) != ""
    ensures edits == RenameEdits(Parent(basePath), newName, Matched(fs, listing, basePath))
    ensures fs' == RenameEach(fs, edits)
  {
    var parent := Parent(basePath);
    var files := Matched(fs, listing, basePath);
    MatchedNames(fs, listing, basePath);
    edits := [];
    fs' := fs;
    for i := 0 to |files|
      invariant edits == RenameEdits(parent, newName, files[..i])
      invariant fs' == RenameEach(fs, edits)
    {
      assert files[i] in files;
      var ext := Extension(files[i]).value;
      var oldPath := JoinPath(parent, files[i]);
      var newPath := JoinPath(parent, newName + "." + ext);
      assert newPath == NewPath(parent, newName, files[i]);
      RenameEditsSnoc(parent, newName, files, i);
      RenameEachSnoc(fs, edits, (oldPath, newPath));
      var moved := Rename(fs', oldPath, newPath);
      if moved.Some? {
        fs' := moved.value;
      }
      edits := edits + [(oldPath, newPath)];
    }
    assert files[..|files|] == files;
  }

  /**
   * Each edit moves `parent/stem.ext` to `parent/new_name.ext`: same
   * directory, the new name as stem, the file's own extension kept.
   */
  lemma RenameAllKeepsExtension(fs: Fs, listing: (Fs, string) -> seq<string>, basePath: string, newName: string, i: nat)
    requires FileName(basePath) != "" && newName != [] && '/' !in newName && NormalDir(Parent(basePath))
    requires i < |Matched(fs, listing, basePath)|
    ensures var m := Matched(fs, listing, basePath);
      var e := RenameEdits(Parent(basePath), newName, m)[i];
      && Parent(e.0) == Parent(basePath) && Parent(e.1) == Parent(basePath)
      && FileName(e.0) == m[i]
      && FileStem(FileName(e.1)) == newName
      && Extension(FileName(e.1)) == Extension(FileName(e.0))
  {
    var m := Matched(fs, listing, basePath);
    var parent := Parent(basePath);
    var n := m[i];
    assert n in m;
    MatchedNames(fs, listing, basePath);
    RenameEditsAt(parent, newName, m, i);
    var ext := Extension(n).value;
    ExtensionHasNoDot(n);
    assert '/' !in newName + "." + ext;
    JoinPathParts(parent, n);
    JoinPathParts(parent, newName + "." + ext);
    StemAndExtension(newName, ext);
  }

  // ---------------------------------------------------------------------
  // run

  /** The state the loop of `run` keeps: the file system, `specimen`, `edits`, `failures`. */
  datatype Batch = Batch(fs: Fs, specimen: map<string, seq<string>>, edits: map<string, string>, failures: seq<string>)

  /** The decoded text: `dmtxread`, then `zbarimg` only when that gave nothing and barcodes are included. */
  function Decoded(dmtx: string -> string, zbar: string -> string, includeBarcodes: bool, p: string): string {
    var d := DecoderOutput(dmtx(p));
    if d == "" && includeBarcodes then DecoderOutput(zbar(p)) else d
  }

  /** `zbarimg` is consulted only when barcodes are included and `dmtxread` gave nothing. */
  lemma BarcodeOnlyAsFallback(dmtx: string -> string, zbar: string -> string, includeBarcodes: bool, p: string)
    ensures !includeBarcodes || dmtx(p) != "" ==> Decoded(dmtx, zbar, includeBarcodes, p) == dmtx(p)
    ensures includeBarcodes && dmtx(p) == "" ==> Decoded(dmtx, zbar, includeBarcodes, p) == zbar(p)
  {
  }

  /** The paths already seen under a proper name. */
  function Seen(specimen: map<string, seq<string>>, name: string): seq<string> {
    if name in specimen then specimen[name] else []
  }

  /** The suffix `run` picks: `_D` for a new name, `_V` after one path, `_MANUAL` after more. */
  function SuffixFor(specimen: map<string, seq<string>>, name: string): string {
    if name !in specimen then "_D"
    else if |specimen[name]| == 1 then "_V"
    else "_MANUAL"
  }

  /** On the states `run` reaches, the suffix is the one for the next success of that name. */
  lemma SuffixForNext(specimen: map<string, seq<string>>, name: string)
    requires name in specimen ==> specimen[name] != []
    ensures SuffixFor(specimen, name) == Suffix(|Seen(specimen, name)| + 1)
  {
  }

  /** `edits.insert(old, new)` for each pair in order. */
  function InsertAll(m: map<string, string>, es: seq<Pair>): map<string, string>
    decreases |es|
  {
    if es == [] then m
    else
      var e := es[|es| - 1];
      InsertAll(m, es[..|es| - 1])[e.0 := e.1]
  }

  /**
   * `edits` is keyed by old path: an old path is present when it was present
   * or inserted, maps to the new path of its last insertion, and is left
   * alone otherwise.
   */
  lemma {:induction false} InsertAllLastWins(m: map<string, string>, es: seq<Pair>, k: string)
    ensures k in InsertAll(m, es) <==> k in m || exists j :: 0 <= j < |es| && es[j].0 == k
    ensures forall j :: 0 <= j < |es| && es[j].0 == k && (forall j' :: j < j' < |es| ==> es[j'].0 != k) ==>
      InsertAll(m, es)[k] == es[j].1
    ensures k in m && (forall j :: 0 <= j < |es| ==> es[j].0 != k) ==> InsertAll(m, es)[k] == m[k]
    decreases |es|
  {
    if es != [] {
      var init := es[..|es| - 1];
      InsertAllLastWins(m, init, k);
      assert forall j :: 0 <= j < |init| ==> init[j] == es[j];
    }
  }

  /** One iteration of the loop of `run`. */
  function BatchStep(b: Batch, listing: (Fs, string) -> seq<string>, dmtx: string -> string, zbar: string -> string,
                     includeBarcodes: bool, p: string): Batch
  {
    var decoded := Decoded(dmtx, zbar, includeBarcodes, p);
    if decoded == "" then b.(failures := b.failures + [p])
    else
      var name := ConvertDecodedToName(decoded);
      var es := RenameEdits(Parent(p), name + SuffixFor(b.specimen, name), Matched(b.fs, listing, p));
      Batch(RenameEach(b.fs, es), b.specimen[name := Seen(b.specimen, name) + [p]], InsertAll(b.edits, es), b.failures)
  }

  /** What `collect` guarantees of its paths: each names a file (`*.JPG` or `*.jpg`). */
  predicate Collected(files: seq<string>) {
    forall i :: 0 <= i < |files| ==> FileName(files[i]) != ""
  }

  /** The loop of `run` over the collected files. */
  function RunAll(fs0: Fs, listing: (Fs, string) -> seq<string>, dmtx: string -> string, zbar: string -> string,
                  includeBarcodes: bool, files: seq<string>): Batch
    decreases |files|
  {
    if files == [] then Batch(fs0, map[], map[], [])
    else
      BatchStep(RunAll(fs0, listing, dmtx, zbar, includeBarcodes, files[..|files| - 1]),
                listing, dmtx, zbar, includeBarcodes, files[|files| - 1])
  }

  /** An undecodable image only joins `failures`: `specimen`, `edits` and the file system stay. */
  lemma FailureOnlyRecorded(b: Batch, listing: (Fs, string) -> seq<string>, dmtx: string -> string, zbar: string -> string,
                            includeBarcodes: bool, p: string)
    requires Decoded(dmtx, zbar, includeBarcodes, p) == ""
    ensures BatchStep(b, listing, dmtx, zbar, includeBarcodes, p) == b.(failures := b.failures + [p])
  {
  }

  /** The files whose decoding gives `name`, in order. */
  function Successes(dmtx: string -> string, zbar: string -> string, includeBarcodes: bool, files: seq<string>, name: string): seq<string>
    decreases |files|
  {
    if files == [] then []
    else
      var p := files[|files| - 1];
      var d := Decoded(dmtx, zbar, includeBarcodes, p);
      Successes(dmtx, zbar, includeBarcodes, files[..|files| - 1], name)
        + (if d != "" && ConvertDecodedToName(d) == name then [p] else [])
  }

  /** The files nothing could be decoded from, in order. */
  function Failed(dmtx: string -> string, zbar: string -> string, includeBarcodes: bool, files: seq<string>): (r: seq<string>)
    ensures |r| <= |files|
    decreases |files|
  {
    if files == [] then []
    else
      var p := files[|files| - 1];
      Failed(dmtx, zbar, includeBarcodes, files[..|files| - 1])
        + (if Decoded(dmtx, zbar, includeBarcodes, p) == "" then [p] else [])
  }

  /** The part of one step that the bookkeeping lemmas look at. */
  lemma StepBookkeeping(b: Batch, listing: (Fs, string) -> seq<string>, dmtx: string -> string, zbar: string -> string,
                        includeBarcodes: bool, p: string)
    ensures var d := Decoded(dmtx, zbar, includeBarcodes, p);
      var b' := BatchStep(b, listing, dmtx, zbar, includeBarcodes, p);
      && b'.failures == b.failures + (if d == "" then [p] else [])
      && b'.specimen == if d == "" then b.specimen
                        else b.specimen[ConvertDecodedToName(d) := Seen(b.specimen, ConvertDecodedToName(d)) + [p]]
  {
  }

  /** `specimen` after the given files: each decoded file is appended under its proper name. */
  function SpecimenAfter(dmtx: string -> string, zbar: string -> string, includeBarcodes: bool, files: seq<string>): map<string, seq<string>>
    decreases |files|
  {
    if files == [] then map[]
    else
      var before := SpecimenAfter(dmtx, zbar, includeBarcodes, files[..|files| - 1]);
      var p := files[|files| - 1];
      var d := Decoded(dmtx, zbar, includeBarcodes, p);
      if d == "" then before
      else before[ConvertDecodedToName(d) := Seen(before, ConvertDecodedToName(d)) + [p]]
  }

  /** The `specimen` map of `run` depends on the decoders alone, not on the renames. */
  lemma {:induction false} RunAllSpecimen(fs0: Fs, listing: (Fs, string) -> seq<string>, dmtx: string -> string, zbar: string -> string,
                                          includeBarcodes: bool, files: seq<string>)
    ensures RunAll(fs0, listing, dmtx, zbar, includeBarcodes, files).specimen == SpecimenAfter(dmtx, zbar, includeBarcodes, files)
    decreases |files|
  {
    if files != [] {
      var init := files[..|files| - 1];
      RunAllSpecimen(fs0, listing, dmtx, zbar, includeBarcodes, init);
      StepBookkeeping(RunAll(fs0, listing, dmtx, zbar, includeBarcodes, init), listing, dmtx, zbar, includeBarcodes, files[|files| - 1]);
    }
  }

  /**
   * `specimen[name]` lists exactly the successes for that name, in order,
   * and a name is present only once it has one.
   */
  lemma {:induction false} RunSpecimen(dmtx: string -> string, zbar: string -> string, includeBarcodes: bool, files: seq<string>, name: string)
    ensures var specimen := SpecimenAfter(dmtx, zbar, includeBarcodes, files);
      && (name in specimen <==> Successes(dmtx, zbar, includeBarcodes, files, name) != [])
      && Seen(specimen, name) == Successes(dmtx, zbar, includeBarcodes, files, name)
    decreases |files|
  {
    if files != [] {
      RunSpecimen(dmtx, zbar, includeBarcodes, files[..|files| - 1], name);
    }
  }

  /** `failures` lists exactly the files nothing could be decoded from, in order. */
  lemma {:induction false} RunFailures(fs0: Fs, listing: (Fs, string) -> seq<string>, dmtx: string -> string, zbar: string -> string,
                                       includeBarcodes: bool, files: seq<string>)
    ensures RunAll(fs0, listing, dmtx, zbar, includeBarcodes, files).failures == Failed(dmtx, zbar, includeBarcodes, files)
    decreases |files|
  {
    if files != [] {
      var init := files[..|files| - 1];
      RunFailures(fs0, listing, dmtx, zbar, includeBarcodes, init);
      StepBookkeeping(RunAll(fs0, listing, dmtx, zbar, includeBarcodes, init), listing, dmtx, zbar, includeBarcodes, files[|files| - 1]);
    }
  }

  /**
   * After any prefix of the run, the next file that decodes to `name` gets
   * the suffix of the next success of that name: `_D` for the first, `_V`
   * for the second, `_MANUAL` afterwards.
   */
  lemma {:induction false} SuffixOfNextSuccess(dmtx: string -> string, zbar: string -> string, includeBarcodes: bool, files: seq<string>, name: string)
    ensures SuffixFor(SpecimenAfter(dmtx, zbar, includeBarcodes, files), name)
      == Suffix(|Successes(dmtx, zbar, includeBarcodes, files, name)| + 1)
  {
    RunSpecimen(dmtx, zbar, includeBarcodes, files, name);
    SuffixForNext(SpecimenAfter(dmtx, zbar, includeBarcodes, files), name);
  }

  /** `for (old, new) in ... { edits.insert(old, new); }` */
  method InsertEdits(edits: map<string, string>, es: seq<Pair>) returns (r: map<string, string>)
    ensures r == InsertAll(edits, es)
  {
    r := edits;
    for j := 0 to |es|
      invariant r == InsertAll(edits, es[..j])
    {
      assert es[..j + 1][..j] == es[..j];
      r := r[es[j].0 := es[j].1];
    }
    assert es[..|es|] == es;
  }

  /** One step of the run over `files[..i + 1]` is the step for `files[i]` after the run over `files[..i]`. */
  lemma RunAllStep(fs0: Fs, listing: (Fs, string) -> seq<string>, dmtx: string -> string, zbar: string -> string,
                   includeBarcodes: bool, files: seq<string>, i: nat)
    requires i < |files|
    ensures RunAll(fs0, listing, dmtx, zbar, includeBarcodes, files[..i + 1])
      == BatchStep(RunAll(fs0, listing, dmtx, zbar, includeBarcodes, files[..i]), listing, dmtx, zbar, includeBarcodes, files[i])
  {
    assert files[..i + 1][..i] == files[..i];
  }

  /**
   * The body of the loop of `run` once `decoded` is not empty: rename the
   * siblings with the suffix the paths seen so far call for, insert the
   * edits and record the path under its proper name.
   */
  method RecordSuccess(fs: Fs, specimen: map<string, seq<string>>, edits: map<string, string>, failures: seq<string>,
                       listing: (Fs, string) -> seq<string>, dmtx: string -> string, zbar: string -> string,
                       includeBarcodes: bool, p: string, decoded: string)
    returns (fs': Fs, specimen': map<string, seq<string>>, edits': map<string, string>)
    requires FileName(p) != "" && decoded != "" && decoded == Decoded(dmtx, zbar, includeBarcodes, p)
    ensures Batch(fs', specimen', edits', failures)
      == BatchStep(Batch(fs, specimen, edits, failures), listing, dmtx, zbar, includeBarcodes, p)
  {
    var properName := ConvertDecodedToName(decoded);
    var es;
    if properName in specimen {
      var suffix := if |specimen[properName]| == 1 then "_V" else "_MANUAL";
      es, fs' := RenameAll(fs, listing, p, properName + suffix);
      edits' := InsertEdits(edits, es);
      specimen' := specimen[properName := specimen[properName] + [p]];
    } else {
      es, fs' := RenameAll(fs, listing, p, properName + "_D");
      edits' := InsertEdits(edits, es);
      specimen' := specimen[properName := [p]];
      assert Seen(specimen, properName) + [p] == [p];
    }
  }

  /**
   * `run(starting_path, scan_time, include_barcodes)` over the sorted
   * collected files: returns their number, whatever failed.
   */
  method Run(fs0: Fs, files: seq<string>, listing: (Fs, string) -> seq<string>, dmtx: string -> string, zbar: string -> string,
             includeBarcodes: bool)
    returns (count: nat, specimen: map<string, seq<string>>, edits: map<string, string>, failures: seq<string>, fs: Fs)
    requires Collected(files)
    ensures count == |files| && |failures| <= count
    ensures Batch(fs, specimen, edits, failures) == RunAll(fs0, listing, dmtx, zbar, includeBarcodes, files)
  {
    specimen, edits, failures, fs := map[], map[], [], fs0;
    count := |files|;
    for i := 0 to |files|
      invariant Batch(fs, specimen, edits, failures) == RunAll(fs0, listing, dmtx, zbar, includeBarcodes, files[..i])
      invariant |failures| <= i
    {
      var p := files[i];
      RunAllStep(fs0, listing, dmtx, zbar, includeBarcodes, files, i);
      var decoded := DecoderOutput(dmtx(p));
      if decoded == "" {
        if includeBarcodes {
          decoded := DecoderOutput(zbar(p));
          if decoded == "" {
            FailureOnlyRecorded(Batch(fs, specimen, edits, failures), listing, dmtx, zbar, includeBarcodes, p);
            failures := failures + [p];
            continue;
          }
        } else {
          FailureOnlyRecorded(Batch(fs, specimen, edits, failures), listing, dmtx, zbar, includeBarcodes, p);
          failures := failures + [p];
          continue;
        }
      }
      fs, specimen, edits := RecordSuccess(fs, specimen, edits, failures, listing, dmtx, zbar, includeBarcodes, p, decoded);
    }
    assert files[..|files|] == files;
  }
}
