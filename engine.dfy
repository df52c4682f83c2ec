/**
 * The renaming engine of dm_reader.py and dm_only.py: the per-image step of
 * `ProcessData` (range filter, decoding, clean-up, id, lateral test,
 * counter, rename of the image and of its `.CR2` companion, record), the
 * directory listings, the post-order walk of `RecursiveProcessData`,
 * `Undo` and `Log`. An uncaught Python exception becomes a `Fault` that
 * ends the run.
 */
module Engine {
  import opened Wrappers
  import opened Text
  import opened RangeTable
  import opened Naming
  import opened FileSystem
  import opened LogFile

  /** The exceptions the scripts let escape, each of which ends the run. */
  datatype Fault =
    | NoExtension(name: string)        // `name.split('.')[1]` raises IndexError
    | NoDigitsInName(image: string)    // `int('')` raises ValueError in the range filter
    | BadIdentifier(name: string)      // `int(new_name.split('_')[1])` raises
    | RenameFailed(src: string, dst: string)  // `os.rename` raises OSError

  /** `valid_imgs`, compared case-sensitively. */
  const VALID_IMAGES: seq<string> := ["JPG", "jpg", "jpeg", "JPEG"]

  /** What a listing collects: images (`GetImages`) or raw companions (`GetCR2s`). */
  datatype Kind = Images | Raw

  predicate Accepts(kind: Kind, ext: string) {
    match kind
    case Images => ext in VALID_IMAGES
    case Raw => ext == "CR2"
  }

  /**
   * `GetImages` / `GetCR2s` over the sorted listing `names` of `path`: the
   * files whose second `.`-separated segment is accepted, in listing order;
   * the first file without a `.` raises IndexError.
   */
  function Files(fs: Fs, path: string, names: seq<string>, kind: Kind): Result<seq<string>, Fault>
    decreases |names|
  {
    if names == [] then Ok([])
    else match Files(fs, path, names[..|names| - 1], kind)
      case Err(f) => Err(f)
      case Ok(r) =>
        var n := names[|names| - 1];
        if !IsFile(fs, path + n) then Ok(r)
        else match Segment(n, '.', 1)
          case None => Err(NoExtension(n))
          case Some(ext) => if Accepts(kind, ext) then Ok(r + [n]) else Ok(r)
  }

  /** A listed file is selected exactly when it is a file whose second segment is accepted. */
  lemma {:induction false} FilesSelects(fs: Fs, path: string, names: seq<string>, kind: Kind, x: string)
    requires Files(fs, path, names, kind).Ok?
    ensures x in Files(fs, path, names, kind).value <==>
      x in names && IsFile(fs, path + x) && Segment(x, '.', 1).Some? && Accepts(kind, Segment(x, '.', 1).value)
    decreases |names|
  {
    if names != [] {
      var init := names[..|names| - 1];
      var n := names[|names| - 1];
      FilesSelects(fs, path, init, kind, x);
      assert names == init + [n];
      assert x in names <==> x in init || x == n;
      var r := Files(fs, path, init, kind).value;
      if IsFile(fs, path + n) && Accepts(kind, Segment(n, '.', 1).value) {
        assert Files(fs, path, names, kind).value == r + [n];
      } else {
        assert Files(fs, path, names, kind).value == r;
      }
    }
  }

  /** The listing fails exactly when some listed file has no `.`. */
  lemma {:induction false} FilesFails(fs: Fs, path: string, names: seq<string>, kind: Kind)
    ensures Files(fs, path, names, kind).Err? <==>
      exists i :: 0 <= i < |names| && IsFile(fs, path + names[i]) && Segment(names[i], '.', 1).None?
    decreases |names|
  {
    if names != [] {
      var init := names[..|names| - 1];
      FilesFails(fs, path, init, kind);
      assert forall i :: 0 <= i < |init| ==> init[i] == names[i];
    }
  }

  /** The loop of `GetImages` / `GetCR2s`. */
  method ListFiles(fs: Fs, path: string, names: seq<string>, kind: Kind) returns (r: Result<seq<string>, Fault>)
    ensures r == Files(fs, path, names, kind)
  {
    var found: seq<string> := [];
    var i := 0;
    while i < |names|
      invariant 0 <= i <= |names|
      invariant Files(fs, path, names[..i], kind) == Ok(found)
    {
      var n := names[i];
      assert names[..i + 1][..i] == names[..i];
      if IsFile(fs, path + n) {
        var ext := Segment(n, '.', 1);
        if ext.None? {
          assert Files(fs, path, names[..i + 1], kind) == Err(NoExtension(n));
          FaultPersists(fs, path, names, kind, i + 1);
          return Err(NoExtension(n));
        }
        if Accepts(kind, ext.value) {
          found := found + [n];
        }
      }
      i := i + 1;
    }
    assert names[..i] == names;
    r := Ok(found);
  }

  /** Once the listing of a prefix has failed, the listing of the whole has failed the same way. */
  lemma {:induction false} FaultPersists(fs: Fs, path: string, names: seq<string>, kind: Kind, k: nat)
    requires k <= |names| && Files(fs, path, names[..k], kind).Err?
    ensures Files(fs, path, names, kind) == Files(fs, path, names[..k], kind)
    decreases |names| - k
  {
    if k < |names| {
      assert names[..k + 1][..k] == names[..k];
      FaultPersists(fs, path, names, kind, k + 1);
    } else {
      assert names[..k] == names;
    }
  }

  /** `GetDirs`: the listed names that are directories, in listing order. */
  function Subdirs(dirs: set<string>, path: string, names: seq<string>): (r: seq<string>)
    ensures forall s :: s in r ==> s in names && path + s in dirs
    decreases |names|
  {
    if names == [] then []
    else
      var r := Subdirs(dirs, path, names[..|names| - 1]);
      if path + names[|names| - 1] in dirs then r + [names[|names| - 1]] else r
  }

  /** Every listed name that is a directory is kept. */
  lemma {:induction false} SubdirsComplete(dirs: set<string>, path: string, names: seq<string>, s: string)
    requires s in names && path + s in dirs
    ensures s in Subdirs(dirs, path, names)
    decreases |names|
  {
    var init := names[..|names| - 1];
    assert names == init + [names[|names| - 1]];
    if s != names[|names| - 1] {
      SubdirsComplete(dirs, path, init, s);
    }
  }

  method GetDirs(fs: Fs, path: string, names: seq<string>) returns (r: seq<string>)
    ensures r == Subdirs(Dirs(fs), path, names)
  {
    r := [];
    var i := 0;
    while i < |names|
      invariant 0 <= i <= |names|
      invariant r == Subdirs(Dirs(fs), path, names[..i])
    {
      assert names[..i + 1][..i] == names[..i];
      if IsDir(fs, path + names[i]) {
        r := r + [names[i]];
      }
      i := i + 1;
    }
    assert names[..i] == names;
  }

  /** The outcome of the range filter for one image. */
  datatype Gate = Pass(taxon: Option<Bound>) | OutOfRange | NoDigits

  /**
   * The range filter of `ProcessData`: with an empty (or absent) table every
   * image passes without a taxon; otherwise the number in the file name
   * selects the first containing bound, and an image no bound contains is
   * skipped.
   */
  function RangeGate(ranges: seq<Bound>, image: string): Gate {
    if ranges == [] then Pass(None)
    else match ImageNumber(image)
      case None => NoDigits
      case Some(n) =>
        match FirstContaining(ranges, n)
        case None => OutOfRange
        case Some(i) => Pass(Some(ranges[i]))
  }

  /**
   * The decoder text, when it holds `MGCL`: dm_reader.py asks the barcode
   * reader first and falls back to the data-matrix reader; dm_only.py asks
   * only the data-matrix reader. The readers are opaque functions of the
   * image path.
   */
  function Decode(flavor: Flavor, barcode: string -> string, matrix: string -> string, arg: string): (r: Option<string>)
    ensures r.Some? ==> Contains(r.value, "MGCL")
  {
    if flavor == Reader && Contains(barcode(arg), "MGCL") then Some(barcode(arg))
    else if Contains(matrix(arg), "MGCL") then Some(matrix(arg))
    else None
  }

  /** dm_only.py decodes only the data matrix, and finds text exactly when it holds `MGCL`. */
  lemma DecodeMatrixOnly(barcode: string -> string, matrix: string -> string, arg: string)
    ensures Decode(MatrixOnly, barcode, matrix, arg) == if Contains(matrix(arg), "MGCL") then Some(matrix(arg)) else None
  {
  }

  /**
   * dm_reader.py prefers the barcode: its text is used whenever it holds
   * `MGCL`, the data matrix only when it does not.
   */
  lemma DecodeReaderOrder(barcode: string -> string, matrix: string -> string, arg: string)
    ensures Contains(barcode(arg), "MGCL") ==> Decode(Reader, barcode, matrix, arg) == Some(barcode(arg))
    ensures !Contains(barcode(arg), "MGCL") && Contains(matrix(arg), "MGCL") ==>
      Decode(Reader, barcode, matrix, arg) == Some(matrix(arg))
    ensures Decode(Reader, barcode, matrix, arg).None? <==>
      !Contains(barcode(arg), "MGCL") && !Contains(matrix(arg), "MGCL")
  {
  }

  /** What `ProcessData` decides for one image before touching the file system. */
  datatype Plan =
    | Skip
    | Crash(fault: Fault)
    | Go(name: string, ext: string, occurrences: map<int, nat>)

  function PlanImage(flavor: Flavor, occurrences: map<int, nat>, path: string, image: string,
                     ranges: seq<Bound>, barcode: string -> string, matrix: string -> string): Plan
  {
    match RangeGate(ranges, image)
    case NoDigits => Crash(NoDigitsInName(image))
    case OutOfRange => Skip
    case Pass(taxon) =>
      match Segment(image, '.', 1)
      case None => Crash(NoExtension(image))
      case Some(e) =>
        match Decode(flavor, barcode, matrix, path + image)
        case None => Skip
        case Some(text) =>
          var cleaned := Clean(Clean(text));
          match ScannedId(cleaned)
          case None => Crash(BadIdentifier(cleaned))
          case Some(id) =>
            var (name, occ) := Designate(flavor, WithTaxon(cleaned, taxon), id, occurrences);
            Go(name, "." + e, occ)
  }

  /** The run-scoped state: the file system, `occurrences` and `old_new_paths`. */
  datatype Run = Run(fs: Fs, occurrences: map<int, nat>, record: seq<Pair>)

  /** The state after a step, and the exception that ended the run, if any. */
  datatype Step = Step(run: Run, fault: Option<Fault>)

  /** `image.split('.')[0]`. */
  function Stem(name: string): string {
    Split(name, '.')[0]
  }

  /**
   * Carries out a plan: the image moves to `path + name + ext` and the pair
   * is recorded; when `stem + '.CR2'` was listed, the companion moves to
   * `path + name.split('.')[0] + '.CR2'` and that pair is recorded after it.
   * A failing rename ends the run with the state reached so far.
   */
  function Execute(run: Run, path: string, image: string, cr2s: seq<string>, plan: Plan): Step {
    match plan
    case Skip => Step(run, None)
    case Crash(f) => Step(run, Some(f))
    case Go(name, ext, occ) =>
      var src := path + image;
      var dst := path + name + ext;
      match Rename(run.fs, src, dst)
      case None => Step(Run(run.fs, occ, run.record), Some(RenameFailed(src, dst)))
      case Some(fs1) =>
        var rec1 := run.record + [(src, dst)];
        if Stem(image) + ".CR2" in cr2s then
          var csrc := path + Stem(image) + ".CR2";
          var cdst := path + Stem(name) + ".CR2";
          match Rename(fs1, csrc, cdst)
          case None => Step(Run(fs1, occ, rec1), Some(RenameFailed(csrc, cdst)))
          case Some(fs2) => Step(Run(fs2, occ, rec1 + [(csrc, cdst)]), None)
        else Step(Run(fs1, occ, rec1), None)
  }

  /** One iteration of the image loop of `ProcessData`. */
  function ProcessImageStep(flavor: Flavor, run: Run, path: string, image: string, cr2s: seq<string>,
                            ranges: seq<Bound>, barcode: string -> string, matrix: string -> string): Step
  {
    Execute(run, path, image, cr2s, PlanImage(flavor, run.occurrences, path, image, ranges, barcode, matrix))
  }

  /** Carrying out a rename plan does not read the counter it replaces. */
  lemma ExecuteIgnoresCounter(run: Run, occ: map<int, nat>, path: string, image: string, cr2s: seq<string>, plan: Plan)
    requires plan.Go?
    ensures Execute(Run(run.fs, occ, run.record), path, image, cr2s, plan) == Execute(run, path, image, cr2s, plan)
  {
  }

  /** The image loop of `ProcessData` over `images`, stopping at the first exception. */
  function ProcessImages(flavor: Flavor, run: Run, path: string, images: seq<string>, cr2s: seq<string>,
                         ranges: seq<Bound>, barcode: string -> string, matrix: string -> string): Step
    decreases |images|
  {
    if images == [] then Step(run, None)
    else
      var s := ProcessImages(flavor, run, path, images[..|images| - 1], cr2s, ranges, barcode, matrix);
      if s.fault.Some? then s
      else ProcessImageStep(flavor, s.run, path, images[|images| - 1], cr2s, ranges, barcode, matrix)
  }

  /** `ProcessData(path, range_data)` on the sorted listing `names` of `path`. */
  function ProcessDir(flavor: Flavor, run: Run, path: string, names: seq<string>,
                      ranges: seq<Bound>, barcode: string -> string, matrix: string -> string): Step
  {
    match Files(run.fs, path, names, Raw)
    case Err(f) => Step(run, Some(f))
    case Ok(cr2s) =>
      match Files(run.fs, path, names, Images)
      case Err(f) => Step(run, Some(f))
      case Ok(images) => ProcessImages(flavor, run, path, images, cr2s, ranges, barcode, matrix)
  }

  // ---------------------------------------------------------------------
  // Properties of one step

  /**
   * With a non-empty table, an image whose number no bound contains is
   * skipped with no rename, no record entry and no counter change; when a
   * bound does contain it (and the image has an extension and decodes), the
   * image is not skipped.
   */
  lemma RangeFilterSkips(flavor: Flavor, run: Run, path: string, image: string, cr2s: seq<string>,
                         ranges: seq<Bound>, barcode: string -> string, matrix: string -> string, n: nat)
    requires ranges != [] && ImageNumber(image) == Some(n)
    ensures FirstContaining(ranges, n).None? ==>
      ProcessImageStep(flavor, run, path, image, cr2s, ranges, barcode, matrix) == Step(run, None)
    ensures (FirstContaining(ranges, n).Some? && Segment(image, '.', 1).Some?
             && Decode(flavor, barcode, matrix, path + image).Some?) ==>
      !PlanImage(flavor, run.occurrences, path, image, ranges, barcode, matrix).Skip?
  {
  }

  /**
   * The taxon comes from the first bound, in table order, that contains the
   * image number: the name is built from the cleaned text followed by
   * `_<genus>_<specificEpithet>` of that bound.
   */
  lemma TaxonFromFirstBound(flavor: Flavor, occurrences: map<int, nat>, path: string, image: string,
                            ranges: seq<Bound>, barcode: string -> string, matrix: string -> string,
                            n: nat, text: string, id: int)
    requires ranges != [] && ImageNumber(image) == Some(n) && FirstContaining(ranges, n).Some?
    requires Segment(image, '.', 1).Some? && Decode(flavor, barcode, matrix, path + image) == Some(text)
    requires ScannedId(Clean(Clean(text))) == Some(id)
    ensures var b := ranges[FirstContaining(ranges, n).value];
      var (name, occ) := Designate(flavor, Clean(Clean(text)) + "_" + b.genus + "_" + b.specificEpithet, id, occurrences);
      PlanImage(flavor, occurrences, path, image, ranges, barcode, matrix) == Go(name, "." + Segment(image, '.', 1).value, occ)
  {
  }

  /** An image whose decoder text lacks `MGCL` leaves the state as it was. */
  lemma NoSymbolSkips(flavor: Flavor, run: Run, path: string, image: string, cr2s: seq<string>,
                      ranges: seq<Bound>, barcode: string -> string, matrix: string -> string)
    requires RangeGate(ranges, image).Pass? && Segment(image, '.', 1).Some?
    requires Decode(flavor, barcode, matrix, path + image).None?
    ensures ProcessImageStep(flavor, run, path, image, cr2s, ranges, barcode, matrix) == Step(run, None)
  {
  }

  /**
   * A renamed image appends exactly `(path+image, path+name+ext)`, and, when
   * its companion was listed, `(path+stem+'.CR2', path+name.split('.')[0]+'.CR2')`
   * after it; the counter becomes the planned one.
   */
  lemma RecordEntries(run: Run, path: string, image: string, cr2s: seq<string>, name: string, ext: string, occ: map<int, nat>)
    requires Execute(run, path, image, cr2s, Go(name, ext, occ)).fault.None?
    ensures var s := Execute(run, path, image, cr2s, Go(name, ext, occ));
      && s.run.occurrences == occ
      && s.run.record == run.record + [(path + image, path + name + ext)]
           + (if Stem(image) + ".CR2" in cr2s then [(path + Stem(image) + ".CR2", path + Stem(name) + ".CR2")] else [])
  {
  }

  /**
   * Every step only appends to the record, and replaying what it appended on
   * the old file system gives the new one: the record lists exactly the
   * renames that happened.
   */
  lemma {:induction false} StepReplays(run: Run, path: string, image: string, cr2s: seq<string>, plan: Plan)
    ensures var s := Execute(run, path, image, cr2s, plan);
      && |run.record| <= |s.run.record| && s.run.record[..|run.record|] == run.record
      && Apply(run.fs, s.run.record[|run.record|..]) == Applied(s.run.fs, None)
  {
    var s := Execute(run, path, image, cr2s, plan);
    match plan
    case Skip =>
    case Crash(f) =>
    case Go(name, ext, occ) =>
      var src := path + image;
      var dst := path + name + ext;
      match Rename(run.fs, src, dst)
      case None =>
      case Some(fs1) =>
        var rec1 := run.record + [(src, dst)];
        assert rec1[|run.record|..] == [(src, dst)];
        if Stem(image) + ".CR2" in cr2s {
          var csrc := path + Stem(image) + ".CR2";
          var cdst := path + Stem(name) + ".CR2";
          match Rename(fs1, csrc, cdst)
          case None =>
          case Some(fs2) =>
            assert Apply(fs1, [(csrc, cdst)]) == Applied(fs2, None);
            assert (rec1 + [(csrc, cdst)])[|run.record|..] == [(src, dst), (csrc, cdst)];
            assert [(src, dst), (csrc, cdst)][1..] == [(csrc, cdst)];
        }
  }

  /** The image loop only appends renames that replay on the starting file system. */
  lemma {:induction false} ImagesReplay(flavor: Flavor, run: Run, path: string, images: seq<string>, cr2s: seq<string>,
                                        ranges: seq<Bound>, barcode: string -> string, matrix: string -> string)
    ensures var s := ProcessImages(flavor, run, path, images, cr2s, ranges, barcode, matrix);
      && |run.record| <= |s.run.record| && s.run.record[..|run.record|] == run.record
      && Apply(run.fs, s.run.record[|run.record|..]) == Applied(s.run.fs, None)
    decreases |images|
  {
    if images != [] {
      var init := images[..|images| - 1];
      ImagesReplay(flavor, run, path, init, cr2s, ranges, barcode, matrix);
      var s := ProcessImages(flavor, run, path, init, cr2s, ranges, barcode, matrix);
      if s.fault.None? {
        var img := images[|images| - 1];
        var plan := PlanImage(flavor, s.run.occurrences, path, img, ranges, barcode, matrix);
        StepReplays(s.run, path, img, cr2s, plan);
        var t := Execute(s.run, path, img, cr2s, plan);
        var a := s.run.record[|run.record|..];
        var b := t.run.record[|s.run.record|..];
        SliceSplit(t.run.record, run.record, s.run.record);
        ApplyConcat(run.fs, a, b);
      }
    }
  }

  /** Once the loop has stopped on an exception, later images change nothing. */
  lemma {:induction false} ImagesFaultPersists(flavor: Flavor, run: Run, path: string, images: seq<string>, k: nat,
                                               cr2s: seq<string>, ranges: seq<Bound>, barcode: string -> string, matrix: string -> string)
    requires k <= |images| && ProcessImages(flavor, run, path, images[..k], cr2s, ranges, barcode, matrix).fault.Some?
    ensures ProcessImages(flavor, run, path, images, cr2s, ranges, barcode, matrix)
         == ProcessImages(flavor, run, path, images[..k], cr2s, ranges, barcode, matrix)
    decreases |images| - k
  {
    if k < |images| {
      assert images[..k + 1][..k] == images[..k];
      ImagesFaultPersists(flavor, run, path, images, k + 1, cr2s, ranges, barcode, matrix);
    } else {
      assert images[..k] == images;
    }
  }

  // ---------------------------------------------------------------------
  // The walk of RecursiveProcessData

  /** Directories at least as long as `path`: shrinks on every descent. */
  function Measure(dirs: set<string>, path: string): nat {
    var below := set d | d in dirs && |d| >= |path|;
    |below|
  }

  lemma MeasureDrops(dirs: set<string>, path: string, s: string)
    requires path + s in dirs
    ensures Measure(dirs, path + s + "/") < Measure(dirs, path)
  {
    var a := set d | d in dirs && |d| >= |path|;
    var a2 := set d | d in dirs && |d| >= |path + s + "/"|;
    var x := path + s;
    assert a2 <= a && x in a && x !in a2;
    var b := a - a2;
    assert a == a2 + b && a2 !! b;
    assert b == {x} + (b - {x});
  }

  /**
   * The order in which `RecursiveProcessData(path)` runs `ProcessData`:
   * every subdirectory, in listing order and recursively, then `path`.
   */
  function Walk(dirs: set<string>, listing: string -> seq<string>, path: string): seq<string>
    decreases Measure(dirs, path), 1, 0
  {
    var subs := Subdirs(dirs, path, listing(path));
    WalkAll(dirs, listing, path, subs) + [path]
  }

  /** The walks below the subdirectories `subs` of `path`, in order (a name that is not a directory adds nothing). */
  function WalkAll(dirs: set<string>, listing: string -> seq<string>, path: string, subs: seq<string>): seq<string>
    decreases Measure(dirs, path), 0, |subs|
  {
    if subs == [] then []
    else
      var last := subs[|subs| - 1];
      if path + last in dirs then
        MeasureDrops(dirs, path, last);
        WalkAll(dirs, listing, path, subs[..|subs| - 1]) + Walk(dirs, listing, path + last + "/")
      else WalkAll(dirs, listing, path, subs[..|subs| - 1])
  }

  predicate Below(path: string, p: string) {
    |path| < |p| && p[..|path|] == path
  }

  /**
   * Post-order: a directory is worked in last, after everything below it,
   * and everything the walk visits lies below the starting directory.
   */
  lemma {:induction false} WalkIsPostOrder(dirs: set<string>, listing: string -> seq<string>, path: string)
    ensures var w := Walk(dirs, listing, path);
      |w| >= 1 && w[|w| - 1] == path && forall p :: p in w[..|w| - 1] ==> Below(path, p)
    decreases Measure(dirs, path), 1, 0
  {
    var subs := Subdirs(dirs, path, listing(path));
    WalkAllBelow(dirs, listing, path, subs);
    assert Walk(dirs, listing, path) == WalkAll(dirs, listing, path, subs) + [path];
  }

  lemma {:induction false} WalkAllBelow(dirs: set<string>, listing: string -> seq<string>, path: string, subs: seq<string>)
    ensures forall p :: p in WalkAll(dirs, listing, path, subs) ==> Below(path, p)
    decreases Measure(dirs, path), 0, |subs|
  {
    if subs != [] && path + subs[|subs| - 1] !in dirs {
      WalkAllBelow(dirs, listing, path, subs[..|subs| - 1]);
    } else if subs != [] {
      var last := subs[|subs| - 1];
      MeasureDrops(dirs, path, last);
      WalkAllBelow(dirs, listing, path, subs[..|subs| - 1]);
      var child := path + last + "/";
      WalkIsPostOrder(dirs, listing, child);
      var w1 := WalkAll(dirs, listing, path, subs[..|subs| - 1]);
      var w2 := Walk(dirs, listing, child);
      assert child[..|path|] == path;
      forall i | 0 <= i < |w2| ensures Below(path, w2[i]) {
        if i < |w2| - 1 {
          assert w2[i] in w2[..|w2| - 1];
          assert Below(child, w2[i]);
          assert w2[i][..|path|] == w2[i][..|child|][..|path|];
        } else {
          assert w2[i] == child;
        }
      }
      assert WalkAll(dirs, listing, path, subs) == w1 + w2;
    }
  }

  /** Conversely, the walk visits every directory that `GetDirs(path)` lists. */
  lemma WalkVisitsSubdirs(dirs: set<string>, listing: string -> seq<string>, path: string, s: string)
    requires s in listing(path) && path + s in dirs
    ensures path + s + "/" in Walk(dirs, listing, path)
  {
    var subs := Subdirs(dirs, path, listing(path));
    SubdirsComplete(dirs, path, listing(path), s);
    WalkAllVisits(dirs, listing, path, subs, s);
    assert Walk(dirs, listing, path) == WalkAll(dirs, listing, path, subs) + [path];
  }

  lemma {:induction false} WalkAllVisits(dirs: set<string>, listing: string -> seq<string>, path: string, subs: seq<string>, s: string)
    requires s in subs && path + s in dirs
    ensures path + s + "/" in WalkAll(dirs, listing, path, subs)
    decreases |subs|
  {
    var init, last := subs[..|subs| - 1], subs[|subs| - 1];
    assert subs == init + [last];
    if path + last in dirs {
      var w := Walk(dirs, listing, path + last + "/");
      assert WalkAll(dirs, listing, path, subs) == WalkAll(dirs, listing, path, init) + w;
      if s == last {
        WalkIsPostOrder(dirs, listing, path + last + "/");
        assert w[|w| - 1] in w;
      } else {
        WalkAllVisits(dirs, listing, path, init, s);
      }
    } else {
      WalkAllVisits(dirs, listing, path, init, s);
    }
  }

  /**
   * What the walk does to the run state: `ProcessData(d)` with no range table
   * for each directory `d` in walk order, until the first uncaught exception.
   */
  function WalkRun(flavor: Flavor, run: Run, order: seq<string>, listing: string -> seq<string>,
                   barcode: string -> string, matrix: string -> string): Step
    decreases |order|
  {
    if order == [] then Step(run, None)
    else
      var s := WalkRun(flavor, run, order[..|order| - 1], listing, barcode, matrix);
      if s.fault.Some? then s
      else
        var d := order[|order| - 1];
        ProcessDir(flavor, s.run, d, listing(d), [], barcode, matrix)
  }

  /** Walking two orders in turn is walking their concatenation; a fault in the first ends it. */
  lemma {:induction false} WalkRunConcat(flavor: Flavor, run: Run, a: seq<string>, b: seq<string>, listing: string -> seq<string>,
                                         barcode: string -> string, matrix: string -> string)
    ensures var s := WalkRun(flavor, run, a, listing, barcode, matrix);
      WalkRun(flavor, run, a + b, listing, barcode, matrix)
        == if s.fault.Some? then s else WalkRun(flavor, s.run, b, listing, barcode, matrix)
    decreases |b|
  {
    if b == [] {
      assert a + b == a;
    } else {
      var b' := b[..|b| - 1];
      assert (a + b)[..|a + b| - 1] == a + b';
      assert (a + b)[|a + b| - 1] == b[|b| - 1];
      WalkRunConcat(flavor, run, a, b', listing, barcode, matrix);
    }
  }

  /** Once a subdirectory's walk has faulted, the later subdirectories change nothing. */
  lemma {:induction false} WalkAllFaultPersists(flavor: Flavor, run: Run, dirs: set<string>, listing: string -> seq<string>,
                                                path: string, subs: seq<string>, k: nat,
                                                barcode: string -> string, matrix: string -> string)
    requires k <= |subs| && forall s :: s in subs ==> path + s in dirs
    requires WalkRun(flavor, run, WalkAll(dirs, listing, path, subs[..k]), listing, barcode, matrix).fault.Some?
    ensures WalkRun(flavor, run, WalkAll(dirs, listing, path, subs), listing, barcode, matrix)
         == WalkRun(flavor, run, WalkAll(dirs, listing, path, subs[..k]), listing, barcode, matrix)
    decreases |subs| - k
  {
    if k < |subs| {
      WalkAllStep(dirs, listing, path, subs, k);
      WalkRunConcat(flavor, run, WalkAll(dirs, listing, path, subs[..k]), Walk(dirs, listing, path + subs[k] + "/"),
                    listing, barcode, matrix);
      WalkAllFaultPersists(flavor, run, dirs, listing, path, subs, k + 1, barcode, matrix);
    } else {
      assert subs[..k] == subs;
    }
  }

  /** Processing one directory only appends renames that replay on the file system it started from. */
  lemma DirReplays(flavor: Flavor, run: Run, path: string, names: seq<string>,
                   ranges: seq<Bound>, barcode: string -> string, matrix: string -> string)
    ensures var s := ProcessDir(flavor, run, path, names, ranges, barcode, matrix);
      && |run.record| <= |s.run.record| && s.run.record[..|run.record|] == run.record
      && Apply(run.fs, s.run.record[|run.record|..]) == Applied(s.run.fs, None)
  {
    match Files(run.fs, path, names, Raw)
    case Err(_) => assert run.record[|run.record|..] == [];
    case Ok(cr2s) =>
      match Files(run.fs, path, names, Images)
      case Err(_) => assert run.record[|run.record|..] == [];
      case Ok(images) => ImagesReplay(flavor, run, path, images, cr2s, ranges, barcode, matrix);
  }

  /** The whole walk only appends renames, and they replay from the starting file system to the final one. */
  lemma {:induction false} WalkRunReplays(flavor: Flavor, run: Run, order: seq<string>, listing: string -> seq<string>,
                                          barcode: string -> string, matrix: string -> string)
    ensures var s := WalkRun(flavor, run, order, listing, barcode, matrix);
      && |run.record| <= |s.run.record| && s.run.record[..|run.record|] == run.record
      && Apply(run.fs, s.run.record[|run.record|..]) == Applied(s.run.fs, None)
    decreases |order|
  {
    if order == [] {
      assert run.record[|run.record|..] == [];
    } else {
      var init := order[..|order| - 1];
      WalkRunReplays(flavor, run, init, listing, barcode, matrix);
      var s := WalkRun(flavor, run, init, listing, barcode, matrix);
      if s.fault.None? {
        var d := order[|order| - 1];
        DirReplays(flavor, s.run, d, listing(d), [], barcode, matrix);
        var t := ProcessDir(flavor, s.run, d, listing(d), [], barcode, matrix);
        SliceSplit(t.run.record, run.record, s.run.record);
        ApplyConcat(run.fs, s.run.record[|run.record|..], t.run.record[|s.run.record|..]);
      }
    }
  }

  /** A run of the scripts: the state `ProcessData` and `RecursiveProcessData` share. */
  class Session {
    const flavor: Flavor
    var fs: Fs
    var occurrences: map<int, nat>
    var record: seq<Pair>
    /** The directories `ProcessData` has started on, in order (its "Working in..." line). */
    var worked: seq<string>
    /** The file system before the first rename. */
    ghost var initial: Fs

    /** The record lists exactly the renames that led from the initial file system to the current one. */
    ghost predicate Valid()
      reads this
    {
      Apply(initial, record) == Applied(fs, None)
    }

    function Current(): Run
      reads this
    {
      Run(fs, occurrences, record)
    }

    constructor (flavor: Flavor, fs: Fs)
      ensures Valid() && this.flavor == flavor && this.fs == fs && initial == fs
      ensures occurrences == map[] && record == [] && worked == []
    {
      this.flavor := flavor;
      this.fs := fs;
      occurrences := map[];
      record := [];
      worked := [];
      initial := fs;
    }

    /** One iteration of the image loop of `ProcessData`, statement by statement. */
    method ProcessImage(path: string, image: string, cr2s: seq<string>, ranges: seq<Bound>,
                        barcode: string -> string, matrix: string -> string) returns (fault: Option<Fault>)
      requires Valid()
      modifies this
      ensures Valid() && initial == old(initial) && worked == old(worked)
      ensures Step(Current(), fault) == ProcessImageStep(flavor, old(Current()), path, image, cr2s, ranges, barcode, matrix)
    {
      ghost var run0 := Current();
      var taxon: Option<Bound> := None;
      if ranges != [] {
        var number := ImageNumber(image);
        if number.None? {
          return Some(NoDigitsInName(image));
        }
        var shouldSkip;
        shouldSkip, taxon := SelectBound(ranges, number.value);
        if shouldSkip {
          return None;
        }
      }
      assert RangeGate(ranges, image) == Pass(taxon);
      var segment := Segment(image, '.', 1);
      if segment.None? {
        return Some(NoExtension(image));
      }
      var ext := "." + segment.value;
      var arg := path + image;

      var newName, found := ReadSymbol(arg, barcode, matrix);
      if !found {
        return None;
      }
      newName := Clean(newName);
      newName := Clean(newName);
      ghost var cleaned := newName;
      var scannedId := ScannedId(newName);
      if scannedId.None? {
        return Some(BadIdentifier(newName));
      }
      var id := scannedId.value;

      if taxon.Some? {
        newName := newName + "_" + taxon.value.genus + "_" + taxon.value.specificEpithet;
      }
      assert newName == WithTaxon(cleaned, taxon);
      newName := Designation(newName, id);
      assert PlanImage(flavor, run0.occurrences, path, image, ranges, barcode, matrix) == Go(newName, ext, occurrences);
      ExecuteIgnoresCounter(run0, occurrences, path, image, cr2s, Go(newName, ext, occurrences));

      fault := Move(path, image, cr2s, newName, ext);
    }

    /**
     * The decoding step: the barcode reader first, then the data-matrix
     * reader (only the latter in dm_only.py); `found` is false when neither
     * text holds `MGCL`.
     */
    method ReadSymbol(arg: string, barcode: string -> string, matrix: string -> string) returns (text: string, found: bool)
      ensures found <==> Decode(flavor, barcode, matrix, arg).Some?
      ensures found ==> Decode(flavor, barcode, matrix, arg) == Some(text)
    {
      if flavor == Reader {
        text := barcode(arg);
        if Contains(text, "MGCL") {
          return text, true;
        }
      }
      text := matrix(arg);
      found := Contains(text, "MGCL");
    }

    /**
     * The lateral test, then the per-id counter and the `_D` / `_V` /
     * `_MANUAL` suffix it selects.
     */
    method Designation(name: string, id: int) returns (newName: string)
      modifies this`occurrences
      ensures (newName, occurrences) == Designate(flavor, name, id, old(occurrences))
    {
      newName := name;
      if IsLateral(flavor, newName) {
        newName := newName + "_L";
      } else {
        if id !in occurrences {
          occurrences := occurrences[id := 1];
        } else {
          occurrences := occurrences[id := occurrences[id] + 1];
        }
        if occurrences[id] == 1 {
          newName := newName + "_D";
        } else if occurrences[id] == 2 {
          newName := newName + "_V";
        } else {
          newName := newName + "_MANUAL";
        }
      }
    }

    /**
     * The renames at the end of one iteration: the image, then its `.CR2`
     * companion when that was listed, each recorded once it has happened.
     */
    method Move(path: string, image: string, cr2s: seq<string>, newName: string, ext: string) returns (fault: Option<Fault>)
      requires Valid()
      modifies this
      ensures Valid() && initial == old(initial) && worked == old(worked)
      ensures Step(Current(), fault) == Execute(old(Current()), path, image, cr2s, Go(newName, ext, old(occurrences)))
    {
      var src, dst := path + image, path + newName + ext;
      var moved := Rename(fs, src, dst);
      if moved.None? {
        return Some(RenameFailed(src, dst));
      }
      ReplayOne(initial, record, fs, (src, dst), moved.value);
      fs := moved.value;
      record := record + [(src, dst)];

      if Stem(image) + ".CR2" in cr2s {
        var csrc, cdst := path + Stem(image) + ".CR2", path + Stem(newName) + ".CR2";
        var movedRaw := Rename(fs, csrc, cdst);
        if movedRaw.None? {
          return Some(RenameFailed(csrc, cdst));
        }
        ReplayOne(initial, record, fs, (csrc, cdst), movedRaw.value);
        fs := movedRaw.value;
        record := record + [(csrc, cdst)];
      }
      fault := None;
    }

    /**
     * `ProcessData(path, range_data)`, given the sorted listing of `path`.
     * The matrix-only script has no range table.
     */
    method ProcessData(path: string, ranges: seq<Bound>, names: seq<string>,
                       barcode: string -> string, matrix: string -> string) returns (fault: Option<Fault>)
      requires Valid() && (flavor == MatrixOnly ==> ranges == [])
      modifies this
      ensures Valid() && initial == old(initial) && worked == old(worked) + [path]
      ensures Step(Current(), fault) == ProcessDir(flavor, old(Current()), path, names, ranges, barcode, matrix)
    {
      worked := worked + [path];
      var cr2s := ListFiles(fs, path, names, Raw);
      if cr2s.Err? {
        return Some(cr2s.error);
      }
      var images := ListFiles(fs, path, names, Images);
      if images.Err? {
        return Some(images.error);
      }
      fault := ProcessImageList(path, images.value, cr2s.value, ranges, barcode, matrix);
    }

    /** The loop of `ProcessData` over the images of `path`, in listing order. */
    method ProcessImageList(path: string, imgs: seq<string>, cr2s: seq<string>, ranges: seq<Bound>,
                            barcode: string -> string, matrix: string -> string) returns (fault: Option<Fault>)
      requires Valid()
      modifies this
      ensures Valid() && initial == old(initial) && worked == old(worked)
      ensures Step(Current(), fault) == ProcessImages(flavor, old(Current()), path, imgs, cr2s, ranges, barcode, matrix)
    {
      ghost var run0 := Current();
      var i := 0;
      while i < |imgs|
        invariant 0 <= i <= |imgs|
        invariant Valid() && initial == old(initial) && worked == old(worked)
        invariant Step(Current(), None) == ProcessImages(flavor, run0, path, imgs[..i], cr2s, ranges, barcode, matrix)
      {
        assert imgs[..i + 1][..i] == imgs[..i];
        fault := ProcessImage(path, imgs[i], cr2s, ranges, barcode, matrix);
        if fault.Some? {
          ImagesFaultPersists(flavor, run0, path, imgs, i + 1, cr2s, ranges, barcode, matrix);
          return;
        }
        i := i + 1;
      }
      assert imgs[..i] == imgs;
      fault := None;
    }

    /**
     * `RecursiveProcessData(path)`: every subdirectory first, in listing
     * order, then the directory itself, always without a range table. The
     * directories are those of the initial file system, which renaming
     * files never changes.
     */
    method RecursiveProcessData(path: string, listing: string -> seq<string>,
                                barcode: string -> string, matrix: string -> string, ghost dirs: set<string>)
      returns (fault: Option<Fault>)
      requires Valid() && dirs == Dirs(initial)
      modifies this
      ensures Valid() && initial == old(initial)
      ensures Step(Current(), fault) == WalkRun(flavor, old(Current()), Walk(dirs, listing, path), listing, barcode, matrix)
      ensures fault.None? ==> worked == old(worked) + Walk(dirs, listing, path)
      decreases Measure(dirs, path), 1
    {
      ghost var run0 := Current();
      ApplyKeepsDirs(initial, record);
      var subs := GetDirs(fs, path, listing(path));
      assert Walk(dirs, listing, path) == WalkAll(dirs, listing, path, subs) + [path];
      fault := ProcessSubdirs(path, subs, listing, barcode, matrix, dirs);
      DirAfterSubdirs(flavor, run0, WalkAll(dirs, listing, path, subs), path, Step(Current(), fault), listing, barcode, matrix);
      if fault.Some? {
        return;
      }
      fault := ProcessData(path, [], listing(path), barcode, matrix);
    }

    /** The loop of `RecursiveProcessData` over the subdirectories of `path`. */
    method ProcessSubdirs(path: string, subs: seq<string>, listing: string -> seq<string>,
                          barcode: string -> string, matrix: string -> string, ghost dirs: set<string>)
      returns (fault: Option<Fault>)
      requires Valid() && dirs == Dirs(initial)
      requires forall s :: s in subs ==> path + s in dirs
      modifies this
      ensures Valid() && initial == old(initial)
      ensures Step(Current(), fault) == WalkRun(flavor, old(Current()), WalkAll(dirs, listing, path, subs), listing, barcode, matrix)
      ensures fault.None? ==> worked == old(worked) + WalkAll(dirs, listing, path, subs)
      decreases Measure(dirs, path), 0
    {
      ghost var run0 := Current();
      fault := None;
      var i := 0;
      while i < |subs|
        invariant 0 <= i <= |subs| && fault.None?
        invariant Valid() && initial == old(initial)
        invariant worked == old(worked) + WalkAll(dirs, listing, path, subs[..i])
        invariant Step(Current(), None) == WalkRun(flavor, run0, WalkAll(dirs, listing, path, subs[..i]), listing, barcode, matrix)
      {
        WalkAllStep(dirs, listing, path, subs, i);
        MeasureDrops(dirs, path, subs[i]);
        ghost var before := Current();
        fault := RecursiveProcessData(path + subs[i] + "/", listing, barcode, matrix, dirs);
        SubdirWalkStep(flavor, run0, dirs, listing, path, subs, i, before, Step(Current(), fault), barcode, matrix);
        if fault.Some? {
          return;
        }
        ConcatAssoc(old(worked), WalkAll(dirs, listing, path, subs[..i]), Walk(dirs, listing, path + subs[i] + "/"));
        i := i + 1;
      }
      assert subs[..i] == subs;
    }

    /**
     * `Undo`: renames each new path back to its old path in record order.
     * On a record of distinct paths that overwrote nothing, this restores
     * the initial file system.
     */
    method Undo() returns (fault: Option<Fault>)
      requires Valid()
      modifies this
      ensures record == old(record) && occurrences == old(occurrences) && initial == old(initial) && worked == old(worked)
      ensures var a := Apply(old(fs), Inverted(record));
        fs == a.fs && (fault.None? <==> a.failed.None?)
        && (a.failed.Some? ==> fault == Some(RenameFailed(a.failed.value.0, a.failed.value.1)))
      ensures Disjoint(record) && NewPathsFresh(record, initial) ==> fault.None? && fs == initial
    {
      ghost var fs0 := fs;
      if Disjoint(record) && NewPathsFresh(record, initial) {
        UndoRestores(initial, record, fs0);
      }
      var i := 0;
      while i < |record|
        invariant 0 <= i <= |record|
        invariant record == old(record) && occurrences == old(occurrences) && initial == old(initial) && worked == old(worked)
        invariant Apply(fs0, Inverted(record[..i])) == Applied(fs, None)
      {
        var (oldPath, newPath) := record[i];
        UndoStep(fs0, record, i, fs);
        var moved := Rename(fs, newPath, oldPath);
        if moved.None? {
          UndoFaultPersists(fs0, record, i);
          return Some(RenameFailed(newPath, oldPath));
        }
        fs := moved.value;
        i := i + 1;
      }
      assert record[..i] == record;
      fault := None;
    }

    /**
     * `Log(path)`: writes the header and one line per recorded rename to the
     * first free name among `base.csv`, `base_1.csv`, ...; nothing that
     * existed is overwritten.
     */
    method Log(path: string, year: nat, month: nat, day: nat) returns (name: string)
      modifies this
      ensures var base := LogBase(path, year, month, day);
        name !in old(fs) && exists k: nat :: name == Candidate(base, k) && forall i :: 0 <= i < k ==> Candidate(base, i) in old(fs)
      ensures fs == old(fs)[name := File(LogText(record))]
      ensures record == old(record) && occurrences == old(occurrences) && initial == old(initial) && worked == old(worked)
    {
      var num;
      name, num := ChooseLogName(fs, LogBase(path, year, month, day));
      fs := fs[name := File(LogText(record))];
    }
  }

  lemma WalkAllStep(dirs: set<string>, listing: string -> seq<string>, path: string, subs: seq<string>, i: nat)
    requires i < |subs| && forall s :: s in subs ==> path + s in dirs
    ensures WalkAll(dirs, listing, path, subs[..i + 1]) == WalkAll(dirs, listing, path, subs[..i]) + Walk(dirs, listing, path + subs[i] + "/")
  {
    assert subs[..i + 1][..i] == subs[..i];
  }

  /** One subdirectory's walk extends the walk of those before it, or ends the whole loop on a fault. */
  lemma SubdirWalkStep(flavor: Flavor, run0: Run, dirs: set<string>, listing: string -> seq<string>,
                       path: string, subs: seq<string>, i: nat, before: Run, after: Step,
                       barcode: string -> string, matrix: string -> string)
    requires i < |subs| && forall s :: s in subs ==> path + s in dirs
    requires Step(before, None) == WalkRun(flavor, run0, WalkAll(dirs, listing, path, subs[..i]), listing, barcode, matrix)
    requires after == WalkRun(flavor, before, Walk(dirs, listing, path + subs[i] + "/"), listing, barcode, matrix)
    ensures after.fault.None? ==> after == WalkRun(flavor, run0, WalkAll(dirs, listing, path, subs[..i + 1]), listing, barcode, matrix)
    ensures after.fault.Some? ==> after == WalkRun(flavor, run0, WalkAll(dirs, listing, path, subs), listing, barcode, matrix)
  {
    WalkAllStep(dirs, listing, path, subs, i);
    WalkRunConcat(flavor, run0, WalkAll(dirs, listing, path, subs[..i]), Walk(dirs, listing, path + subs[i] + "/"),
                  listing, barcode, matrix);
    if after.fault.Some? {
      WalkAllFaultPersists(flavor, run0, dirs, listing, path, subs, i + 1, barcode, matrix);
    }
  }

  /** A directory worked after the walks below it: nothing more after a fault, otherwise `ProcessData` without a range table. */
  lemma DirAfterSubdirs(flavor: Flavor, run0: Run, below: seq<string>, path: string, mid: Step,
                        listing: string -> seq<string>, barcode: string -> string, matrix: string -> string)
    requires mid == WalkRun(flavor, run0, below, listing, barcode, matrix)
    ensures mid.fault.Some? ==> WalkRun(flavor, run0, below + [path], listing, barcode, matrix) == mid
    ensures mid.fault.None? ==> WalkRun(flavor, run0, below + [path], listing, barcode, matrix)
                                == ProcessDir(flavor, mid.run, path, listing(path), [], barcode, matrix)
  {
    WalkRunConcat(flavor, run0, below, [path], listing, barcode, matrix);
    assert [path][..0] == [];
  }

  /** A rename that succeeds extends the replay of a record by one entry. */
  lemma ReplayOne(fs0: Fs, record: seq<Pair>, fs: Fs, p: Pair, fs1: Fs)
    requires Apply(fs0, record) == Applied(fs, None) && Rename(fs, p.0, p.1) == Some(fs1)
    ensures Apply(fs0, record + [p]) == Applied(fs1, None)
  {
    ApplyConcat(fs0, record, [p]);
    assert Apply(fs1, []) == Applied(fs1, None);
  }

  /** One more iteration of the undo loop: the next entry, reversed. */
  lemma UndoStep(fs0: Fs, record: seq<Pair>, i: nat, fs: Fs)
    requires i < |record| && Apply(fs0, Inverted(record[..i])) == Applied(fs, None)
    ensures var p := (record[i].1, record[i].0);
      Apply(fs0, Inverted(record[..i + 1])) ==
        match Rename(fs, p.0, p.1)
        case None => Applied(fs, Some(p))
        case Some(fs1) => Applied(fs1, None)
  {
    var p := (record[i].1, record[i].0);
    assert Inverted(record[..i + 1]) == Inverted(record[..i]) + [p];
    ApplyConcat(fs0, Inverted(record[..i]), [p]);
    match Rename(fs, p.0, p.1)
    case None =>
    case Some(fs1) => assert Apply(fs1, []) == Applied(fs1, None);
  }

  /** Of three records each extending the one before, the newest ends with what each step added. */
  lemma SliceSplit<T>(x: seq<T>, a: seq<T>, b: seq<T>)
    requires |a| <= |b| <= |x| && b[..|a|] == a && x[..|b|] == b
    ensures x[..|a|] == a
    ensures x[|a|..] == b[|a|..] + x[|b|..]
  {
    assert x[..|a|] == x[..|b|][..|a|];
    assert b[|a|..] == x[|a|..|b|];
  }

  /** Concatenation regrouped. */
  lemma ConcatAssoc<T>(a: seq<T>, b: seq<T>, c: seq<T>)
    ensures a + b + c == a + (b + c)
  {
  }

  /** Once an undo rename has failed, the rest of the record is not attempted. */
  lemma UndoFaultPersists(fs0: Fs, record: seq<Pair>, i: nat)
    requires i < |record| && Apply(fs0, Inverted(record[..i + 1])).failed.Some?
    ensures Apply(fs0, Inverted(record)) == Apply(fs0, Inverted(record[..i + 1]))
  {
    var a := Inverted(record[..i + 1]);
    var b := Inverted(record[i + 1..]);
    assert Inverted(record) == a + b;
    ApplyFailedPrefix(fs0, a, b);
  }

  lemma {:induction false} ApplyFailedPrefix(fs: Fs, a: seq<Pair>, b: seq<Pair>)
    requires Apply(fs, a).failed.Some?
    ensures Apply(fs, a + b) == Apply(fs, a)
    decreases |a|
  {
    assert a != [];
    assert (a + b)[0] == a[0];
    assert (a + b)[1..] == a[1..] + b;
    match Rename(fs, a[0].0, a[0].1)
    case None =>
    case Some(fs1) => ApplyFailedPrefix(fs1, a[1..], b);
  }
}
