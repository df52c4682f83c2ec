/**
 * The file system as the renaming engine sees it: a map from path to entry,
 * `os.rename` / `std::fs::rename` on files, a batch of renames applied in
 * order, and the undo of a rename record.
 */
module FileSystem {
  import opened Wrappers

  datatype Entry = File(data: string) | Dir

  type Fs = map<string, Entry>

  /** One rename, old path first (an entry of `old_new_paths`). */
  type Pair = (string, string)

  predicate IsFile(fs: Fs, p: string) {
    p in fs && fs[p].File?
  }

  predicate IsDir(fs: Fs, p: string) {
    p in fs && fs[p].Dir?
  }

  function Dirs(fs: Fs): set<string> {
    set p | p in fs && fs[p].Dir?
  }

  /**
   * `os.rename(src, dst)` with a file as source, POSIX semantics: the file
   * moves to `dst`, replacing a file already there. None where Python
   * raises (no such file, or `dst` a directory).
   */
  function Rename(fs: Fs, src: string, dst: string): (r: Option<Fs>)
    ensures r.Some? <==> IsFile(fs, src) && !IsDir(fs, dst)
  {
    if !IsFile(fs, src) || IsDir(fs, dst) then None
    else if src == dst then Some(fs)
    else Some((fs - {src})[dst := fs[src]])
  }

  /** After a rename, `dst` holds the moved file, `src` is gone, and every other path is as it was. */
  lemma RenameEffect(fs: Fs, src: string, dst: string)
    requires Rename(fs, src, dst).Some?
    ensures forall k :: k in Rename(fs, src, dst).value <==> k == dst || (k in fs && k != src)
    ensures forall k :: k in Rename(fs, src, dst).value ==> Rename(fs, src, dst).value[k] == if k == dst then fs[src] else fs[k]
  {
  }

  /** Renaming files never creates, moves or removes a directory. */
  lemma RenameKeepsDirs(fs: Fs, src: string, dst: string)
    requires Rename(fs, src, dst).Some?
    ensures Dirs(Rename(fs, src, dst).value) == Dirs(fs)
  {
  }

  /** The outcome of a batch of renames: the final file system and the rename that failed, if any. */
  datatype Applied = Applied(fs: Fs, failed: Option<Pair>)

  /** Renames applied in order, stopping at the first that fails (the loop of `Undo`). */
  function Apply(fs: Fs, renames: seq<Pair>): Applied
    decreases |renames|
  {
    if renames == [] then Applied(fs, None)
    else match Rename(fs, renames[0].0, renames[0].1)
      case None => Applied(fs, Some(renames[0]))
      case Some(fs1) => Apply(fs1, renames[1..])
  }

  /** Running two batches back to back is running their concatenation. */
  lemma {:induction false} ApplyConcat(fs: Fs, a: seq<Pair>, b: seq<Pair>)
    requires Apply(fs, a).failed.None?
    ensures Apply(fs, a + b) == Apply(Apply(fs, a).fs, b)
    decreases |a|
  {
    if a == [] {
      assert a + b == b;
    } else {
      assert (a + b)[0] == a[0];
      assert (a + b)[1..] == a[1..] + b;
      ApplyConcat(Rename(fs, a[0].0, a[0].1).value, a[1..], b);
    }
  }

  /** A batch of successful renames leaves the set of directories as it was. */
  lemma {:induction false} ApplyKeepsDirs(fs: Fs, renames: seq<Pair>)
    ensures Dirs(Apply(fs, renames).fs) == Dirs(fs)
    decreases |renames|
  {
    if renames != [] {
      match Rename(fs, renames[0].0, renames[0].1)
      case None =>
      case Some(fs1) =>
        RenameKeepsDirs(fs, renames[0].0, renames[0].1);
        ApplyKeepsDirs(fs1, renames[1..]);
    }
  }

  /** The record read backwards pair by pair: `os.rename(new_path, old_path)`. */
  function Inverted(renames: seq<Pair>): (r: seq<Pair>)
    ensures |r| == |renames|
    ensures forall i :: 0 <= i < |r| ==> r[i] == (renames[i].1, renames[i].0)
  {
    seq(|renames|, i requires 0 <= i < |renames| => (renames[i].1, renames[i].0))
  }

  /** No path appears twice among all old and new paths of the record. */
  predicate Disjoint(renames: seq<Pair>) {
    forall i, j :: 0 <= i < |renames| && 0 <= j < |renames| ==>
      renames[i].0 != renames[j].1 && (i != j ==> renames[i].0 != renames[j].0 && renames[i].1 != renames[j].1)
  }

  /** No rename of the record overwrote a path that existed before it. */
  predicate NewPathsFresh(renames: seq<Pair>, fs: Fs) {
    forall i :: 0 <= i < |renames| ==> renames[i].1 !in fs
  }

  /** A path that neither existed nor is a target of the batch does not exist afterwards. */
  lemma {:induction false} ApplyAddsOnlyTargets(fs: Fs, renames: seq<Pair>, k: string)
    requires k !in fs && forall i :: 0 <= i < |renames| ==> renames[i].1 != k
    ensures k !in Apply(fs, renames).fs
    decreases |renames|
  {
    if renames != [] {
      match Rename(fs, renames[0].0, renames[0].1)
      case None =>
      case Some(fs1) =>
        ApplyAddsOnlyTargets(fs1, renames[1..], k);
    }
  }

  /**
   * A rename whose paths no later rename touches can be moved to the end of
   * the batch: the rest still succeeds without it, and then it succeeds.
   */
  lemma {:induction false} RenameCommutes(fs: Fs, p: Pair, m: Fs, rest: seq<Pair>, fs1: Fs)
    requires Rename(fs, p.0, p.1) == Some(m)
    requires Apply(m, rest) == Applied(fs1, None)
    requires forall i :: 0 <= i < |rest| ==> rest[i].0 != p.0 && rest[i].0 != p.1 && rest[i].1 != p.0 && rest[i].1 != p.1
    ensures Apply(fs, rest).failed.None?
    ensures Rename(Apply(fs, rest).fs, p.0, p.1) == Some(fs1)
    decreases |rest|
  {
    if rest == [] {
    } else {
      var q := rest[0];
      var m2 := Rename(m, q.0, q.1).value;
      var f2 := Rename(fs, q.0, q.1).value;
      var m3 := Rename(f2, p.0, p.1).value;
      assert m3 == m2;
      RenameCommutes(f2, p, m2, rest[1..], fs1);
    }
  }

  /** Renaming a moved file back restores the map, provided the target was new. */
  lemma RenameBack(x: Fs, p: Pair, fs1: Fs)
    requires Rename(x, p.0, p.1) == Some(fs1)
    requires p.0 != p.1 && p.1 !in x
    ensures Rename(fs1, p.1, p.0) == Some(x)
  {
    var back := Rename(fs1, p.1, p.0).value;
    assert back == x;
  }

  /** The tail of a disjoint record with fresh targets is one too. */
  lemma DisjointTail(renames: seq<Pair>, fs0: Fs)
    requires renames != [] && Disjoint(renames) && NewPathsFresh(renames, fs0)
    ensures Disjoint(renames[1..]) && NewPathsFresh(renames[1..], fs0)
    ensures forall i :: 0 <= i < |renames| - 1 ==>
      var q := renames[1..][i]; q.0 != renames[0].0 && q.0 != renames[0].1 && q.1 != renames[0].0 && q.1 != renames[0].1
  {
    var rest := renames[1..];
    forall i, j | 0 <= i < |rest| && 0 <= j < |rest|
      ensures rest[i].0 != rest[j].1 && (i != j ==> rest[i].0 != rest[j].0 && rest[i].1 != rest[j].1)
    {
      assert rest[i] == renames[i + 1] && rest[j] == renames[j + 1];
    }
    forall i | 0 <= i < |rest|
      ensures rest[i].1 !in fs0
      ensures rest[i].0 != renames[0].0 && rest[i].0 != renames[0].1 && rest[i].1 != renames[0].0 && rest[i].1 != renames[0].1
    {
      assert rest[i] == renames[i + 1];
    }
  }

  /**
   * Undo restores the file system: when every path of the record is
   * distinct and no rename overwrote an existing file, renaming each new
   * path back to its old path, in record order, succeeds at every step and
   * gives back the file system the record started from.
   */
  lemma {:induction false} UndoRestores(fs0: Fs, renames: seq<Pair>, fs1: Fs)
    requires Apply(fs0, renames) == Applied(fs1, None)
    requires Disjoint(renames) && NewPathsFresh(renames, fs0)
    ensures Apply(fs1, Inverted(renames)) == Applied(fs0, None)
    decreases |renames|
  {
    if renames != [] {
      var p := renames[0];
      var rest := renames[1..];
      var m := Rename(fs0, p.0, p.1).value;
      DisjointTail(renames, fs0);
      RenameCommutes(fs0, p, m, rest, fs1);
      var x := Apply(fs0, rest).fs;
      UndoRestores(fs0, rest, x);
      assert forall i :: 0 <= i < |rest| ==> rest[i].1 != p.1;
      ApplyAddsOnlyTargets(fs0, rest, p.1);
      RenameBack(x, p, fs1);
      var inv := Inverted(renames);
      assert inv[0] == (p.1, p.0);
      assert inv[1..] == Inverted(rest);
    }
  }
}
