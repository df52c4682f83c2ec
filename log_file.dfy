/**
 * The audit log of dm_reader.py and dm_only.py (`Log`): a dated base name,
 * the first of `base.csv`, `base_1.csv`, `base_2.csv`, ... that does not
 * exist, and its text, a header and one raw `old,new` line per rename.
 */
module LogFile {
  import opened Text
  import opened FileSystem

  /** `path + 'DMREAD_SCRIPT_LOG_' + str(year) + '_' + str(month) + '_' + str(day)`. */
  function LogBase(path: string, year: nat, month: nat, day: nat): string {
    path + "DMREAD_SCRIPT_LOG_" + NatToString(year) + "_" + NatToString(month) + "_" + NatToString(day)
  }

  /** The k-th name the loop of `Log` tries. */
  function Candidate(base: string, k: nat): string {
    if k == 0 then base + ".csv" else base + "_" + NatToString(k) + ".csv"
  }

  /** Different attempts try different names. */
  lemma CandidateInjective(base: string, i: nat, j: nat)
    requires Candidate(base, i) == Candidate(base, j)
    ensures i == j
  {
    if i > 0 && j > 0 {
      var s := Candidate(base, i);
      assert s == base + "_" + NatToString(i) + ".csv";
      assert s[|base| + 1..|s| - 4] == NatToString(i);
      assert s[|base| + 1..|s| - 4] == NatToString(j);
      NatToStringInjective(i, j);
    }
  }

  lemma NotTriedYet(base: string, tried: seq<string>, num: nat)
    requires |tried| == num && forall i :: 0 <= i < num ==> tried[i] == Candidate(base, i)
    ensures Candidate(base, num) !in tried
  {
    forall i | 0 <= i < num ensures tried[i] != Candidate(base, num) {
      if tried[i] == Candidate(base, num) { CandidateInjective(base, i, num); }
    }
  }

  lemma ShrinkUntried(keys: set<string>, seen: set<string>, c: string)
    requires c in keys && c !in seen
    ensures |keys - (seen + {c})| < |keys - seen|
  {
    assert keys - seen == (keys - (seen + {c})) + {c};
  }

  /**
   * The name-selection loop of `Log`, with its own variables: `filename`
   * gains one `_` on the first collision and `count` holds `str(num)`. The
   * chosen name is the first candidate that does not exist, so an existing
   * file is never chosen.
   */
  method ChooseLogName(fs: Fs, base: string) returns (name: string, num: nat)
    ensures name == Candidate(base, num) && name !in fs
    ensures forall i :: 0 <= i < num ==> Candidate(base, i) in fs
  {
    var filename := base;
    var count := "";
    num := 0;
    ghost var tried: seq<string> := [];
    ghost var seen: set<string> := {};
    while filename + count + ".csv" in fs
      invariant filename == (if num == 0 then base else base + "_")
      invariant count == (if num == 0 then "" else NatToString(num))
      invariant filename + count + ".csv" == Candidate(base, num)
      invariant |tried| == num && forall i :: 0 <= i < num ==> tried[i] == Candidate(base, i)
      invariant forall s :: s in seen <==> s in tried
      invariant seen <= fs.Keys
      decreases |fs.Keys - seen|
    {
      var c := filename + count + ".csv";
      NotTriedYet(base, tried, num);
      ShrinkUntried(fs.Keys, seen, c);
      tried := tried + [c];
      seen := seen + {c};
      if num == 0 {
        filename := filename + "_";
      }
      num := num + 1;
      count := NatToString(num);
    }
    if num == 0 {
      name := filename + ".csv";
    } else {
      name := filename + count + ".csv";
    }
  }

  /** The rows under the header: `old_path + ',' + new_path + '\n'` for each rename, in record order. */
  function LogRows(record: seq<Pair>): string {
    if record == [] then "" else record[0].0 + "," + record[0].1 + "\n" + LogRows(record[1..])
  }

  function LogText(record: seq<Pair>): string {
    "Old Path,New Path\n" + LogRows(record)
  }
}
