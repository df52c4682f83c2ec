/**
 * How dm_reader.py and dm_only.py turn decoder text into a base name and a
 * view suffix: the clean-up of decoder artefacts, the specimen id taken
 * from the second `_`-separated token, the lateral test and the per-id
 * occurrence counter that picks `_D`, `_V` or `_MANUAL`.
 */
module Naming {
  import opened Wrappers
  import opened Text
  import opened RangeTable

  /** The two Python scripts: dm_reader.py (range table, barcode first) and dm_only.py (matrix only). */
  datatype Flavor = Reader | MatrixOnly

  /** One pass of `.replace("b'", '').replace(' ', '_').replace('\'', '')`. */
  function Clean(s: string): string {
    Replace(Replace(Replace(s, "b'", ""), " ", "_"), "'", "")
  }

  /** After one pass no space and no quote is left. */
  lemma CleanLeavesNoSpaceOrQuote(s: string)
    ensures ' ' !in Clean(s) && '\'' !in Clean(s)
  {
    var t1 := Replace(s, "b'", "");
    var t2 := Replace(t1, " ", "_");
    ReplaceRemovesChar(t1, ' ', "_");
    ReplaceRemovesChar(t2, '\'', "");
    ReplaceNoNewChar(t2, "'", "", ' ');
  }

  /** The second pass in the source changes nothing: cleaning is idempotent. */
  lemma CleanIdempotent(s: string)
    ensures Clean(Clean(s)) == Clean(s)
  {
    var t := Clean(s);
    CleanLeavesNoSpaceOrQuote(s);
    if Contains(t, "b'") {
      ContainsHasChars(t, "b'", 1);
    }
    ReplaceAbsent(t, "b'", "");
    ContainsChar(t, ' ');
    ReplaceAbsent(t, " ", "_");
    ContainsChar(t, '\'');
    ReplaceAbsent(t, "'", "");
  }

  /**
   * Python's `int(token)` for a token split on `_` (so it holds no
   * underscore): surrounding whitespace, an optional sign, then ASCII
   * digits. None where Python raises ValueError.
   */
  function PyInt(token: string): (r: Option<int>)
    ensures r.Some? ==> Trim(token, IsPythonSpace) != []
  {
    var t := Trim(token, IsPythonSpace);
    if t == [] then None
    else if (t[0] == '+' || t[0] == '-') && |t| > 1 && AllDigits(t[1..]) then
      var v: int := DecimalValue(t[1..]);
      Some(if t[0] == '-' then -v else v)
    else if AllDigits(t) then Some(DecimalValue(t))
    else None
  }

  /**
   * `int` accepts a token exactly when, stripped of whitespace, it is one
   * or more ASCII digits, optionally after a `+` or `-`; the value is that
   * of the digits, negated after `-`.
   */
  lemma {:induction false} PyIntAccepts(token: string)
    ensures var t := Trim(token, IsPythonSpace);
      PyInt(token).Some? <==>
        (t != [] && AllDigits(t)) || (|t| > 1 && (t[0] == '+' || t[0] == '-') && AllDigits(t[1..]))
    ensures var t := Trim(token, IsPythonSpace);
      PyInt(token).Some? ==>
        PyInt(token).value == if t[0] == '-' then -(DecimalValue(t[1..]) as int)
                              else if t[0] == '+' then DecimalValue(t[1..])
                              else DecimalValue(t)
  {
    var t := Trim(token, IsPythonSpace);
    if t != [] && (t[0] == '+' || t[0] == '-') {
      assert !IsDigit(t[0]);
    }
  }

  /** A bare run of ASCII digits reads as its decimal value. */
  lemma {:induction false} PyIntOfDigits(d: string)
    requires d != [] && AllDigits(d)
    ensures PyInt(d) == Some(DecimalValue(d))
  {
    TrimPlainDigits(d);
  }

  /** A run of ASCII digits after `-` reads as minus its value, after `+` as its value. */
  lemma {:induction false} PyIntSigned(sign: char, d: string)
    requires sign == '-' || sign == '+'
    requires d != [] && AllDigits(d)
    ensures PyInt([sign] + d) == Some(if sign == '-' then -(DecimalValue(d) as int) else DecimalValue(d))
  {
    var t := [sign] + d;
    assert t[|t| - 1] == d[|d| - 1];
    assert !IsPythonSpace(t[0]) && !IsPythonSpace(t[|t| - 1]);
    assert Trim(t, IsPythonSpace) == t;
    assert t[1..] == d;
  }

  /** `int` reads back what `str` prints. */
  lemma {:induction false} PyIntOfNumber(n: nat)
    ensures PyInt(NatToString(n)) == Some(n)
  {
    NatToStringValue(n);
    PyIntOfDigits(NatToString(n));
  }

  /** `int(new_name.split('_')[1])`; None where Python raises IndexError or ValueError. */
  function ScannedId(name: string): Option<int> {
    match Segment(name, '_', 1)
    case None => None
    case Some(token) => PyInt(token)
  }

  lemma {:induction false} SplitAfterToken(a: string, sep: char, b: string)
    requires sep !in a
    ensures Split(a + [sep] + b, sep) == [a] + Split(b, sep)
  {
    if a == [] {
      assert a + [sep] + b == [sep] + b;
      assert ([sep] + b)[1..] == b;
    } else {
      assert (a + [sep] + b)[1..] == a[1..] + [sep] + b;
      SplitAfterToken(a[1..], sep, b);
      assert a == [a[0]] + a[1..];
    }
  }

  lemma {:induction false} TrimPlainDigits(d: string)
    requires d != [] && AllDigits(d)
    ensures Trim(d, IsPythonSpace) == d
  {
    assert !IsPythonSpace(d[0]) && !IsPythonSpace(d[|d| - 1]);
  }

  /** The first piece of `d + rest` is `d` when `rest` is empty or starts with the separator. */
  lemma {:induction false} FirstPiece(d: string, sep: char, rest: string)
    requires sep !in d && (rest == [] || rest[0] == sep)
    ensures Split(d + rest, sep)[0] == d
  {
    if d == [] {
      assert d + rest == rest;
    } else {
      assert (d + rest)[1..] == d[1..] + rest;
      FirstPiece(d[1..], sep, rest);
      assert d == [d[0]] + d[1..];
    }
  }

  /**
   * Decoded text `<code>_<digits>` followed by nothing or by `_<more>`
   * yields the digits' value as the id. The first token is not compared
   * with `MGCL` here: only the presence of `MGCL` anywhere in the decoder
   * output is checked.
   */
  lemma ScannedIdOfToken(code: string, d: string, rest: string)
    requires '_' !in code && d != [] && AllDigits(d)
    requires rest == [] || rest[0] == '_'
    ensures ScannedId(code + "_" + d + rest) == Some(DecimalValue(d))
  {
    assert '_' !in d by {
      forall i | 0 <= i < |d| ensures d[i] != '_' { assert IsDigit(d[i]); }
    }
    assert code + "_" + d + rest == code + ['_'] + (d + rest);
    SplitAfterToken(code, '_', d + rest);
    FirstPiece(d, '_', rest);
    assert Segment(code + "_" + d + rest, '_', 1) == Some(d);
    TrimPlainDigits(d);
  }

  /** `new_name += "_{}_{}".format(genus, species)` when a bound supplied the taxon. */
  function WithTaxon(base: string, taxon: Option<Bound>): (r: string)
    ensures taxon.None? ==> r == base
    ensures taxon.Some? ==> r == base + "_" + taxon.value.genus + "_" + taxon.value.specificEpithet
  {
    match taxon
    case None => base
    case Some(b) => base + "_" + b.genus + "_" + b.specificEpithet
  }

  /**
   * The lateral test on the lower-cased name (with any taxon appended):
   * dm_reader.py looks for `lateral`, `lat` or `_l`, dm_only.py for
   * `lateral` or `lat`.
   */
  predicate IsLateral(flavor: Flavor, name: string) {
    var low := Lower(name);
    match flavor
    case Reader => Contains(low, "lateral") || Contains(low, "lat") || Contains(low, "_l")
    case MatrixOnly => Contains(low, "lateral") || Contains(low, "lat")
  }

  /** `lateral` is subsumed by `lat`: the tests reduce to `lat` (and `_l` for dm_reader.py). */
  lemma LateralTests(name: string)
    ensures IsLateral(MatrixOnly, name) <==> Contains(Lower(name), "lat")
    ensures IsLateral(Reader, name) <==> Contains(Lower(name), "lat") || Contains(Lower(name), "_l")
    ensures IsLateral(MatrixOnly, name) ==> IsLateral(Reader, name)
  {
    if Contains(Lower(name), "lateral") {
      assert "lateral" == "lat" + "eral";
      ContainsPrefixOfPattern(Lower(name), "lat", "eral");
    }
  }

  /** The view suffix for the n-th non-lateral image of one id. */
  function Suffix(n: nat): string {
    if n == 1 then "_D" else if n == 2 then "_V" else "_MANUAL"
  }

  /**
   * The naming decision for one image: a lateral name gets `_L` and leaves
   * the counter alone (the two `replace` calls in the source discard their
   * results, so `lat`/`eral` stay in the name); any other name bumps the
   * counter of its id and takes the suffix for the new count.
   */
  function Designate(flavor: Flavor, base: string, id: int, occurrences: map<int, nat>): (string, map<int, nat>) {
    if IsLateral(flavor, base) then (base + "_L", occurrences)
    else
      var n := if id in occurrences then occurrences[id] + 1 else 1;
      (base + Suffix(n), occurrences[id := n])
  }

  /** A lateral image gets exactly the base plus `_L` and no counter changes. */
  lemma DesignateLateral(flavor: Flavor, base: string, id: int, occurrences: map<int, nat>)
    requires IsLateral(flavor, base)
    ensures Designate(flavor, base, id, occurrences) == (base + "_L", occurrences)
  {
  }

  /**
   * A non-lateral image raises its id's count by one (from 0 when absent),
   * takes `_D`, `_V` or `_MANUAL` for counts 1, 2 and 3 or more, and leaves
   * every other id as it was.
   */
  lemma DesignateCounts(flavor: Flavor, base: string, id: int, occurrences: map<int, nat>)
    requires !IsLateral(flavor, base)
    ensures var (name, occ) := Designate(flavor, base, id, occurrences);
      && id in occ && occ[id] == (if id in occurrences then occurrences[id] else 0) + 1
      && occ.Keys == occurrences.Keys + {id}
      && (forall k :: k in occurrences && k != id ==> occ[k] == occurrences[k])
      && name == base + (if occ[id] == 1 then "_D" else if occ[id] == 2 then "_V" else "_MANUAL")
  {
  }

  /**
   * Four successive non-lateral images of one specimen, starting from an id
   * not yet seen, are named `_D`, `_V`, `_MANUAL`, `_MANUAL`; lateral images
   * in between would not change this.
   */
  lemma DorsalVentralManual(flavor: Flavor, bases: seq<string>, id: int, occ0: map<int, nat>)
    requires |bases| == 4 && id !in occ0
    requires forall i :: 0 <= i < 4 ==> !IsLateral(flavor, bases[i])
    ensures var (n1, o1) := Designate(flavor, bases[0], id, occ0);
      var (n2, o2) := Designate(flavor, bases[1], id, o1);
      var (n3, o3) := Designate(flavor, bases[2], id, o2);
      var (n4, o4) := Designate(flavor, bases[3], id, o3);
      n1 == bases[0] + "_D" && n2 == bases[1] + "_V" && n3 == bases[2] + "_MANUAL" && n4 == bases[3] + "_MANUAL"
      && o4 == occ0[id := 4]
  {
    var (n1, o1) := Designate(flavor, bases[0], id, occ0);
    assert o1 == occ0[id := 1];
    var (n2, o2) := Designate(flavor, bases[1], id, o1);
    assert o2 == occ0[id := 2];
    var (n3, o3) := Designate(flavor, bases[2], id, o2);
    assert o3 == occ0[id := 3];
  }
}
