/**
 * The range table of dm_reader.py: inclusive intervals of image numbers, each
 * tagged with a genus and a specific epithet, read from the `ImageStart`,
 * `ImageStop`, `genus` and `specificEpithet` columns, and the lookup that
 * gates each image by the number in its file name.
 */
module RangeTable {
  import opened Wrappers
  import opened Text

  /** One row of the range table (class `Bound`). */
  datatype Bound = Bound(lower: int, upper: int, genus: string, specificEpithet: string)

  /** `Bound.should_contain`: the bound is an inclusive interval. */
  function ShouldContain(b: Bound, num: int): (r: bool)
    ensures r <==> b.lower <= num <= b.upper
  {
    if num < b.lower || num > b.upper then false else true
  }

  /**
   * `int(''.join(filter(str.isdigit, token)))`: the digits of the token, in
   * order, read as one decimal number; None where Python raises ValueError
   * because the token holds no digit.
   */
  function BoundValue(token: string): Option<nat> {
    var d := Digits(token);
    if d == [] then None else Some(DecimalValue(d))
  }

  /** A token fails to parse exactly when it holds no digit character. */
  lemma BoundValueDefined(token: string)
    ensures BoundValue(token).None? <==> forall i :: 0 <= i < |token| ==> !IsDigit(token[i])
  {
    DigitsEmpty(token);
  }

  /** Non-digit characters anywhere in the token are ignored. */
  lemma BoundValueIgnoresSeparator(a: string, c: char, b: string)
    requires !IsDigit(c)
    ensures BoundValue(a + [c] + b) == BoundValue(a + b)
  {
    DigitsSplit(a + [c], b);
    DigitsSplit(a, [c]);
    DigitsSplit(a, b);
    assert [c][1..] == [];
    assert Digits([c]) == [];
    assert Digits(a + [c]) == Digits(a);
  }

  /** A printed number is read back as itself. */
  lemma BoundValueOfNumber(n: nat)
    ensures BoundValue(NatToString(n)) == Some(n)
  {
    DigitsOfDigits(NatToString(n));
    NatToStringValue(n);
  }

  /** One range-table row becomes a bound (dm_reader.py `main`; None where it raises ValueError). */
  function RowToBound(imageStart: string, imageStop: string, genus: string, specificEpithet: string): (r: Option<Bound>)
    ensures r.Some? <==> BoundValue(imageStart).Some? && BoundValue(imageStop).Some?
    ensures r.Some? ==> r.value.lower == BoundValue(imageStart).value && r.value.upper == BoundValue(imageStop).value
    ensures r.Some? ==> r.value.genus == genus && r.value.specificEpithet == specificEpithet
  {
    match (BoundValue(imageStart), BoundValue(imageStop))
    case (Some(lo), Some(hi)) => Some(Bound(lo, hi, genus, specificEpithet))
    case _ => None
  }

  /**
   * Length of a duplicate marker `(digits)` at the start of `s`, or 0. The
   * regular expression `\(\d+\)` matches at a position exactly when a `(` is
   * followed by a non-empty run of digits and then `)`: a shorter run is
   * followed by a digit, never by `)`.
   */
  function MarkerLength(s: string): nat {
    if s != [] && s[0] == '(' then
      var k := DigitRun(s[1..]);
      if k > 0 && 1 + k < |s| && s[1 + k] == ')' then k + 2 else 0
    else 0
  }

  /** Length of the run of digits that starts `s`. */
  function DigitRun(s: string): (k: nat)
    ensures k <= |s|
    ensures forall i :: 0 <= i < k ==> IsDigit(s[i])
    ensures k < |s| ==> !IsDigit(s[k])
  {
    if s != [] && IsDigit(s[0]) then 1 + DigitRun(s[1..]) else 0
  }

  /** `re.sub(r"\(\d+\)", "", s)`: removes every duplicate marker, scanning left to right. */
  function StripDuplicateMarkers(s: string): string
    decreases |s|
  {
    if s == [] then []
    else if MarkerLength(s) > 0 then StripDuplicateMarkers(s[MarkerLength(s)..])
    else [s[0]] + StripDuplicateMarkers(s[1..])
  }

  /** Text without `(` holds no marker and is left as it is. */
  lemma {:induction false} StripWithoutParen(s: string)
    requires '(' !in s
    ensures StripDuplicateMarkers(s) == s
  {
    if s != [] {
      StripWithoutParen(s[1..]);
      assert s == [s[0]] + s[1..];
    }
  }

  /** A leading marker is dropped and the scan continues after it. */
  lemma StripLeadingMarker(m: string, rest: string)
    requires m != [] && AllDigits(m)
    ensures StripDuplicateMarkers("(" + m + ")" + rest) == StripDuplicateMarkers(rest)
  {
    var s := "(" + m + ")" + rest;
    assert s[1..] == m + ")" + rest;
    DigitRunOf(m, ")" + rest);
    assert s[1 + |m|] == ')';
    assert MarkerLength(s) == |m| + 2;
    assert s[|m| + 2..] == rest;
  }

  lemma {:induction false} DigitRunOf(m: string, rest: string)
    requires AllDigits(m) && (rest == [] || !IsDigit(rest[0]))
    ensures DigitRun(m + rest) == |m|
  {
    if m != [] {
      assert (m + rest)[1..] == m[1..] + rest;
      DigitRunOf(m[1..], rest);
    } else {
      assert m + rest == rest;
    }
  }

  /**
   * The number a file name carries once its duplicate markers are gone
   * (`int(''.join(filter(str.isdigit, re.sub(...).strip())))`). Stripping
   * surrounding whitespace removes no digit, so it does not appear here.
   */
  function ImageNumber(image: string): Option<nat> {
    BoundValue(StripDuplicateMarkers(image))
  }

  /**
   * A duplicate marker after the number is ignored: `0001500(1).jpg` is
   * looked up as 1500, not 15001.
   */
  lemma ImageNumberIgnoresMarker(number: string, m: string, ext: string)
    requires number != [] && AllDigits(number) && AllDigits(m) && m != []
    requires '(' !in ext && forall i :: 0 <= i < |ext| ==> !IsDigit(ext[i])
    ensures ImageNumber(number + "(" + m + ")" + ext) == Some(DecimalValue(number))
  {
    StripNumberThenMarker(number, m, ext);
    StripWithoutParen(ext);
    DigitsSplit(number, ext);
    DigitsOfDigits(number);
    DigitsEmpty(ext);
    assert Digits(ext) == [];
    assert Digits(number + ext) == number;
    assert StripDuplicateMarkers(number + "(" + m + ")" + ext) == number + ext;
  }

  lemma {:induction false} StripNumberThenMarker(number: string, m: string, ext: string)
    requires AllDigits(number) && AllDigits(m) && m != []
    ensures StripDuplicateMarkers(number + "(" + m + ")" + ext) == number + StripDuplicateMarkers(ext)
  {
    if number == [] {
      assert number + "(" + m + ")" + ext == "(" + m + ")" + ext;
      StripLeadingMarker(m, ext);
    } else {
      var s := number + "(" + m + ")" + ext;
      assert s[0] == number[0] && s[0] != '(';
      assert s[1..] == number[1..] + "(" + m + ")" + ext;
      StripNumberThenMarker(number[1..], m, ext);
      assert number == [number[0]] + number[1..];
    }
  }

  /**
   * Index of the first bound, in table order, that contains `num`; None when
   * no bound does. Overlapping bounds are resolved by order, not by width.
   */
  function FirstContaining(bounds: seq<Bound>, num: int): (r: Option<nat>)
    ensures r.Some? ==> r.value < |bounds| && ShouldContain(bounds[r.value], num)
    ensures r.Some? ==> forall j :: 0 <= j < r.value ==> !ShouldContain(bounds[j], num)
    ensures r.None? <==> forall j :: 0 <= j < |bounds| ==> !ShouldContain(bounds[j], num)
  {
    if bounds == [] then None
    else if ShouldContain(bounds[0], num) then Some(0)
    else match FirstContaining(bounds[1..], num)
      case None => None
      case Some(k) => Some(k + 1)
  }

  /**
   * The inner loop of `ProcessData` over `range_data`: `shouldSkip` ends true
   * exactly when the table is non-empty and no bound contains the number;
   * otherwise the taxon comes from the first containing bound.
   */
  method SelectBound(bounds: seq<Bound>, num: int) returns (shouldSkip: bool, taxon: Option<Bound>)
    ensures shouldSkip <==> |bounds| > 0 && FirstContaining(bounds, num).None?
    ensures taxon.Some? <==> FirstContaining(bounds, num).Some?
    ensures taxon.Some? ==> taxon.value == bounds[FirstContaining(bounds, num).value]
  {
    shouldSkip, taxon := false, None;
    var i := 0;
    while i < |bounds|
      invariant 0 <= i <= |bounds|
      invariant forall j :: 0 <= j < i ==> !ShouldContain(bounds[j], num)
      invariant shouldSkip <==> i > 0
      invariant taxon == None
    {
      if ShouldContain(bounds[i], num) {
        shouldSkip := false;
        taxon := Some(bounds[i]);
        return;
      } else {
        shouldSkip := true;
      }
      i := i + 1;
    }
  }
}
