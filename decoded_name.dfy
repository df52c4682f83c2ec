/**
 * `convert_decoded_to_name` of src/lib.rs: the leftmost match of
 * `(.*?)MGCL\s?[0-9]{7,8}` decides where the kept text starts, and the kept
 * text is trimmed and tidied into a file-name stem.
 */
module DecodedName {
  import opened Wrappers
  import opened Text

  /** `[0-9]{n}` at index `i`: ASCII digits only. */
  predicate DigitsAt(s: string, i: nat, n: nat) {
    i + n <= |s| && forall k :: i <= k < i + n ==> IsDigit(s[k])
  }

  /**
   * `MGCL\s?[0-9]{7,8}` matches at index `q`; `\s` is Unicode white space,
   * and the optional eighth digit is never needed for a match to exist.
   */
  predicate PatternAt(s: string, q: nat) {
    q + 4 <= |s| && s[q..q + 4] == "MGCL"
    && (DigitsAt(s, q + 4, 7) || (q + 4 < |s| && IsRustSpace(s[q + 4]) && DigitsAt(s, q + 5, 7)))
  }

  /** The first index at or after `i` where the pattern matches. */
  function FirstPatternFrom(s: string, i: nat): (r: Option<nat>)
    ensures r.Some? ==> i <= r.value && PatternAt(s, r.value) && forall q :: i <= q < r.value ==> !PatternAt(s, q)
    ensures r.None? ==> forall q :: i <= q ==> !PatternAt(s, q)
    decreases |s| - i
  {
    if i + 4 > |s| then None
    else if PatternAt(s, i) then Some(i)
    else FirstPatternFrom(s, i + 1)
  }

  /** The start of the line holding index `q`: `.` matches anything but a newline. */
  function LineStart(s: string, q: nat): (p: nat)
    requires q <= |s|
    ensures p <= q && (p == 0 || s[p - 1] == '\n') && forall k :: p <= k < q ==> s[k] != '\n'
    decreases q
  {
    if q == 0 || s[q - 1] == '\n' then q else LineStart(s, q - 1)
  }

  /** Where `captures.get(0)` starts: the start of the line of the first pattern occurrence. */
  function MatchStart(s: string): (r: Option<nat>)
    ensures r.Some? ==> r.value <= |s|
  {
    match FirstPatternFrom(s, 0)
    case None => None
    case Some(q) => Some(LineStart(s, q))
  }

  /**
   * The regular expression `(.*?)MGCL\s?[0-9]{7,8}` has a match starting at
   * `p`: newline-free text from `p`, then the pattern.
   */
  ghost predicate MatchesFrom(s: string, p: nat) {
    exists q :: p <= q && PatternAt(s, q) && forall k :: p <= k < q ==> s[k] != '\n'
  }

  /**
   * `MatchStart` is the leftmost position at which the regular expression
   * matches, and there is none exactly when it finds none.
   */
  lemma MatchStartIsLeftmost(s: string)
    ensures MatchStart(s).Some? ==>
      MatchesFrom(s, MatchStart(s).value) && forall p: nat :: p < MatchStart(s).value ==> !MatchesFrom(s, p)
    ensures MatchStart(s).None? <==> forall p: nat :: !MatchesFrom(s, p)
  {
    match FirstPatternFrom(s, 0)
    case None =>
      forall p: nat ensures !MatchesFrom(s, p) {
        forall q | p <= q ensures !PatternAt(s, q) {
          assert 0 <= q;
        }
      }
    case Some(q) =>
      var start := LineStart(s, q);
      assert MatchesFrom(s, start);
      forall p: nat | p < start ensures !MatchesFrom(s, p) {
        assert s[start - 1] == '\n';
        forall q' | p <= q' && PatternAt(s, q') ensures exists k :: p <= k < q' && s[k] == '\n' {
          assert q <= q';
          assert p <= start - 1 < q';
        }
      }
  }

  /**
   * The clean-up after `split_at`: `trim`, then remove newlines, turn spaces
   * into `_` and remove `CODE-128:` (the prefix `zbarimg` prints).
   */
  function Tidy(t: string): string {
    Replace(Replace(Replace(Trim(t, IsRustSpace), "\n", ""), " ", "_"), "CODE-128:", "")
  }

  /** Tidying the empty text (what `result` stays without a match) gives the empty text. */
  lemma TidyEmpty()
    ensures Tidy("") == ""
  {
  }

  /** `convert_decoded_to_name`: the text from the match start, tidied; "" when nothing matches (`TidyEmpty`). */
  function ConvertDecodedToName(decoded: string): string {
    match MatchStart(decoded)
    case None => ""
    case Some(p) => Tidy(decoded[p..])
  }

  /** Everything before the leftmost match start is dropped, and the rest is tidied. */
  lemma KeepsFromLeftmostMatch(s: string, p: nat)
    requires MatchesFrom(s, p) && forall p': nat :: p' < p ==> !MatchesFrom(s, p')
    ensures p <= |s| && ConvertDecodedToName(s) == Tidy(s[p..])
  {
    MatchStartIsLeftmost(s);
    var start := MatchStart(s).value;
    assert !(start < p) && !(p < start);
  }

  /** The name is empty exactly when the pattern does not occur. */
  lemma EmptyWithoutMatch(s: string)
    ensures ConvertDecodedToName(s) == "" <==> forall p: nat :: !MatchesFrom(s, p)
  {
    MatchStartIsLeftmost(s);
    match MatchStart(s)
    case None =>
      assert Trim("", IsRustSpace) == "";
    case Some(p) =>
      var q := FirstPatternFrom(s, 0).value;
      var kept := s[p..];
      assert kept[q - p] == 'M';
      TidyKeepsM(kept, q - p);
  }

  /** The letter `M` survives the clean-up: it is neither white space nor part of a removed pattern. */
  lemma TidyKeepsM(t: string, i: nat)
    requires i < |t| && t[i] == 'M'
    ensures 'M' in Tidy(t)
  {
    TrimKeeps(t, IsRustSpace, i);
    var a := Trim(t, IsRustSpace);
    ReplaceKeepsChar(a, "\n", "", 'M');
    var b := Replace(a, "\n", "");
    ReplaceKeepsChar(b, " ", "_", 'M');
    ReplaceKeepsChar(Replace(b, " ", "_"), "CODE-128:", "", 'M');
  }

  /** The output never holds a newline or a space. */
  lemma NoNewlineOrSpace(s: string)
    ensures '\n' !in ConvertDecodedToName(s) && ' ' !in ConvertDecodedToName(s)
  {
    var t := match MatchStart(s) case None => "" case Some(p) => s[p..];
    var a := Trim(t, IsRustSpace);
    ReplaceRemovesChar(a, '\n', "");
    var b := Replace(a, "\n", "");
    ReplaceRemovesChar(b, ' ', "_");
    ReplaceNoNewChar(b, " ", "_", '\n');
    var c := Replace(b, " ", "_");
    ReplaceNoNewChar(c, "CODE-128:", "", '\n');
    ReplaceNoNewChar(c, "CODE-128:", "", ' ');
  }

  /** `dmtxread` / `zbarimg`: standard output as read, with `""` kept as the "nothing decoded" value. */
  function DecoderOutput(stdout: string): (r: string)
    ensures r == stdout
    ensures r == "" <==> stdout == ""
  {
    if stdout == "" then "" else stdout
  }
}
