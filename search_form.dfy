/**
 * The option handling at the top of the `/search` handler: every query-string
 * parameter is read with a default, numbers are guarded by `isdigit`, `per_page` is
 * held to a whitelist, the extension filter is split and cleaned, and the list of
 * fields to search is built from three flags.
 */
module SearchForm {
  import opened Options
  import opened PyText

  /** The query string, one value per key (`request.args`). */
  type Args = map<string, string>

  const DefaultPerPage: int := 50

  /** Every searchable field, in the order the handler appends them. */
  const AllFields: seq<string> := ["path", "name^5", "name.nGram^2"]

  /** `request.args.get(key) if key in request.args else default`. */
  function Arg(args: Args, key: string, default: string): string {
    if key in args then args[key] else default
  }

  // ---- guarded integer parameters -------------------------------------------

  /**
   * `int(x) if x.isdigit() else 0` with the evidently intended meaning: a string of
   * decimal digits gives its value and anything else gives 0.
   */
  function ParseCount(s: string): (n: nat)
    ensures n > 0 ==> IsDecimalString(s)
    ensures !IsDigitString(s) ==> n == 0
  {
    if IsDecimalString(s) then DecimalValue(s) else 0
  }

  /** Rendering a count and reading it back gives the count. */
  lemma ParseCountRoundTrip(n: nat)
    ensures ParseCount(DecimalString(n)) == n
  {
    DecimalRoundTrip(n);
  }

  /**
   * The same expression as the handler writes it. `isdigit` also accepts superscript
   * and subscript digits, which `int` refuses with a `ValueError`; `None` stands for
   * that exception.
   */
  function ParseCountAsWritten(s: string): (r: Option<nat>)
    ensures r.None? <==> IsDigitString(s) && !IsDecimalString(s)
  {
    if IsDigitString(s) then
      (if IsDecimalString(s) then Some(DecimalValue(s)) else None)
    else Some(0)
  }

  /** `p=²` passes the `isdigit` guard and then makes `int` raise. */
  lemma SuperscriptTwoRaises()
    ensures IsDigitString("\U{B2}")
    ensures ParseCountAsWritten("\U{B2}") == None
  {
    assert !IsDecimal("\U{B2}"[0]);
  }

  /**
   * Wherever the expression as written returns a value, it is the corrected one; and
   * it returns a value for every string without superscript or subscript digits.
   */
  lemma ParseCountCorrected(s: string)
    ensures ParseCountAsWritten(s).Some? ==> ParseCountAsWritten(s) == Some(ParseCount(s))
    ensures (forall k :: 0 <= k < |s| ==> !IsDigitOnly(s[k])) ==>
              ParseCountAsWritten(s) == Some(ParseCount(s))
  {
  }

  /**
   * `per_page`: a decimal value on the whitelist is taken as it is; anything else
   * (absent, not a number, not on the whitelist) falls back to 50.
   */
  function PerPage(raw: string, allowed: set<int>): (n: int)
    ensures n in allowed || n == DefaultPerPage
    ensures IsDecimalString(raw) && DecimalValue(raw) in allowed ==> n == DecimalValue(raw)
    ensures !(IsDecimalString(raw) && DecimalValue(raw) in allowed) ==> n == DefaultPerPage
    ensures !IsDigitString(raw) ==> n == DefaultPerPage
  {
    if IsDecimalString(raw) && DecimalValue(raw) in allowed then DecimalValue(raw)
    else DefaultPerPage
  }

  // ---- extension filter -----------------------------------------------------

  /**
   * One comma-separated extension: white-space stripped, then dots stripped, then
   * lower-cased. The result never starts or ends with a dot and has no upper-case
   * letter; it has no surrounding white-space when the part has no dot at all.
   * Exactly which characters are cut is `TwoPhaseCut`.
   */
  function NormaliseExtension(part: string): (e: string)
    ensures NoUpper(e)
    ensures e == [] || (e[0] != '.' && e[|e| - 1] != '.')
    ensures '.' !in part ==> e == [] || (!IsSpace(e[0]) && !IsSpace(e[|e| - 1]))
    ensures exists i1, i2, j2, j1 :: TwoPhaseCut(part, i1, i2, j2, j1) && e == Lower(part[i2..j2])
    ensures (part == [] || (!IsSpace(part[0]) && part[0] != '.' && !IsSpace(part[|part| - 1])
                            && part[|part| - 1] != '.')) ==> e == Lower(part)
  {
    DotFreeStrip(part);
    StripsCutEnds(part);
    StripsKeepClean(part);
    Lower(Strip(Strip(part, IsSpace), IsDot))
  }

  /** A part with neither white-space nor a dot at its ends passes both strips unchanged. */
  lemma StripsKeepClean(part: string)
    ensures (part == [] || (!IsSpace(part[0]) && part[0] != '.' && !IsSpace(part[|part| - 1])
                            && part[|part| - 1] != '.')) ==> Strip(Strip(part, IsSpace), IsDot) == part
  {
    if part == [] || (!IsSpace(part[0]) && part[0] != '.' && !IsSpace(part[|part| - 1]) && part[|part| - 1] != '.') {
      assert Strip(part, IsSpace) == part;
    }
  }

  /** Without a dot in the part, the dot strip has nothing to remove. */
  lemma DotFreeStrip(part: string)
    ensures '.' !in part ==> Strip(Strip(part, IsSpace), IsDot) == Strip(part, IsSpace)
  {
    if '.' !in part {
      var w := Strip(part, IsSpace);
      var i := FirstKept(part, IsSpace, 0);
      var j := LastKeptEnd(part, IsSpace, i, |part|);
      assert w == part[i..j];
      if w != [] {
        assert w[0] == part[i] && w[|w| - 1] == part[j - 1];
        assert part[i] in part && part[j - 1] in part;
      }
    }
  }

  /**
   * `part.strip().strip(".")` keeps `part[i2..j2]`: first all white-space at either end
   * is cut, leaving `part[i1..j1]`, which neither starts nor ends with white-space; then
   * all dots at either end of that are cut, leaving an infix that neither starts nor
   * ends with a dot.
   */
  ghost predicate TwoPhaseCut(part: string, i1: int, i2: int, j2: int, j1: int) {
    && 0 <= i1 <= i2 <= j2 <= j1 <= |part|
    && (forall k :: 0 <= k < i1 || j1 <= k < |part| ==> IsSpace(part[k]))
    && (i1 == j1 || (!IsSpace(part[i1]) && !IsSpace(part[j1 - 1])))
    && (forall k :: i1 <= k < i2 || j2 <= k < j1 ==> part[k] == '.')
    && (i2 == j2 || (part[i2] != '.' && part[j2 - 1] != '.'))
  }

  /** The two strips are the two-phase cut. */
  lemma StripsCutEnds(part: string)
    ensures exists i1, i2, j2, j1 :: TwoPhaseCut(part, i1, i2, j2, j1)
              && Lower(Strip(Strip(part, IsSpace), IsDot)) == Lower(part[i2..j2])
  {
    var i1 := FirstKept(part, IsSpace, 0);
    var j1 := LastKeptEnd(part, IsSpace, i1, |part|);
    var w := Strip(part, IsSpace);
    assert w == part[i1..j1];
    var i2 := FirstKept(w, IsDot, 0);
    var j2 := LastKeptEnd(w, IsDot, i2, |w|);
    CutInsideCut(part, i1, j1, i2, j2);
    assert TwoPhaseCut(part, i1, i1 + i2, i1 + j2, j1);
  }

  /** Cutting `[i2, j2)` out of the infix `[i1, j1)` cuts `[i1 + i2, i1 + j2)` out of `s`. */
  lemma CutInsideCut(s: string, i1: nat, j1: nat, i2: nat, j2: nat)
    requires i1 <= j1 <= |s| && i2 <= j2 <= j1 - i1
    requires forall k :: 0 <= k < i2 || j2 <= k < j1 - i1 ==> s[i1..j1][k] == '.'
    requires i2 == j2 || (s[i1..j1][i2] != '.' && s[i1..j1][j2 - 1] != '.')
    ensures s[i1..j1][i2..j2] == s[i1 + i2..i1 + j2]
    ensures forall k :: i1 <= k < i1 + i2 || i1 + j2 <= k < j1 ==> s[k] == '.'
    ensures i2 == j2 || (s[i1 + i2] != '.' && s[i1 + j2 - 1] != '.')
  {
    assert forall k :: i1 <= k < j1 ==> s[k] == s[i1..j1][k - i1];
  }

  /** A dot can shield white-space from the strip: `". pdf"` becomes `" pdf"`. */
  lemma DotShieldsSpace()
    ensures NormaliseExtension(". pdf") == " pdf"
  {
    var s := ". pdf";
    assert !IsSpace(s[0]) && !IsSpace(s[|s| - 1]);
    assert Strip(s, IsSpace) == s;
    assert IsDot(s[0]) && !IsDot(s[1]);
    assert FirstKept(s, IsDot, 1) == 1;
    assert FirstKept(s, IsDot, 0) == 1;
    assert !IsDot(s[4]);
    assert LastKeptEnd(s, IsDot, 1, 5) == 5;
    assert s[1..5] == " pdf";
    assert NoUpper(" pdf");
  }

  /**
   * The `ext` parameter: absent or empty gives no extensions; otherwise one entry per
   * comma-separated part (one more than the commas), each the normalised part.
   */
  function ParseExtensions(ext: Option<string>): (r: seq<string>)
    ensures ext.None? || ext.value == "" ==> r == []
    ensures ext.Some? && ext.value != "" ==> |r| == Occurrences(ext.value, ',') + 1
    ensures ext.Some? && ext.value != "" ==>
              forall k :: 0 <= k < |r| ==> r[k] == NormaliseExtension(SplitOn(ext.value, ',')[k])
    ensures forall k :: 0 <= k < |r| ==>
              NoUpper(r[k]) && (r[k] == [] || (r[k][0] != '.' && r[k][|r[k]| - 1] != '.'))
  {
    if ext.None? || ext.value == "" then []
    else
      var parts := SplitOn(ext.value, ',');
      seq(|parts|, k requires 0 <= k < |parts| => NormaliseExtension(parts[k]))
  }

  // ---- searched fields ------------------------------------------------------

  /** Position of a field name in `AllFields` (3 for anything else). */
  function FieldRank(f: string): nat {
    if f == AllFields[0] then 0 else if f == AllFields[1] then 1 else if f == AllFields[2] then 2 else 3
  }

  /** `a` is `b` with some elements left out, order kept. */
  predicate Subsequence(a: seq<string>, b: seq<string>)
    decreases |b|
  {
    a == [] || (b != [] && if a[0] == b[0] then Subsequence(a[1..], b[1..]) else Subsequence(a, b[1..]))
  }

  /** The flags after the "search everything when nothing is selected" rule. */
  function EffectiveFlags(name: bool, trigram: bool, path: bool): (f: (bool, bool, bool))
    ensures f.0 || f.1 || f.2
    ensures (name || trigram || path) ==> f == (name, trigram, path)
    ensures !(name || trigram || path) ==> f == (true, true, true)
  {
    if !name && !trigram && !path then (true, true, true) else (name, trigram, path)
  }

  /**
   * The fields handed to the search engine: never empty, never a field twice, in
   * the fixed order `path`, `name^5`, `name.nGram^2`; exactly the selected ones, or
   * all three when none is selected.
   */
  function SearchFields(name: bool, trigram: bool, path: bool): (r: seq<string>)
    ensures 1 <= |r| <= 3
    ensures forall k :: 0 <= k < |r| ==> r[k] in AllFields
    ensures forall i, j :: 0 <= i < j < |r| ==> FieldRank(r[i]) < FieldRank(r[j]) && r[i] != r[j]
    ensures Subsequence(r, AllFields)
    ensures !name && !trigram && !path ==> r == AllFields
    ensures name || trigram || path ==>
              (AllFields[0] in r <==> path) && (AllFields[1] in r <==> name) && (AllFields[2] in r <==> trigram)
    ensures var f := EffectiveFlags(name, trigram, path);
              (AllFields[0] in r <==> f.2) && (AllFields[1] in r <==> f.0) && (AllFields[2] in r <==> f.1)
  {
    var f := EffectiveFlags(name, trigram, path);
    (if f.2 then [AllFields[0]] else []) + (if f.0 then [AllFields[1]] else []) + (if f.1 then [AllFields[2]] else [])
  }

  // ---- the whole option block -----------------------------------------------

  datatype SearchOptions = SearchOptions(
    query: string,
    sortOrder: string,
    page: nat,
    perPage: int,
    extensions: seq<string>,
    sizeMin: nat,
    sizeMax: nat,
    dateMin: nat,
    dateMax: nat,
    matchAll: bool,
    fieldName: bool,
    fieldTrigram: bool,
    fieldPath: bool,
    fields: seq<string>)

  /** A guarded count parameter: its decimal value when present and decimal, else 0. */
  predicate CountParam(args: Args, key: string, n: nat) {
    if key in args && IsDecimalString(args[key]) then n == DecimalValue(args[key]) else n == 0
  }

  /**
   * Absent `size_min`, `size_max`, `date_min` and `date_max` default to their own
   * names, which are not numbers and so read as 0.
   */
  lemma NamedDefaultsAreZero()
    ensures ParseCount("0") == 0
    ensures ParseCount("size_min") == 0 && ParseCount("size_max") == 0
    ensures ParseCount("date_min") == 0 && ParseCount("date_max") == 0
  {
    assert !IsDecimal("size_min"[0]) && !IsDecimal("size_max"[0]);
    assert !IsDecimal("date_min"[0]) && !IsDecimal("date_max"[0]);
  }

  /** A count read with a default that itself reads as 0 satisfies `CountParam`. */
  lemma CountParamHolds(args: Args, key: string, default: string)
    requires ParseCount(default) == 0
    ensures CountParam(args, key, ParseCount(Arg(args, key, default)))
  {
  }

  /** The `per_page` default `"50"` reads as 50. */
  lemma DefaultPerPageParses()
    ensures IsDecimalString("50") && DecimalValue("50") == DefaultPerPage
  {
    assert "50"[..1] == "5";
  }

  /** The options the `/search` handler derives from its query string. */
  function ParseSearchArgs(args: Args, resultsPerPage: set<int>): (o: SearchOptions)
    ensures o.query == Arg(args, "q", "") && o.sortOrder == Arg(args, "sort_order", "score")
    ensures CountParam(args, "p", o.page)
    ensures CountParam(args, "size_min", o.sizeMin) && CountParam(args, "size_max", o.sizeMax)
    ensures CountParam(args, "date_min", o.dateMin) && CountParam(args, "date_max", o.dateMax)
    ensures o.perPage in resultsPerPage || o.perPage == DefaultPerPage
    ensures "per_page" !in args ==> o.perPage == DefaultPerPage
    ensures o.perPage == PerPage(Arg(args, "per_page", "50"), resultsPerPage)
    ensures "ext" !in args ==> o.extensions == []
    ensures "ext" in args ==> o.extensions == ParseExtensions(Some(args["ext"]))
    ensures o.matchAll <==> "all" in args
    ensures o.fieldName || o.fieldTrigram || o.fieldPath
    ensures o.fields != [] && Subsequence(o.fields, AllFields)
    ensures (AllFields[0] in o.fields <==> o.fieldPath) && (AllFields[1] in o.fields <==> o.fieldName)
            && (AllFields[2] in o.fields <==> o.fieldTrigram)
    ensures (o.fieldName, o.fieldTrigram, o.fieldPath)
         == EffectiveFlags("field_name" in args, "field_trigram" in args, "field_path" in args)
    ensures o.fields == SearchFields("field_name" in args, "field_trigram" in args, "field_path" in args)
  {
    NamedDefaultsAreZero();
    DefaultPerPageParses();
    CountParamHolds(args, "p", "0");
    CountParamHolds(args, "size_min", "size_min");
    CountParamHolds(args, "size_max", "size_max");
    CountParamHolds(args, "date_min", "date_min");
    CountParamHolds(args, "date_max", "date_max");
    var flags := EffectiveFlags("field_name" in args, "field_trigram" in args, "field_path" in args);
    SearchOptions(
      Arg(args, "q", ""),
      Arg(args, "sort_order", "score"),
      ParseCount(Arg(args, "p", "0")),
      PerPage(Arg(args, "per_page", "50"), resultsPerPage),
      ParseExtensions(if "ext" in args then Some(args["ext"]) else None),
      ParseCount(Arg(args, "size_min", "size_min")),
      ParseCount(Arg(args, "size_max", "size_max")),
      ParseCount(Arg(args, "date_min", "date_min")),
      ParseCount(Arg(args, "date_max", "date_max")),
      "all" in args,
      flags.0, flags.1, flags.2,
      SearchFields("field_name" in args, "field_trigram" in args, "field_path" in args))
  }

  /** A bare `/search` gets every default: page 0, 50 per page, all fields, no filter. */
  lemma NoArgumentsGiveDefaults(resultsPerPage: set<int>)
    ensures ParseSearchArgs(map[], resultsPerPage)
         == SearchOptions("", "score", 0, 50, [], 0, 0, 0, 0, false, true, true, true, AllFields)
  {
    NamedDefaultsAreZero();
    DefaultPerPageParses();
    assert IsDecimalString("0") && DecimalValue("0") == 0;
  }
}
