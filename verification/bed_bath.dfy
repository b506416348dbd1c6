/**
  The two bed/bath/size parsers of the scraper (selenium_scraper.py:40-54 and
  129-135). `extract_bed_bath_size` scans the tokens for a number followed by
  a keyword and updates its result record as it goes; the positional parse
  that the crawl loop actually uses reads fixed token positions.
*/
module BedBath {
  import opened Strings
  import opened Wrappers

  /** The `{'beds': ..., 'baths': ..., 'sqft': ...}` record. */
  datatype BedBathSize = BedBathSize(beds: string, baths: string, sqft: string)

  const Empty := BedBathSize("", "", "")

  /** The three keys of the record. */
  datatype Field = Beds | Baths | Sqft

  /** The keyword that selects each field, in the order the scan tests them. */
  function Keyword(f: Field): string {
    match f
    case Beds => "bed"
    case Baths => "bath"
    case Sqft => "sqft"
  }

  function Get(r: BedBathSize, f: Field): string {
    match f
    case Beds => r.beds
    case Baths => r.baths
    case Sqft => r.sqft
  }

  function Set(r: BedBathSize, f: Field, v: string): (r': BedBathSize)
    ensures Get(r', f) == v
    ensures forall g :: g != f ==> Get(r', g) == Get(r, g)
  {
    match f
    case Beds => r.(beds := v)
    case Baths => r.(baths := v)
    case Sqft => r.(sqft := v)
  }

  /** `part.isdigit() or part.replace('.', '').isdigit()`. */
  predicate IsNumeric(part: string) {
    IsDigitString(part) || IsDigitString(RemoveChar(part, '.'))
  }

  /** A number, dotted or not, never holds a comma: "1,200" is not numeric. */
  lemma NumericHasNoComma(part: string)
    requires IsNumeric(part)
    ensures ',' !in part
  {
    RemoveCharKeeps(part, '.');
  }

  /** Token `i` has a successor, and that successor, lowered, contains the keyword of `f`. */
  predicate FollowedByKeyword(parts: seq<string>, i: nat, f: Field) {
    i + 1 < |parts| && Contains(Lower(parts[i + 1]), Keyword(f))
  }

  /**
    The field that token `i` is assigned to, if any: the token must be
    numeric and have a successor, and the lowered successor is tested for
    "bed", then "bath", then "sqft"; the first keyword it contains wins.
  */
  function Target(parts: seq<string>, i: nat): Option<Field>
    requires i < |parts|
  {
    if IsNumeric(parts[i]) && i + 1 < |parts| then
      var next := Lower(parts[i + 1]);
      if Contains(next, "bed") then Some(Beds)
      else if Contains(next, "bath") then Some(Baths)
      else if Contains(next, "sqft") then Some(Sqft)
      else None
    else None
  }

  /**
    The keywords are tried in the order bed, bath, sqft, so a token goes to
    the first field whose keyword its successor contains, and to no field
    when it contains none; an assigned token never holds a comma.
  */
  lemma TargetPriority(parts: seq<string>, i: nat)
    requires i < |parts|
    ensures Target(parts, i) == Some(Baths) ==> !FollowedByKeyword(parts, i, Beds)
    ensures Target(parts, i) == Some(Sqft) ==>
              !FollowedByKeyword(parts, i, Beds) && !FollowedByKeyword(parts, i, Baths)
    ensures IsNumeric(parts[i]) && FollowedByKeyword(parts, i, Beds) ==> Target(parts, i) == Some(Beds)
    ensures Target(parts, i).None? && IsNumeric(parts[i]) ==> forall f :: !FollowedByKeyword(parts, i, f)
    ensures Target(parts, i).Some? ==> ',' !in parts[i]
    ensures Target(parts, i).Some? ==> IsNumeric(parts[i]) && FollowedByKeyword(parts, i, Target(parts, i).value)
  {
    if IsNumeric(parts[i]) {
      NumericHasNoComma(parts[i]);
    }
  }

  /** One iteration of the scan: token `i` overwrites the field it is assigned to, if any. */
  function Step(r: BedBathSize, parts: seq<string>, i: nat): BedBathSize
    requires i < |parts|
  {
    var t := Target(parts, i);
    if t.Some? then Set(r, t.value, parts[i]) else r
  }

  /** The record after the scan has looked at the tokens `parts[..n]`. */
  function KeywordScan(parts: seq<string>, n: nat): BedBathSize
    requires n <= |parts|
  {
    if n == 0 then Empty else Step(KeywordScan(parts, n - 1), parts, n - 1)
  }

  /** What `extract_bed_bath_size(text)` returns. */
  function KeywordParse(text: string): BedBathSize {
    if text == "" then Empty else KeywordScan(Split(text), |Split(text)|)
  }

  /** `extract_bed_bath_size(text)`, with its loop over `enumerate(parts)`. */
  method ExtractBedBathSize(text: string) returns (r: BedBathSize)
    ensures r == KeywordParse(text)
  {
    if text == "" {
      return Empty;
    }
    var parts := Split(text);
    r := Empty;
    var i := 0;
    while i < |parts|
      invariant 0 <= i <= |parts|
      invariant r == KeywordScan(parts, i)
    {
      ghost var before := r;
      var part := parts[i];
      if IsDigitString(part) || IsDigitString(RemoveChar(part, '.')) {
        if i + 1 < |parts| {
          var next := Lower(parts[i + 1]);
          if Contains(next, "bed") {
            assert Target(parts, i) == Some(Beds);
            r := r.(beds := part);
          } else if Contains(next, "bath") {
            assert Target(parts, i) == Some(Baths);
            r := r.(baths := part);
          } else if Contains(next, "sqft") {
            assert Target(parts, i) == Some(Sqft);
            r := r.(sqft := part);
          } else {
            assert Target(parts, i) == None;
          }
        } else {
          assert Target(parts, i) == None;
        }
      } else {
        assert Target(parts, i) == None;
      }
      assert r == Step(before, parts, i);
      i := i + 1;
    }
  }

  /** The last of the tokens `parts[..n]` assigned to field `f`, or -1. */
  function LastIndex(parts: seq<string>, f: Field, n: nat): (j: int)
    requires n <= |parts|
    ensures -1 <= j < n
    ensures j >= 0 ==> Target(parts, j) == Some(f)
    ensures forall k :: j < k < n ==> Target(parts, k) != Some(f)
  {
    if n == 0 then -1
    else if Target(parts, n - 1) == Some(f) then n - 1
    else LastIndex(parts, f, n - 1)
  }

  /** One step of the scan, seen from one field: the token overwrites it or leaves it alone. */
  lemma ScanStep(parts: seq<string>, f: Field, n: nat)
    requires 0 < n <= |parts|
    ensures Get(KeywordScan(parts, n), f)
         == if Target(parts, n - 1) == Some(f) then parts[n - 1] else Get(KeywordScan(parts, n - 1), f)
    ensures LastIndex(parts, f, n)
         == if Target(parts, n - 1) == Some(f) then n - 1 else LastIndex(parts, f, n - 1)
  {
    var t := Target(parts, n - 1);
    if t.Some? {
      assert KeywordScan(parts, n) == Set(KeywordScan(parts, n - 1), t.value, parts[n - 1]);
    }
  }

  /** The last match wins: each field holds the last token assigned to it, or ''. */
  lemma {:induction false} LastMatchWins(parts: seq<string>, f: Field, n: nat)
    requires n <= |parts|
    ensures LastIndex(parts, f, n) >= 0 ==> Get(KeywordScan(parts, n), f) == parts[LastIndex(parts, f, n)]
    ensures LastIndex(parts, f, n) < 0 ==> Get(KeywordScan(parts, n), f) == ""
  {
    if n > 0 {
      LastMatchWins(parts, f, n - 1);
      ScanStep(parts, f, n);
    }
  }

  /**
    After scanning tokens that are all non-empty, field `f` is non-empty
    exactly when some token was assigned to it, and it then holds the last
    such token.
  */
  lemma {:induction false} ScanField(parts: seq<string>, f: Field)
    requires forall k :: 0 <= k < |parts| ==> parts[k] != ""
    ensures Get(KeywordScan(parts, |parts|), f) != "" <==>
              exists i :: 0 <= i < |parts| && Target(parts, i) == Some(f)
    ensures Get(KeywordScan(parts, |parts|), f) != "" ==>
              exists i :: 0 <= i < |parts| && Get(KeywordScan(parts, |parts|), f) == parts[i]
                && Target(parts, i) == Some(f)
                && forall k :: i < k < |parts| ==> Target(parts, k) != Some(f)
  {
    LastMatchWins(parts, f, |parts|);
  }

  /**
    A field of `extract_bed_bath_size` is non-empty exactly when some token
    qualifies for it; it then holds the last such token, which is numeric,
    comma-free, not the last token, and whose lowered successor contains the
    field's keyword (and, by `Target`, none of the keywords tested before it).
  */
  lemma {:induction false} KeywordField(text: string, parts: seq<string>, f: Field)
    requires text != "" && parts == Split(text)
    ensures Get(KeywordParse(text), f) != "" <==>
              exists i :: 0 <= i < |parts| && Target(parts, i) == Some(f)
    ensures Get(KeywordParse(text), f) != "" ==>
              exists i :: 0 <= i < |parts| && Get(KeywordParse(text), f) == parts[i]
                && Target(parts, i) == Some(f)
                && IsNumeric(parts[i]) && ',' !in parts[i] && FollowedByKeyword(parts, i, f)
                && forall k :: i < k < |parts| ==> Target(parts, k) != Some(f)
  {
    SplitWords(text);
    forall k | 0 <= k < |parts|
      ensures parts[k] != ""
    {
      assert IsWord(parts[k]);
    }
    ScanField(parts, f);
    if Get(KeywordParse(text), f) != "" {
      var i :| 0 <= i < |parts| && Get(KeywordParse(text), f) == parts[i]
                && Target(parts, i) == Some(f)
                && forall k :: i < k < |parts| ==> Target(parts, k) != Some(f);
      TargetPriority(parts, i);
    }
  }

  /** Empty text gives the all-empty record. */
  lemma KeywordParseEmpty()
    ensures KeywordParse("") == BedBathSize("", "", "")
  {
  }

  /** No field of `extract_bed_bath_size` ever holds a comma. */
  lemma {:induction false} KeywordScanNoComma(parts: seq<string>, n: nat)
    requires n <= |parts|
    ensures forall f :: ',' !in Get(KeywordScan(parts, n), f)
  {
    if n > 0 {
      KeywordScanNoComma(parts, n - 1);
      TargetPriority(parts, n - 1);
      var t := Target(parts, n - 1);
      if t.Some? {
        assert KeywordScan(parts, n) == Set(KeywordScan(parts, n - 1), t.value, parts[n - 1]);
      }
    }
  }

  /**
    The positional parse of the tokens: `beds` is the first token when it is
    all digits, `baths` the digits of the second token, `sqft` the digits of
    the second-to-last token when there are at least four.
  */
  function Positional(parts: seq<string>): (r: BedBathSize)
    ensures r.beds != "" <==> |parts| > 0 && IsDigitString(parts[0])
    ensures r.beds != "" ==> r.beds == parts[0]
    ensures DigitsOnly(r.beds) && DigitsOnly(r.baths) && DigitsOnly(r.sqft)
    ensures |parts| < 2 ==> r.baths == ""
    ensures |parts| < 4 ==> r.sqft == ""
  {
    BedBathSize(
      if |parts| > 0 && IsDigitString(parts[0]) then parts[0] else "",
      if |parts| > 1 then DigitFilter(parts[1]) else "",
      if |parts| > 3 then DigitFilter(parts[|parts| - 2]) else "")
  }

  /**
    With at least two tokens `baths` holds exactly the digits of the second
    token, and with at least four `sqft` holds exactly the digits of the
    second-to-last.
  */
  lemma PositionalDigits(parts: seq<string>)
    ensures |parts| >= 2 ==> DigitsOf(Positional(parts).baths, parts[1])
    ensures |parts| >= 4 ==> DigitsOf(Positional(parts).sqft, parts[|parts| - 2])
  {
    if |parts| >= 2 {
      DigitFilterExact(parts[1]);
    }
    if |parts| >= 4 {
      DigitFilterExact(parts[|parts| - 2]);
    }
  }

  /** The inline parse in the crawl loop: the text's tokens, none for empty text. */
  function PositionalParse(text: string): BedBathSize {
    Positional(if text != "" then Split(text) else [])
  }

  /** Guarding the split on non-empty text changes nothing: `"".split()` is `[]`. */
  lemma PositionalParseOfSplit(text: string)
    ensures PositionalParse(text) == Positional(Split(text))
  {
    if text == "" {
      assert SkipSpace(text, 0) == 0;
    }
  }

  /** The concatenated spans of a listing header, "3 Beds2 Baths1,200 sqft", as tokens. */
  const HeaderTokens: seq<string> := ["3", "Beds2", "Baths1,200", "sqft"]

  lemma BathsTokenDigits()
    ensures DigitFilter("Beds2") == "2"
  {
    var s := "Beds2";
    assert DigitFilterFrom(s, 5) == "";
    assert DigitFilterFrom(s, 4) == "2";
    assert DigitFilterFrom(s, 3) == "2";
    assert DigitFilterFrom(s, 2) == "2";
    assert DigitFilterFrom(s, 1) == "2";
  }

  lemma AreaDigits()
    ensures DigitFilter("1,200") == "1200"
  {
    var s := "1,200";
    assert DigitFilterFrom(s, 5) == "";
    assert DigitFilterFrom(s, 4) == "0";
    assert DigitFilterFrom(s, 3) == "00";
    assert DigitFilterFrom(s, 2) == "200";
    assert DigitFilterFrom(s, 1) == "200";
  }

  lemma AreaTokenDigits()
    ensures DigitFilter("Baths1,200") == "1200"
  {
    var s := "Baths1,200";
    assert DigitFilterFrom(s, 10) == "";
    assert DigitFilterFrom(s, 9) == "0";
    assert DigitFilterFrom(s, 8) == "00";
    assert DigitFilterFrom(s, 7) == "200";
    assert DigitFilterFrom(s, 6) == "200";
    assert DigitFilterFrom(s, 5) == "1200";
    assert DigitFilterFrom(s, 4) == "1200";
    assert DigitFilterFrom(s, 3) == "1200";
    assert DigitFilterFrom(s, 2) == "1200";
    assert DigitFilterFrom(s, 1) == "1200";
  }

  /** The positional parse reads 3 beds, 2 baths and 1200 sqft from the header tokens. */
  lemma PositionalOnHeader()
    ensures Positional(HeaderTokens) == BedBathSize("3", "2", "1200")
  {
    BathsTokenDigits();
    AreaTokenDigits();
  }

  lemma HeaderBedsAssigned()
    ensures Target(HeaderTokens, 0) == Some(Beds)
  {
    var p := HeaderTokens;
    assert IsDigitString(p[0]);
    assert Lower("Beds2")[0..3] == "bed";
    assert OccursAt(Lower(p[1]), "bed", 0);
  }

  /** A token that is not numeric is assigned to no field. */
  lemma NotNumericUnassigned(parts: seq<string>, i: nat)
    requires i < |parts| && !IsNumeric(parts[i])
    ensures Target(parts, i).None?
  {
  }

  /** A token that starts with a character other than a digit or '.' is not numeric, so it is assigned to no field. */
  lemma LetterFirstUnassigned(parts: seq<string>, i: nat)
    requires i < |parts| && |parts[i]| > 0 && !IsDigit(parts[i][0]) && parts[i][0] != '.'
    ensures !IsNumeric(parts[i])
    ensures Target(parts, i).None?
  {
    assert RemoveChar(parts[i], '.')[0] == parts[i][0];
    NotNumericUnassigned(parts, i);
  }

  lemma HeaderRestUnassigned()
    ensures Target(HeaderTokens, 1).None?
    ensures Target(HeaderTokens, 2).None?
    ensures Target(HeaderTokens, 3).None?
  {
    LetterFirstUnassigned(HeaderTokens, 1);
    LetterFirstUnassigned(HeaderTokens, 2);
    LetterFirstUnassigned(HeaderTokens, 3);
  }

  /** The keyword scan finds only the beds on the same tokens: no number is followed by "bath" or "sqft". */
  lemma KeywordScanOnHeader()
    ensures KeywordScan(HeaderTokens, 4) == BedBathSize("3", "", "")
  {
    HeaderBedsAssigned();
    HeaderRestUnassigned();
    assert KeywordScan(HeaderTokens, 1) == BedBathSize("3", "", "");
  }

  /** The same header with its spans separated by spaces, "3 Beds 2 Baths 1,200 sqft", as tokens. */
  const SpacedTokens: seq<string> := ["3", "Beds", "2", "Baths", "1,200", "sqft"]

  lemma SpacedBedsAssigned()
    ensures Target(SpacedTokens, 0) == Some(Beds)
  {
    var p := SpacedTokens;
    assert IsDigitString(p[0]);
    assert Lower("Beds")[0..3] == "bed";
    assert OccursAt(Lower(p[1]), "bed", 0);
  }

  lemma SpacedBathsAssigned()
    ensures Target(SpacedTokens, 2) == Some(Baths)
  {
    var p := SpacedTokens;
    assert IsDigitString(p[2]);
    var next := Lower(p[3]);
    assert next == "baths";
    assert OccursAt(next, "bath", 0);
    assert !Contains(next, "bed") by {
      assert forall k :: 0 <= k < |next| ==> next[k] != 'e';
      forall i | 0 <= i <= |next| ensures !OccursAt(next, "bed", i) {
        if i + 3 <= |next| {
          assert next[i..i + 3][1] == next[i + 1];
        }
      }
    }
  }

  /** "1,200" is not numeric: neither it nor its dot-free form is all digits. */
  lemma GroupedAreaNotNumeric()
    ensures !IsNumeric("1,200")
  {
    var s := "1,200";
    assert s[1] == ',';
    RemoveCharKeeps(s, '.');
    assert ',' in RemoveChar(s, '.');
  }

  lemma SpacedRestUnassigned()
    ensures Target(SpacedTokens, 1).None?
    ensures Target(SpacedTokens, 3).None?
    ensures Target(SpacedTokens, 4).None?
    ensures Target(SpacedTokens, 5).None?
  {
    LetterFirstUnassigned(SpacedTokens, 1);
    LetterFirstUnassigned(SpacedTokens, 3);
    GroupedAreaNotNumeric();
    NotNumericUnassigned(SpacedTokens, 4);
    LetterFirstUnassigned(SpacedTokens, 5);
  }

  /**
    On space-separated spans the keyword scan reads 3 beds and 2 baths but
    no area: the area token "1,200" holds a comma and is never assigned.
  */
  lemma KeywordScanOnSpaced()
    ensures KeywordScan(SpacedTokens, 6) == BedBathSize("3", "2", "")
  {
    SpacedBedsAssigned();
    SpacedBathsAssigned();
    SpacedRestUnassigned();
    assert KeywordScan(SpacedTokens, 1) == BedBathSize("3", "", "");
    assert KeywordScan(SpacedTokens, 3) == BedBathSize("3", "2", "");
  }

  lemma KeywordDigits()
    ensures DigitFilter("Beds") == ""
  {
    var s := "Beds";
    assert DigitFilterFrom(s, 4) == "";
    assert DigitFilterFrom(s, 3) == "";
    assert DigitFilterFrom(s, 2) == "";
    assert DigitFilterFrom(s, 1) == "";
  }

  /**
    On the same tokens the positional parse reads the beds and the area,
    but its baths come from the keyword token "Beds" and are empty.
  */
  lemma PositionalOnSpaced()
    ensures Positional(SpacedTokens) == BedBathSize("3", "", "1200")
  {
    KeywordDigits();
    AreaDigits();
  }
}
