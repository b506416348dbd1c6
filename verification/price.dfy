/**
  `extract_price` (selenium_scraper.py:56-63): `re.search` for the pattern
  `([£$€¥AED]+)\s*([\d,]+)`, then the two groups, with commas removed from
  the amount.

  The three character classes of the pattern do not overlap, so at a given
  start the pattern can only match with the whole currency run, the whole
  whitespace run after it and at least one digit or comma after that: the
  backtracking matcher ends up with the greedy choice at each step. The
  model scans start positions from the left and takes that greedy match,
  and the lemmas below prove it is the match `re.search` reports.
*/
module PriceParse {
  import opened Strings
  import opened Wrappers

  /** The `price` sub-record: `{'currency': ..., 'amount': ...}`. */
  datatype Price = Price(currency: string, amount: string)

  /** The three character classes of the pattern. */
  datatype CharClass = CurrencyChar | SpaceChar | AmountChar

  /** `[£$€¥AED]`. */
  predicate IsCurrency(c: char) {
    c == '£' || c == '$' || c == '€' || c == '¥' || c == 'A' || c == 'E' || c == 'D'
  }

  predicate InClass(k: CharClass, c: char) {
    match k
    case CurrencyChar => IsCurrency(c)
    case SpaceChar => IsSpace(c)
    case AmountChar => IsDigit(c) || c == ','
  }

  /** Every character of `s[i..j]` is in class `k`. */
  predicate AllIn(k: CharClass, s: string, i: int, j: int)
    requires 0 <= i <= j <= |s|
  {
    forall p :: i <= p < j ==> InClass(k, s[p])
  }

  /** The length of the maximal run of class-`k` characters starting at `i`. */
  function Run(s: string, i: nat, k: CharClass): (n: nat)
    requires i <= |s|
    ensures i + n <= |s| && AllIn(k, s, i, i + n)
    ensures i + n == |s| || !InClass(k, s[i + n])
    decreases |s| - i
  {
    if i < |s| && InClass(k, s[i]) then 1 + Run(s, i + 1, k) else 0
  }

  /** A run of `n` class-`k` characters at `i` is no longer than the maximal one, which stops at the first character outside the class. */
  lemma {:induction false} RunBounds(s: string, i: nat, k: CharClass, n: nat)
    requires i + n <= |s| && AllIn(k, s, i, i + n)
    ensures n <= Run(s, i, k)
    ensures i + n < |s| && !InClass(k, s[i + n]) ==> Run(s, i, k) == n
    decreases n
  {
    if n > 0 {
      RunBounds(s, i + 1, k, n - 1);
    }
  }

  /**
    The pattern matches `s[i..i+c+w+d]` with the currency group of length
    `c`, the `\s*` part of length `w` and the amount group of length `d`.
  */
  predicate MatchesAt(s: string, i: nat, c: nat, w: nat, d: nat) {
    i + c + w + d <= |s| && c >= 1 && d >= 1
    && AllIn(CurrencyChar, s, i, i + c)
    && AllIn(SpaceChar, s, i + c, i + c + w)
    && AllIn(AmountChar, s, i + c + w, i + c + w + d)
  }

  /** The pattern matches at no length at start `i`. */
  ghost predicate NoMatchAt(s: string, i: nat) {
    forall c: nat, w: nat, d: nat :: !MatchesAt(s, i, c, w, d)
  }

  /** A match: its start and the lengths of its three parts. */
  datatype Hit = Hit(start: nat, cur: nat, ws: nat, amt: nat)

  /** The greedy attempt at start `i`: a match whose amount run cannot be extended. */
  function MatchAt(s: string, i: nat): (h: Option<Hit>)
    requires i <= |s|
    ensures h.Some? ==> h.value.start == i && MatchesAt(s, i, h.value.cur, h.value.ws, h.value.amt)
    ensures h.Some? ==> i + h.value.cur + h.value.ws + h.value.amt == |s|
                        || !InClass(AmountChar, s[i + h.value.cur + h.value.ws + h.value.amt])
  {
    var c := Run(s, i, CurrencyChar);
    if c == 0 then None
    else
      var w := Run(s, i + c, SpaceChar);
      var d := Run(s, i + c + w, AmountChar);
      if d == 0 then None else Some(Hit(i, c, w, d))
  }

  /**
    No backtracking is needed: any match at `i` has the same currency and
    whitespace parts as the greedy attempt, and an amount part no longer
    than the greedy one. In particular, if the greedy attempt fails, the
    pattern does not match at `i` at all.
  */
  lemma GreedyIsForced(s: string, i: nat, c: nat, w: nat, d: nat)
    requires MatchesAt(s, i, c, w, d)
    ensures MatchAt(s, i).Some?
    ensures MatchAt(s, i).value.cur == c && MatchAt(s, i).value.ws == w
    ensures d <= MatchAt(s, i).value.amt
  {
    CurrencyRunForced(s, i, c, w, d);
    SpaceRunForced(s, i, c, w, d);
    RunBounds(s, i + c + w, AmountChar, d);
  }

  lemma CurrencyRunForced(s: string, i: nat, c: nat, w: nat, d: nat)
    requires MatchesAt(s, i, c, w, d)
    ensures Run(s, i, CurrencyChar) == c
  {
    var x := s[i + c];
    if w > 0 {
      assert InClass(SpaceChar, x);
    } else {
      assert InClass(AmountChar, x);
    }
    RunBounds(s, i, CurrencyChar, c);
  }

  lemma SpaceRunForced(s: string, i: nat, c: nat, w: nat, d: nat)
    requires MatchesAt(s, i, c, w, d)
    ensures Run(s, i + c, SpaceChar) == w
  {
    assert InClass(AmountChar, s[i + c + w]);
    RunBounds(s, i + c, SpaceChar, w);
  }

  /** When the greedy attempt at `i` fails, the pattern does not match at `i`. */
  lemma GreedyFailsOnlyWithoutMatch(s: string, i: nat)
    requires i <= |s| && MatchAt(s, i).None?
    ensures NoMatchAt(s, i)
  {
    forall c: nat, w: nat, d: nat | MatchesAt(s, i, c, w, d) ensures false {
      GreedyIsForced(s, i, c, w, d);
    }
  }

  /**
    `re.search`'s scan: try the starts `i, i + 1, ..., n` from the left and
    keep the first attempt that succeeds.
  */
  function FirstFrom(attempt: nat -> Option<Hit>, i: nat, n: nat): (r: Option<Hit>)
    decreases n - i
  {
    if attempt(i).Some? then attempt(i)
    else if i >= n then None
    else FirstFrom(attempt, i + 1, n)
  }

  /** An attempt at start `k` reports a hit starting at `k`. */
  ghost predicate StartsWhereTried(attempt: nat -> Option<Hit>) {
    forall k: nat :: attempt(k).Some? ==> attempt(k).value.start == k
  }

  /** The scan's hit is an attempt that succeeded at a start within `i .. n`. */
  lemma {:induction false} FirstFromFound(attempt: nat -> Option<Hit>, i: nat, n: nat)
    requires i <= n && StartsWhereTried(attempt)
    ensures FirstFrom(attempt, i, n).Some? ==>
              var h := FirstFrom(attempt, i, n).value;
              i <= h.start <= n && attempt(h.start) == Some(h)
    decreases n - i
  {
    if attempt(i).None? && i < n {
      FirstFromFound(attempt, i + 1, n);
    }
  }

  /** Every start the scan passes over, before its hit or up to `n` when there is none, fails. */
  lemma {:induction false} FirstFromSkips(attempt: nat -> Option<Hit>, i: nat, n: nat, j: nat)
    requires i <= j <= n && StartsWhereTried(attempt)
    requires FirstFrom(attempt, i, n).None? || j < FirstFrom(attempt, i, n).value.start
    ensures attempt(j).None?
    decreases j - i
  {
    if j > i {
      FirstFromSkips(attempt, i + 1, n, j);
    }
  }

  /** The greedy attempt at every start of `s`; no start lies beyond its end. */
  function Attempts(s: string): nat -> Option<Hit> {
    (j: nat) => if j <= |s| then MatchAt(s, j) else None
  }

  /** The pattern matches nowhere in `s`. */
  ghost predicate NoMatch(s: string) {
    forall j :: 0 <= j <= |s| ==> NoMatchAt(s, j)
  }

  /**
    `re.search(pattern, s)`: the greedy match at the leftmost start where the
    pattern matches, or None when it matches nowhere.
  */
  function Search(s: string): (r: Option<Hit>)
    ensures r.Some? ==> r.value.start <= |s| && MatchAt(s, r.value.start) == r
    ensures r.Some? ==> forall j :: 0 <= j < r.value.start ==> NoMatchAt(s, j)
    ensures r.None? <==> NoMatch(s)
  {
    var r := FirstFrom(Attempts(s), 0, |s|);
    assert StartsWhereTried(Attempts(s));
    FirstFromFound(Attempts(s), 0, |s|);
    forall j | 0 <= j <= |s| && (r.None? || j < r.value.start)
      ensures NoMatchAt(s, j)
    {
      FirstFromSkips(Attempts(s), 0, |s|, j);
      assert MatchAt(s, j) == Attempts(s)(j);
      GreedyFailsOnlyWithoutMatch(s, j);
    }
    assert r.Some? ==> !NoMatchAt(s, r.value.start) by {
      if r.Some? {
        var h := r.value;
        assert MatchesAt(s, h.start, h.cur, h.ws, h.amt);
      }
    }
    r
  }

  predicate AllCurrency(s: string) {
    forall k :: 0 <= k < |s| ==> IsCurrency(s[k])
  }

  /** The price a match yields: its currency group, and its amount group with every comma removed. */
  function PriceOf(text: string, h: Hit): (r: Price)
    requires MatchesAt(text, h.start, h.cur, h.ws, h.amt)
    ensures r.currency == text[h.start .. h.start + h.cur]
    ensures r.currency != "" && AllCurrency(r.currency)
    ensures DigitsOnly(r.amount)
  {
    var amount := text[h.start + h.cur + h.ws .. h.start + h.cur + h.ws + h.amt];
    var stripped := RemoveChar(amount, ',');
    RemoveCharLeavesDigits(amount, ',');
    Price(text[h.start .. h.start + h.cur], stripped)
  }

  lemma AmountSlice(s: string, i: nat, j: nat)
    requires i <= j <= |s| && AllIn(AmountChar, s, i, j)
    ensures forall k :: 0 <= k < j - i ==> IsDigit(s[i..j][k]) || s[i..j][k] == ','
  {
    forall k | 0 <= k < j - i
      ensures IsDigit(s[i..j][k]) || s[i..j][k] == ','
    {
      assert s[i..j][k] == s[i + k];
      assert InClass(AmountChar, s[i + k]);
    }
  }

  /**
    The amount of a match is its amount group with every comma removed, which
    is exactly the group's digits, in order.
  */
  lemma AmountIsGroupDigits(text: string, h: Hit)
    requires MatchesAt(text, h.start, h.cur, h.ws, h.amt)
    ensures PriceOf(text, h).amount
            == RemoveChar(text[h.start + h.cur + h.ws .. h.start + h.cur + h.ws + h.amt], ',')
    ensures DigitsOf(PriceOf(text, h).amount, text[h.start + h.cur + h.ws .. h.start + h.cur + h.ws + h.amt])
  {
    var a := h.start + h.cur + h.ws;
    var amount := text[a .. a + h.amt];
    AmountSlice(text, a, a + h.amt);
    RemoveCharIsDigitFilter(amount, ',');
    assert PriceOf(text, h).amount == RemoveChar(amount, ',');
  }

  /**
    `extract_price(text)`: the empty price exactly when the pattern matches
    nowhere (the empty text included); otherwise a currency made of currency
    characters and an amount made of digits only.
  */
  function ExtractPrice(text: string): (r: Price)
    ensures r.currency == "" <==> NoMatch(text)
    ensures r.currency == "" ==> r.amount == ""
    ensures AllCurrency(r.currency)
    ensures DigitsOnly(r.amount)
  {
    if text == "" then
      assert NoMatchAt(text, 0);
      Price("", "")
    else
      match Search(text)
      case None => Price("", "")
      case Some(h) => PriceOf(text, h)
  }

  /** A non-empty price comes from the leftmost match, the one `Search` finds. */
  lemma ExtractPriceFromSearch(text: string)
    requires ExtractPrice(text).currency != ""
    ensures Search(text).Some?
    ensures ExtractPrice(text) == PriceOf(text, Search(text).value)
  {
    assert text != "";
  }

  /**
    The groups of the match `Search` finds are maximal: the currency group
    is the whole run of currency characters there (it cannot be extended to
    the left or to the right) and the amount group is the whole run of
    digits and commas after the optional whitespace.
  */
  lemma SearchGroupsMaximal(text: string, h: Hit)
    requires Search(text) == Some(h)
    ensures h.start == 0 || !IsCurrency(text[h.start - 1])
    ensures !IsCurrency(text[h.start + h.cur])
    ensures var end := h.start + h.cur + h.ws + h.amt;
            end == |text| || !InClass(AmountChar, text[end])
  {
    LeftmostMatchIsMaximal(text, h);
  }

  /** The greedy match at a leftmost start takes a whole run of currency characters. */
  lemma LeftmostMatchIsMaximal(s: string, h: Hit)
    requires h.start <= |s| && MatchAt(s, h.start) == Some(h)
    requires forall j :: 0 <= j < h.start ==> NoMatchAt(s, j)
    ensures h.start == 0 || !IsCurrency(s[h.start - 1])
    ensures !IsCurrency(s[h.start + h.cur])
  {
    if h.start > 0 {
      assert NoMatchAt(s, h.start - 1);
      ExtendLeft(s, h.start, h.cur, h.ws, h.amt);
    }
    CurrencyRunForced(s, h.start, h.cur, h.ws, h.amt);
  }

  /** A match preceded by a currency character extends to a match one position earlier. */
  lemma ExtendLeft(s: string, i: nat, c: nat, w: nat, d: nat)
    requires MatchesAt(s, i, c, w, d) && i > 0
    ensures IsCurrency(s[i - 1]) ==> MatchesAt(s, i - 1, c + 1, w, d)
  {
  }

  /** The greedy attempt takes the three runs it finds, when the first and the last are non-empty. */
  lemma MatchFromRuns(s: string, i: nat, c: nat, w: nat, d: nat)
    requires i <= |s| && Run(s, i, CurrencyChar) == c && c > 0
    requires Run(s, i + c, SpaceChar) == w
    requires Run(s, i + c + w, AmountChar) == d && d > 0
    ensures MatchAt(s, i) == Some(Hit(i, c, w, d))
  {
  }

  /** A text that opens with "AED" and then a non-currency character has a currency run of three. */
  lemma AedRun(s: string)
    requires |s| > 3 && s[0] == 'A' && s[1] == 'E' && s[2] == 'D' && !IsCurrency(s[3])
    ensures Run(s, 0, CurrencyChar) == 3
  {
    assert Run(s, 3, CurrencyChar) == 0;
    assert Run(s, 2, CurrencyChar) == 1;
    assert Run(s, 1, CurrencyChar) == 2;
  }

  lemma SpacedHeaderMatch()
    ensures MatchAt("AED 1,250,000", 0) == Some(Hit(0, 3, 1, 9))
  {
    SpacedHeaderRuns();
    SpacedAmountRun();
    MatchFromRuns("AED 1,250,000", 0, 3, 1, 9);
  }

  lemma SpacedHeaderRuns()
    ensures Run("AED 1,250,000", 0, CurrencyChar) == 3
    ensures Run("AED 1,250,000", 3, SpaceChar) == 1
  {
    var s := "AED 1,250,000";
    AedRun(s);
    assert Run(s, 4, SpaceChar) == 0;
  }

  lemma SpacedAmountRun()
    ensures Run("AED 1,250,000", 4, AmountChar) == 9
  {
    var s := "AED 1,250,000";
    assert Run(s, 13, AmountChar) == 0;
    assert Run(s, 12, AmountChar) == 1;
    assert Run(s, 11, AmountChar) == 2;
    assert Run(s, 10, AmountChar) == 3;
    assert Run(s, 9, AmountChar) == 4;
    assert Run(s, 8, AmountChar) == 5;
    assert Run(s, 7, AmountChar) == 6;
    assert Run(s, 6, AmountChar) == 7;
    assert Run(s, 5, AmountChar) == 8;
  }

  lemma SpacedHeaderSearch()
    ensures Search("AED 1,250,000") == Some(Hit(0, 3, 1, 9))
    ensures MatchesAt("AED 1,250,000", 0, 3, 1, 9)
  {
    SpacedHeaderMatch();
  }

  lemma SpacedHeaderCurrency()
    ensures MatchesAt("AED 1,250,000", 0, 3, 1, 9)
    ensures PriceOf("AED 1,250,000", Hit(0, 3, 1, 9)).currency == "AED"
  {
    SpacedHeaderMatch();
    assert "AED 1,250,000"[0..3] == "AED";
  }

  lemma SpacedHeaderAmount()
    ensures MatchesAt("AED 1,250,000", 0, 3, 1, 9)
    ensures PriceOf("AED 1,250,000", Hit(0, 3, 1, 9)).amount == "1250000"
  {
    SpacedHeaderMatch();
    SpacedAmountGroup();
    GroupedAmount();
  }

  /** The listing header "AED 1,250,000" gives currency AED and amount 1250000. */
  lemma ExtractPriceSpaced()
    ensures ExtractPrice("AED 1,250,000") == Price("AED", "1250000")
  {
    SpacedHeaderSearch();
    SpacedHeaderCurrency();
    SpacedHeaderAmount();
  }

  lemma SpacedAmountGroup()
    ensures "AED 1,250,000"[4..13] == "1,250,000"
  {
  }

  lemma GroupedTail()
    ensures RemoveCharFrom("1,250,000", ',', 5) == "000"
  {
    var s := "1,250,000";
    assert RemoveCharFrom(s, ',', 9) == "";
    assert RemoveCharFrom(s, ',', 8) == "0";
    assert RemoveCharFrom(s, ',', 7) == "00";
    assert RemoveCharFrom(s, ',', 6) == "000";
  }

  lemma GroupedAmount()
    ensures RemoveChar("1,250,000", ',') == "1250000"
  {
    var s := "1,250,000";
    GroupedTail();
    assert RemoveCharFrom(s, ',', 4) == "0000";
    assert RemoveCharFrom(s, ',', 3) == "50000";
    assert RemoveCharFrom(s, ',', 2) == "250000";
    assert RemoveCharFrom(s, ',', 1) == "250000";
  }

  lemma UnspacedHeaderMatch()
    ensures MatchAt("AED1,000", 0) == Some(Hit(0, 3, 0, 5))
  {
    var s := "AED1,000";
    AedRun(s);
    assert Run(s, 3, SpaceChar) == 0;
    UnspacedAmountRun();
    MatchFromRuns(s, 0, 3, 0, 5);
  }

  lemma UnspacedAmountRun()
    ensures Run("AED1,000", 3, AmountChar) == 5
  {
    var s := "AED1,000";
    assert Run(s, 8, AmountChar) == 0;
    assert Run(s, 7, AmountChar) == 1;
    assert Run(s, 6, AmountChar) == 2;
    assert Run(s, 5, AmountChar) == 3;
    assert Run(s, 4, AmountChar) == 4;
  }

  lemma UnspacedAmount()
    ensures RemoveChar("1,000", ',') == "1000"
  {
    var s := "1,000";
    assert RemoveCharFrom(s, ',', 5) == "";
    assert RemoveCharFrom(s, ',', 4) == "0";
    assert RemoveCharFrom(s, ',', 3) == "00";
    assert RemoveCharFrom(s, ',', 2) == "000";
    assert RemoveCharFrom(s, ',', 1) == "000";
  }

  /** `\s*` allows no whitespace: "AED1,000" matches too. */
  lemma ExtractPriceUnspaced()
    ensures ExtractPrice("AED1,000") == Price("AED", "1000")
  {
    UnspacedHeaderMatch();
    UnspacedGroups();
    UnspacedAmount();
    PriceAtStart("AED1,000", Hit(0, 3, 0, 5), "AED", "1000");
  }

  lemma UnspacedGroups()
    ensures "AED1,000"[0..3] == "AED" && "AED1,000"[3..8] == "1,000"
  {
  }

  /** When the greedy attempt succeeds at the first position, `extract_price` takes its groups. */
  lemma PriceAtStart(text: string, h: Hit, currency: string, amount: string)
    requires MatchAt(text, 0) == Some(h)
    requires text[0..h.cur] == currency
    requires RemoveChar(text[h.cur + h.ws .. h.cur + h.ws + h.amt], ',') == amount
    ensures ExtractPrice(text) == Price(currency, amount)
  {
    assert Search(text) == Some(h);
  }
  /** A text without digits and commas has no price: the amount group needs at least one of them. */
  lemma {:induction false} NoAmountNoPrice(text: string)
    requires forall k :: 0 <= k < |text| ==> !InClass(AmountChar, text[k])
    ensures ExtractPrice(text) == Price("", "")
  {
    forall j: nat, c: nat, w: nat, d: nat | j <= |text|
      ensures !MatchesAt(text, j, c, w, d)
    {
      if j + c + w + d <= |text| && d >= 1 {
        assert !InClass(AmountChar, text[j + c + w]);
      }
    }
    assert NoMatch(text);
  }

  lemma CommaOnlyMatch()
    ensures MatchAt("AED,", 0) == Some(Hit(0, 3, 0, 1))
  {
    var s := "AED,";
    AedRun(s);
    assert Run(s, 3, SpaceChar) == 0;
    assert Run(s, 4, AmountChar) == 0;
    assert Run(s, 3, AmountChar) == 1;
    MatchFromRuns(s, 0, 3, 0, 1);
  }

  /**
    `[\d,]+` accepts commas alone: "AED," matches, and removing the commas
    leaves a currency with an empty amount.
  */
  lemma ExtractPriceCommaOnly()
    ensures ExtractPrice("AED,") == Price("AED", "")
  {
    CommaOnlyMatch();
    CommaOnlyGroups();
    assert RemoveCharFrom(",", ',', 1) == "";
    PriceAtStart("AED,", Hit(0, 3, 0, 1), "AED", "");
  }

  lemma CommaOnlyGroups()
    ensures "AED,"[0..3] == "AED" && "AED,"[3..4] == ","
  {
  }
}
