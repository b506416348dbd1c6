/**
  The Python `str` operations the scraper relies on: `strip`, `split`, `lower`,
  `isdigit`, `in`, `replace(x, '')` and `''.join(filter(str.isdigit, s))`.

  Python's character classes are Unicode-aware; here they are restricted to
  ASCII: whitespace is the ASCII part of Python's whitespace set (space, tab,
  line feed, vertical tab, form feed, carriage return and the separators
  U+001C..U+001F), a digit is '0'..'9', and lowering maps only 'A'..'Z'.
*/
module Strings {

  /** Python whitespace (`str.isspace`, `str.split`, `str.strip`, regex `\s`), ASCII part. */
  predicate IsSpace(c: char) {
    c == ' ' || ('\t' <= c <= '\r') || ('\U{1C}' <= c <= '\U{1F}')
  }

  /** Python `str.isdigit` / regex `\d` on one character, ASCII part. */
  predicate IsDigit(c: char) {
    '0' <= c <= '9'
  }

  /** Every character is a digit (the empty string qualifies). */
  predicate DigitsOnly(s: string) {
    forall k :: 0 <= k < |s| ==> IsDigit(s[k])
  }

  /** Python `s.isdigit()`: false on the empty string. */
  predicate IsDigitString(s: string) {
    |s| > 0 && DigitsOnly(s)
  }

  /** No whitespace at either end: what `strip()` leaves. */
  predicate Trimmed(s: string) {
    s == [] || (!IsSpace(s[0]) && !IsSpace(s[|s| - 1]))
  }

  /** A token of `split()`: non-empty, no whitespace. */
  predicate IsWord(w: string) {
    |w| > 0 && forall k :: 0 <= k < |w| ==> !IsSpace(w[k])
  }

  function LowerChar(c: char): char {
    if 'A' <= c <= 'Z' then (c as int + 32) as char else c
  }

  /** Python `s.lower()`, ASCII part. */
  function Lower(s: string): string {
    seq(|s|, k requires 0 <= k < |s| => LowerChar(s[k]))
  }

  /** `sub` occurs in `s` starting at index `i`. */
  predicate OccursAt(s: string, sub: string, i: int) {
    0 <= i && i + |sub| <= |s| && s[i..i + |sub|] == sub
  }

  /** Python `sub in s`. */
  predicate Contains(s: string, sub: string) {
    exists i :: 0 <= i <= |s| && OccursAt(s, sub, i)
  }

  /** `s[i..].replace(x, '')`, for a one-character `x`. */
  function RemoveCharFrom(s: string, x: char, i: nat): (r: string)
    requires i <= |s|
    ensures |r| <= |s| - i
    ensures forall k :: 0 <= k < |r| ==> r[k] != x
    decreases |s| - i
  {
    if i == |s| then [] else (if s[i] == x then [] else [s[i]]) + RemoveCharFrom(s, x, i + 1)
  }

  /** Python `s.replace(x, '')` for a one-character `x`. */
  function RemoveChar(s: string, x: char): (r: string)
    ensures |r| <= |s|
    ensures forall k :: 0 <= k < |r| ==> r[k] != x
  {
    RemoveCharFrom(s, x, 0)
  }

  lemma {:induction false} RemoveCharFromLeavesDigits(s: string, x: char, i: nat)
    requires i <= |s|
    requires forall k :: i <= k < |s| ==> IsDigit(s[k]) || s[k] == x
    ensures DigitsOnly(RemoveCharFrom(s, x, i))
    decreases |s| - i
  {
    if i < |s| {
      RemoveCharFromLeavesDigits(s, x, i + 1);
    }
  }

  /** Removing `x` from a string of digits and `x`s leaves digits only. */
  lemma RemoveCharLeavesDigits(s: string, x: char)
    requires forall k :: 0 <= k < |s| ==> IsDigit(s[k]) || s[k] == x
    ensures DigitsOnly(RemoveChar(s, x))
  {
    RemoveCharFromLeavesDigits(s, x, 0);
  }

  lemma {:induction false} RemoveCharFromKeeps(s: string, x: char, i: nat)
    requires i <= |s|
    ensures forall k :: i <= k < |s| && s[k] != x ==> s[k] in RemoveCharFrom(s, x, i)
    decreases |s| - i
  {
    if i < |s| {
      RemoveCharFromKeeps(s, x, i + 1);
    }
  }

  /** Removing `x` keeps every other character. */
  lemma RemoveCharKeeps(s: string, x: char)
    ensures forall c :: c != x && c in s ==> c in RemoveChar(s, x)
  {
    RemoveCharFromKeeps(s, x, 0);
  }

  /** The scan over the `b` part of `a + b` is the scan over `b`. */
  lemma {:induction false} RemoveCharFromSuffix(a: string, b: string, x: char, m: nat)
    requires m <= |b|
    ensures RemoveCharFrom(a + b, x, |a| + m) == RemoveCharFrom(b, x, m)
    decreases |b| - m
  {
    if m < |b| {
      assert (a + b)[|a| + m] == b[m];
      RemoveCharFromSuffix(a, b, x, m + 1);
    }
  }

  lemma {:induction false} RemoveCharFromAppend(a: string, b: string, x: char, i: nat)
    requires i <= |a|
    ensures RemoveCharFrom(a + b, x, i) == RemoveCharFrom(a, x, i) + RemoveChar(b, x)
    decreases |a| - i
  {
    if i == |a| {
      RemoveCharFromSuffix(a, b, x, 0);
    } else {
      assert (a + b)[i] == a[i];
      var h := if a[i] == x then [] else [a[i]];
      RemoveCharFromAppend(a, b, x, i + 1);
      calc {
        RemoveCharFrom(a + b, x, i);
        h + RemoveCharFrom(a + b, x, i + 1);
        h + (RemoveCharFrom(a, x, i + 1) + RemoveChar(b, x));
        (h + RemoveCharFrom(a, x, i + 1)) + RemoveChar(b, x);
      }
    }
  }

  /**
    Removing `x` works character by character, left to right: the result for
    a concatenation is the concatenation of the results, so every other
    character is kept, in order and as often as it occurs.
  */
  lemma RemoveCharAppend(a: string, b: string, x: char)
    ensures RemoveChar(a + b, x) == RemoveChar(a, x) + RemoveChar(b, x)
  {
    RemoveCharFromAppend(a, b, x, 0);
  }

  /** One character is dropped when it is `x` and kept otherwise. */
  lemma RemoveCharSingle(c: char, x: char)
    ensures RemoveChar([c], x) == if c == x then [] else [c]
  {
    assert RemoveCharFrom([c], x, 1) == [];
  }

  /** `''.join(filter(str.isdigit, s[i..]))`. */
  function DigitFilterFrom(s: string, i: nat): (r: string)
    requires i <= |s|
    ensures DigitsOnly(r)
    ensures |r| <= |s| - i
    decreases |s| - i
  {
    if i == |s| then [] else (if IsDigit(s[i]) then [s[i]] else []) + DigitFilterFrom(s, i + 1)
  }

  /** Python `''.join(filter(str.isdigit, s))`. */
  function DigitFilter(s: string): (r: string)
    ensures DigitsOnly(r)
    ensures |r| <= |s|
  {
    DigitFilterFrom(s, 0)
  }

  lemma {:induction false} DigitFilterFromKeepsDigits(s: string, i: nat)
    requires i <= |s|
    ensures forall c :: c in DigitFilterFrom(s, i) ==> exists k :: i <= k < |s| && s[k] == c
    ensures forall k :: i <= k < |s| && IsDigit(s[k]) ==> s[k] in DigitFilterFrom(s, i)
    decreases |s| - i
  {
    if i < |s| {
      DigitFilterFromKeepsDigits(s, i + 1);
    }
  }

  /** The filter keeps exactly the digits: a digit occurs in the result iff it occurs in `s`. */
  lemma DigitFilterKeepsDigits(s: string)
    ensures forall c :: c in DigitFilter(s) ==> c in s
    ensures forall c :: IsDigit(c) && c in s ==> c in DigitFilter(s)
  {
    DigitFilterFromKeepsDigits(s, 0);
  }

  /** The filter over the `b` part of `a + b` is the filter over `b`. */
  lemma {:induction false} DigitFilterFromSuffix(a: string, b: string, m: nat)
    requires m <= |b|
    ensures DigitFilterFrom(a + b, |a| + m) == DigitFilterFrom(b, m)
    decreases |b| - m
  {
    if m < |b| {
      assert (a + b)[|a| + m] == b[m];
      DigitFilterFromSuffix(a, b, m + 1);
    }
  }

  lemma {:induction false} DigitFilterFromAppend(a: string, b: string, i: nat)
    requires i <= |a|
    ensures DigitFilterFrom(a + b, i) == DigitFilterFrom(a, i) + DigitFilter(b)
    decreases |a| - i
  {
    if i == |a| {
      DigitFilterFromSuffix(a, b, 0);
    } else {
      assert (a + b)[i] == a[i];
      var h := if IsDigit(a[i]) then [a[i]] else [];
      DigitFilterFromAppend(a, b, i + 1);
      calc {
        DigitFilterFrom(a + b, i);
        h + DigitFilterFrom(a + b, i + 1);
        h + (DigitFilterFrom(a, i + 1) + DigitFilter(b));
        (h + DigitFilterFrom(a, i + 1)) + DigitFilter(b);
      }
    }
  }

  /**
    The filter works character by character, left to right: the digits of a
    concatenation are the digits of its parts, one after the other, so every
    digit is kept in order and as often as it occurs.
  */
  lemma DigitFilterAppend(a: string, b: string)
    ensures DigitFilter(a + b) == DigitFilter(a) + DigitFilter(b)
  {
    DigitFilterFromAppend(a, b, 0);
  }

  /** One character is kept when it is a digit and dropped otherwise. */
  lemma DigitFilterSingle(c: char)
    ensures DigitFilter([c]) == if IsDigit(c) then [c] else []
  {
    assert DigitFilterFrom([c], 1) == [];
  }

  /**
    The digit at position `i` of `s` is the character at position "number of
    digits before `i`" of the filtered string.
  */
  lemma DigitFilterPlaces(s: string, i: nat)
    requires i < |s| && IsDigit(s[i])
    ensures |DigitFilter(s[..i])| < |DigitFilter(s)|
    ensures DigitFilter(s)[|DigitFilter(s[..i])|] == s[i]
  {
    assert s == s[..i] + ([s[i]] + s[i + 1..]);
    DigitFilterAppend(s[..i], [s[i]] + s[i + 1..]);
    DigitFilterAppend([s[i]], s[i + 1..]);
    DigitFilterSingle(s[i]);
  }

  lemma {:induction false} DigitFilterFromOfDigits(s: string, i: nat)
    requires i <= |s|
    requires DigitsOnly(s)
    ensures DigitFilterFrom(s, i) == s[i..]
    decreases |s| - i
  {
    if i < |s| {
      DigitFilterFromOfDigits(s, i + 1);
      assert s[i..] == [s[i]] + s[i + 1..];
    }
  }

  /** A string of digits passes the filter unchanged. */
  lemma DigitFilterOfDigits(s: string)
    requires DigitsOnly(s)
    ensures DigitFilter(s) == s
  {
    DigitFilterFromOfDigits(s, 0);
    assert s[0..] == s;
  }

  /**
    `r` holds exactly the digits of `w`: a character is in `r` iff it is a
    digit of `w`; each digit of `w` sits in `r` at the position given by the
    number of digits before it, so order and repetitions are kept; `r` is as
    long as the run of digits of `w`, so it holds nothing else; and a `w` of
    digits only is kept whole.
  */
  predicate DigitsOf(r: string, w: string) {
    (forall c :: c in r <==> IsDigit(c) && c in w)
    && |r| <= |w|
    && |r| == |DigitFilter(w)|
    && (forall i :: 0 <= i < |w| && IsDigit(w[i]) ==>
          |DigitFilter(w[..i])| < |r| && r[|DigitFilter(w[..i])|] == w[i])
    && (DigitsOnly(w) ==> r == w)
  }

  /** Filtering to digits gives exactly the digits. */
  lemma DigitFilterExact(w: string)
    ensures DigitsOf(DigitFilter(w), w)
  {
    DigitFilterKeepsDigits(w);
    forall i | 0 <= i < |w| && IsDigit(w[i])
      ensures |DigitFilter(w[..i])| < |DigitFilter(w)| && DigitFilter(w)[|DigitFilter(w[..i])|] == w[i]
    {
      DigitFilterPlaces(w, i);
    }
    if DigitsOnly(w) {
      DigitFilterOfDigits(w);
    }
  }

  lemma {:induction false} RemoveCharFromIsDigitFilterFrom(s: string, x: char, i: nat)
    requires i <= |s| && !IsDigit(x)
    requires forall k :: i <= k < |s| ==> IsDigit(s[k]) || s[k] == x
    ensures RemoveCharFrom(s, x, i) == DigitFilterFrom(s, i)
    decreases |s| - i
  {
    if i < |s| {
      RemoveCharFromIsDigitFilterFrom(s, x, i + 1);
    }
  }

  /**
    On a string of digits and a non-digit `x`, removing `x` is filtering to
    digits: the result is exactly the digits of the string.
  */
  lemma RemoveCharIsDigitFilter(s: string, x: char)
    requires !IsDigit(x)
    requires forall k :: 0 <= k < |s| ==> IsDigit(s[k]) || s[k] == x
    ensures RemoveChar(s, x) == DigitFilter(s)
    ensures DigitsOf(RemoveChar(s, x), s)
  {
    RemoveCharFromIsDigitFilterFrom(s, x, 0);
    DigitFilterExact(s);
  }

  /** The first index from `i` on that does not hold whitespace, or `|s|`. */
  function SkipSpace(s: string, i: nat): (j: nat)
    requires i <= |s|
    ensures i <= j <= |s|
    ensures forall p :: i <= p < j ==> IsSpace(s[p])
    ensures j == |s| || !IsSpace(s[j])
    decreases |s| - i
  {
    if i < |s| && IsSpace(s[i]) then SkipSpace(s, i + 1) else i
  }

  /** The index just past the last non-whitespace character of `s[..j]`, or 0. */
  function SkipSpaceBack(s: string, j: nat): (e: nat)
    requires j <= |s|
    ensures e <= j
    ensures forall p :: e <= p < j ==> IsSpace(s[p])
    ensures e == 0 || !IsSpace(s[e - 1])
  {
    if j > 0 && IsSpace(s[j - 1]) then SkipSpaceBack(s, j - 1) else j
  }

  /** `r` is the slice of `s` at `i`, with only whitespace before and after it. */
  predicate PaddedAt(s: string, r: string, i: int) {
    0 <= i && i + |r| <= |s| && r == s[i..i + |r|]
    && (forall k :: 0 <= k < i ==> IsSpace(s[k]))
    && (forall k :: i + |r| <= k < |s| ==> IsSpace(s[k]))
  }

  /**
    `strip()`: the result is the slice of `s` between its leading and trailing
    whitespace runs, and has no whitespace at either end.
  */
  function Strip(s: string): (r: string)
    ensures Trimmed(r)
    ensures exists i :: 0 <= i <= |s| && PaddedAt(s, r, i)
  {
    var i := SkipSpace(s, 0);
    if i == |s| then
      assert PaddedAt(s, [], 0);
      []
    else
      var e := SkipSpaceBack(s, |s|);
      assert i < e by {
        assert !IsSpace(s[i]);
      }
      assert PaddedAt(s, s[i..e], i);
      s[i..e]
  }

  /** The first index from `i` on that holds whitespace, or `|s|`. */
  function SkipWord(s: string, i: nat): (j: nat)
    requires i <= |s|
    ensures i <= j <= |s|
    ensures forall p :: i <= p < j ==> !IsSpace(s[p])
    ensures j == |s| || IsSpace(s[j])
    decreases |s| - i
  {
    if i < |s| && !IsSpace(s[i]) then SkipWord(s, i + 1) else i
  }

  /** The tokens of `s[i..]`: skip whitespace, take the run of non-whitespace that follows, repeat. */
  function SplitFrom(s: string, i: nat): seq<string>
    requires i <= |s|
    decreases |s| - i
  {
    var j := SkipSpace(s, i);
    if j == |s| then []
    else
      var k := SkipWord(s, j);
      [s[j..k]] + SplitFrom(s, k)
  }

  /** Python `s.split()` with no separator: the maximal runs of non-whitespace. */
  function Split(s: string): seq<string> {
    SplitFrom(s, 0)
  }

  lemma {:induction false} SplitFromBounds(s: string, i: nat, k: nat) returns (j: nat, e: nat)
    requires i <= |s|
    requires i == 0 || i == |s| || IsSpace(s[i])
    requires k < |SplitFrom(s, i)|
    ensures i <= j < e <= |s| && SplitFrom(s, i)[k] == s[j..e]
    ensures j == 0 || IsSpace(s[j - 1])
    ensures e == |s| || IsSpace(s[e])
    decreases |s| - i
  {
    var a := SkipSpace(s, i);
    var b := SkipWord(s, a);
    assert SplitFrom(s, i) == [s[a..b]] + SplitFrom(s, b);
    if k == 0 {
      j, e := a, b;
      if a > i {
        assert IsSpace(s[a - 1]);
      }
    } else {
      j, e := SplitFromBounds(s, b, k - 1);
    }
  }

  /**
    Each token of `split()` is a maximal run of non-whitespace: the slice
    `s[j..e]` of the input, with whitespace or the start of the text before
    it, and whitespace or the end of the text after it.
  */
  lemma SplitTokenBounds(s: string, k: nat) returns (j: nat, e: nat)
    requires k < |Split(s)|
    ensures j < e <= |s| && Split(s)[k] == s[j..e]
    ensures j == 0 || IsSpace(s[j - 1])
    ensures e == |s| || IsSpace(s[e])
  {
    j, e := SplitFromBounds(s, 0, k);
  }

  /** `tok` is the slice `s[j..e]`, with whitespace or the start before it and whitespace or the end after it. */
  predicate TokenAt(s: string, tok: string, j: nat, e: nat) {
    j < e <= |s| && tok == s[j..e]
    && (j == 0 || IsSpace(s[j - 1]))
    && (e == |s| || IsSpace(s[e]))
  }

  /**
    `js` and `es` bound the tokens `toks` of `s` in order: token `k` is the
    slice `s[js[k]..es[k]]` at or after `lo`, and it ends before the next starts.
  */
  predicate TokensAt(s: string, toks: seq<string>, lo: nat, js: seq<nat>, es: seq<nat>) {
    |js| == |toks| && |es| == |toks|
    && (forall k :: 0 <= k < |js| ==> lo <= js[k] && TokenAt(s, toks[k], js[k], es[k]))
    && (forall k :: 0 <= k < |js| - 1 ==> es[k] < js[k + 1])
  }

  lemma ConsAt<T>(x: T, xs: seq<T>, k: nat)
    requires 1 <= k <= |xs|
    ensures ([x] + xs)[k] == xs[k - 1]
  {
  }

  lemma TokensAtCons(s: string, tok: string, toks: seq<string>, a: nat, b: nat, js: seq<nat>, es: seq<nat>)
    requires TokenAt(s, tok, a, b)
    requires TokensAt(s, toks, b, js, es)
    requires js != [] ==> b < js[0]
    ensures TokensAt(s, [tok] + toks, a, [a] + js, [b] + es)
  {
    forall k | 1 <= k < |js| + 1
      ensures a <= ([a] + js)[k] && TokenAt(s, ([tok] + toks)[k], ([a] + js)[k], ([b] + es)[k])
    {
      ConsAt(a, js, k);
      ConsAt(b, es, k);
      ConsAt(tok, toks, k);
    }
    forall k | 1 <= k < |js|
      ensures ([b] + es)[k] < ([a] + js)[k + 1]
    {
      ConsAt(b, es, k);
      ConsAt(a, js, k + 1);
    }
  }

  lemma {:induction false} SplitFromAllBounds(s: string, i: nat) returns (js: seq<nat>, es: seq<nat>)
    requires i <= |s|
    requires i == 0 || i == |s| || IsSpace(s[i])
    ensures TokensAt(s, SplitFrom(s, i), i, js, es)
    decreases |s| - i
  {
    var a := SkipSpace(s, i);
    if a == |s| {
      js, es := [], [];
    } else {
      var b := SkipWord(s, a);
      assert SplitFrom(s, i) == [s[a..b]] + SplitFrom(s, b);
      var js', es' := SplitFromAllBounds(s, b);
      if a > i {
        assert IsSpace(s[a - 1]);
      }
      if js' != [] {
        assert !IsSpace(s[b - 1]);
      }
      TokensAtCons(s, s[a..b], SplitFrom(s, b), a, b, js', es');
      js, es := [a] + js', [b] + es';
    }
  }

  /**
    The tokens of `split()` in order: token `k` is the slice `s[js[k]..es[k]]`,
    a maximal run of non-whitespace, and each token ends before the next one
    starts, so the tokens appear in the order of the text.
  */
  lemma SplitTokensInOrder(s: string) returns (js: seq<nat>, es: seq<nat>)
    ensures |js| == |es| == |Split(s)|
    ensures forall k :: 0 <= k < |js| ==> TokenAt(s, Split(s)[k], js[k], es[k])
    ensures forall k :: 0 <= k < |js| - 1 ==> es[k] < js[k + 1]
  {
    js, es := SplitFromAllBounds(s, 0);
  }

  lemma {:induction false} SplitFromWords(s: string, i: nat)
    requires i <= |s|
    ensures forall k :: 0 <= k < |SplitFrom(s, i)| ==> IsWord(SplitFrom(s, i)[k])
    decreases |s| - i
  {
    var j := SkipSpace(s, i);
    if j < |s| {
      var k := SkipWord(s, j);
      SplitFromWords(s, k);
      assert IsWord(s[j..k]);
    }
  }

  /** Every token of `split()` is non-empty and holds no whitespace. */
  lemma SplitWords(s: string)
    ensures forall k :: 0 <= k < |Split(s)| ==> IsWord(Split(s)[k])
  {
    SplitFromWords(s, 0);
  }

  /** The non-whitespace characters of `s`, in order. */
  function NonSpace(s: string): string {
    if s == [] then [] else (if IsSpace(s[0]) then [] else [s[0]]) + NonSpace(s[1..])
  }

  function Concat(ws: seq<string>): string {
    if ws == [] then [] else ws[0] + Concat(ws[1..])
  }

  lemma {:induction false} NonSpaceAppend(a: string, b: string)
    ensures NonSpace(a + b) == NonSpace(a) + NonSpace(b)
  {
    if a == [] {
      assert a + b == b;
    } else {
      assert (a + b)[1..] == a[1..] + b;
      NonSpaceAppend(a[1..], b);
    }
  }

  lemma {:induction false} NonSpaceOfWord(w: string)
    requires forall k :: 0 <= k < |w| ==> !IsSpace(w[k])
    ensures NonSpace(w) == w
  {
    if w != [] {
      NonSpaceOfWord(w[1..]);
    }
  }

  lemma {:induction false} NonSpaceOfSpaces(w: string)
    requires forall k :: 0 <= k < |w| ==> IsSpace(w[k])
    ensures NonSpace(w) == []
  {
    if w != [] {
      NonSpaceOfSpaces(w[1..]);
    }
  }

  /** Cutting `s[i..]` at `j` cuts its non-whitespace characters there too. */
  lemma NonSpaceCut(s: string, i: nat, j: nat)
    requires i <= j <= |s|
    ensures NonSpace(s[i..]) == NonSpace(s[i..j]) + NonSpace(s[j..])
  {
    assert s[i..] == s[i..j] + s[j..];
    NonSpaceAppend(s[i..j], s[j..]);
  }

  lemma ConcatCons(w: string, ws: seq<string>)
    ensures Concat([w] + ws) == w + Concat(ws)
  {
    assert ([w] + ws)[1..] == ws;
  }

  lemma {:induction false} SplitFromKeepsNonSpace(s: string, i: nat)
    requires i <= |s|
    ensures Concat(SplitFrom(s, i)) == NonSpace(s[i..])
    decreases |s| - i
  {
    var j := SkipSpace(s, i);
    NonSpaceCut(s, i, j);
    NonSpaceOfSpaces(s[i..j]);
    assert NonSpace(s[i..]) == NonSpace(s[j..]);
    if j < |s| {
      var k := SkipWord(s, j);
      NonSpaceCut(s, j, k);
      NonSpaceOfWord(s[j..k]);
      SplitFromKeepsNonSpace(s, k);
      ConcatCons(s[j..k], SplitFrom(s, k));
      assert SplitFrom(s, i) == [s[j..k]] + SplitFrom(s, k);
    } else {
      assert s[j..] == [];
    }
  }

  /**
    `split()` loses nothing but whitespace: joining its tokens gives back the
    non-whitespace characters of the input, in order.
  */
  lemma SplitKeepsNonSpace(s: string)
    ensures Concat(Split(s)) == NonSpace(s)
  {
    SplitFromKeepsNonSpace(s, 0);
    assert s[0..] == s;
  }

  /** `strip()` is idempotent. */
  lemma StripIdempotent(s: string)
    ensures Strip(Strip(s)) == Strip(s)
  {
    var r := Strip(s);
    if r != [] {
      assert SkipSpace(r, 0) == 0;
      assert SkipSpaceBack(r, |r|) == |r|;
      assert r[0..|r|] == r;
    }
  }

  /** Lowering commutes with slicing. */
  lemma LowerSlice(s: string, i: int, j: int)
    requires 0 <= i <= j <= |s|
    ensures Lower(s)[i..j] == Lower(s[i..j])
  {
  }
}
