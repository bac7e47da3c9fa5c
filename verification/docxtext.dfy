/**
 * The text helpers of the Word exporter `src/utils/docx/generatePeriodicMalaaDocx.js`: the
 * direction marks put around a run of text, the normalisation of narrative paragraphs for
 * right-to-left layout (Arabic decimal separator, Arabic percent sign, mirrored parentheses),
 * and the Arabic-Indic rendering of section numbers.
 *
 * The regular expressions are written out as left-to-right scanners that resume after each
 * match, as `String.prototype.replace` with a global pattern does.
 */
module DocxText {
  import opened Wrappers
  import opened JsText

  const Lrm: char := '\U{200E}'
  const Rlm: char := '\U{200F}'
  const ArabicDecimal: char := '\U{066B}'
  const ArabicPercent: char := '\U{066A}'
  const ArabicZero: char := '\U{0660}'

  /** The class `[0-9A-Za-z%:().,\s/+\\-]`. */
  predicate InLatinClass(c: char) {
    IsDigit(c) || ('A' <= c <= 'Z') || ('a' <= c <= 'z')
    || c == '%' || c == ':' || c == '(' || c == ')' || c == '.' || c == ','
    || IsSpace(c) || c == '/' || c == '+' || c == '\\' || c == '-'
  }

  /** `isMostlyLatinOrNumeric`: the trimmed text is non-empty and entirely within the class. */
  predicate IsMostlyLatinOrNumeric(text: Option<string>) {
    var t := Trim(text.GetOr(""));
    t != [] && forall i :: 0 <= i < |t| ==> InLatinClass(t[i])
  }

  /**
   * `dirText`: the empty text (or none) stays empty; any other text is wrapped in a pair of
   * left-to-right marks when it is Latin or numeric, else in a pair of right-to-left marks.
   */
  function DirText(text: Option<string>): (r: string)
    ensures r == [] <==> text.GetOr("") == []
    ensures r != [] ==>
      |r| == |text.value| + 2 && r[1..|r| - 1] == text.value
      && r[0] == r[|r| - 1] == (if IsMostlyLatinOrNumeric(text) then Lrm else Rlm)
  {
    var s := text.GetOr("");
    if s == [] then ""
    else if IsMostlyLatinOrNumeric(text) then [Lrm] + s + [Lrm]
    else [Rlm] + s + [Rlm]
  }

  /** A text of digits only, possibly padded with whitespace, is marked left-to-right. */
  lemma NumbersAreLeftToRight(s: string)
    requires exists i :: 0 <= i < |s| && IsDigit(s[i])
    requires forall i :: 0 <= i < |s| ==> IsDigit(s[i]) || IsSpace(s[i])
    ensures DirText(Some(s)) == [Lrm] + s + [Lrm]
  {
    assert IsMostlyLatinOrNumeric(Some(s)) by {
      var t := Trim(s);
      var k :| 0 <= k < |s| && IsDigit(s[k]);
      assert !IsSpace(s[k]);
      TrimEmptyIffBlank(s);
      assert t != [];
      var a := TrimIsSlice(s);
      forall i | 0 <= i < |t| ensures InLatinClass(t[i]) {
        assert t[i] == s[a + i];
        assert IsDigit(s[a + i]) || IsSpace(s[a + i]);
      }
    }
  }

  /** A text holding a character outside the class after trimming (an Arabic letter, say) is marked right-to-left. */
  lemma OtherTextIsRightToLeft(s: string, k: nat)
    requires k < |Trim(s)| && !InLatinClass(Trim(s)[k])
    ensures DirText(Some(s)) == [Rlm] + s + [Rlm]
  {
  }

  /** Trimming keeps the contiguous slice of the text that starts at `a`. */
  lemma TrimIsSlice(s: string) returns (a: nat)
    ensures a + |Trim(s)| <= |s| && Trim(s) == s[a..a + |Trim(s)|]
  {
    var t := TrimStart(s);
    a := |s| - |t|;
    assert Trim(s) == t[..|Trim(s)|];
  }

  /** The parenthesis step: `(` and `)` trade places, every other character is kept. */
  function SwapParen(c: char): char {
    if c == '(' then ')' else if c == ')' then '(' else c
  }

  function SwapParens(s: string): (r: string)
    ensures |r| == |s| && forall i :: 0 <= i < |s| ==> r[i] == SwapParen(s[i])
  {
    seq(|s|, i requires 0 <= i < |s| => SwapParen(s[i]))
  }

  /** Swapping the parentheses twice gives the text back. */
  lemma SwapParensInvolution(s: string)
    ensures SwapParens(SwapParens(s)) == s
  {
    assert forall i :: 0 <= i < |s| ==> SwapParen(SwapParen(s[i])) == s[i];
  }

  /** A digit, a dot and a digit start at `i`. */
  predicate DecimalAt(s: string, i: int) {
    0 <= i && i + 2 < |s| && IsDigit(s[i]) && s[i + 1] == '.' && IsDigit(s[i + 2])
  }

  /** `s.replace(/(\d)\.(\d)/g, '$1٫$2')` applied to `s[i..]`. */
  function DecimalsFrom(s: string, i: nat): (r: string)
    requires i <= |s|
    ensures |r| == |s| - i
    decreases |s| - i
  {
    if i == |s| then ""
    else if DecimalAt(s, i) then [s[i], ArabicDecimal, s[i + 2]] + DecimalsFrom(s, i + 3)
    else [s[i]] + DecimalsFrom(s, i + 1)
  }

  /** The decimal step only ever turns a dot between two digits into the Arabic separator. */
  lemma {:induction false} DecimalsOnlyDots(s: string, i: nat, k: int)
    requires i <= k < |s|
    ensures var r := DecimalsFrom(s, i);
      r[k - i] == s[k] || (r[k - i] == ArabicDecimal && DecimalAt(s, k - 1))
    decreases |s| - i
  {
    var r := DecimalsFrom(s, i);
    if DecimalAt(s, i) {
      var rest := DecimalsFrom(s, i + 3);
      assert r == [s[i], ArabicDecimal, s[i + 2]] + rest;
      if k >= i + 3 {
        DecimalsOnlyDots(s, i + 3, k);
        assert r[k - i] == rest[k - (i + 3)];
      }
    } else {
      var rest := DecimalsFrom(s, i + 1);
      assert r == [s[i]] + rest;
      if k >= i + 1 {
        DecimalsOnlyDots(s, i + 1, k);
        assert r[k - i] == rest[k - (i + 1)];
      }
    }
  }

  /**
   * Every dot between two digits is converted, unless its left digit already closed the
   * previous match (as in the second dot of `1.2.3`): matches do not overlap.
   */
  lemma {:induction false} DecimalsEveryFreeDot(s: string, i: nat, k: int)
    requires i < k < |s| && DecimalAt(s, k - 1)
    requires !(k - 2 >= i && s[k - 2] == '.' && DecimalsFrom(s, i)[k - 2 - i] == ArabicDecimal)
    ensures DecimalsFrom(s, i)[k - i] == ArabicDecimal
    decreases |s| - i
  {
    var r := DecimalsFrom(s, i);
    if DecimalAt(s, i) {
      assert r[1] == ArabicDecimal && s[i + 1] == '.' && !IsDigit('.');
      if k >= i + 4 {
        var rest := DecimalsFrom(s, i + 3);
        if k >= i + 5 {
          assert r[k - 2 - i] == rest[k - 2 - (i + 3)];
        }
        DecimalsEveryFreeDot(s, i + 3, k);
      }
    } else {
      assert k >= i + 2;
      var rest := DecimalsFrom(s, i + 1);
      if k - 2 >= i + 1 {
        assert r[k - 2 - i] == rest[k - 2 - (i + 1)];
      }
      DecimalsEveryFreeDot(s, i + 1, k);
    }
  }

  /** The first index at or after `j` that does not hold a digit. */
  function DigitsEnd(s: string, j: nat): (e: nat)
    requires j <= |s|
    ensures j <= e <= |s| && (e < |s| ==> !IsDigit(s[e]))
    ensures forall m :: j <= m < e ==> IsDigit(s[m])
    decreases |s| - j
  {
    if j < |s| && IsDigit(s[j]) then DigitsEnd(s, j + 1) else j
  }

  /** The first index at or after `j` that does not hold whitespace. */
  function SpacesEnd(s: string, j: nat): (e: nat)
    requires j <= |s|
    ensures j <= e <= |s| && (e < |s| ==> !IsSpace(s[e]))
    ensures forall m :: j <= m < e ==> IsSpace(s[m])
    decreases |s| - j
  {
    if j < |s| && IsSpace(s[j]) then SpacesEnd(s, j + 1) else j
  }

  /** A run of digits from `j` that stops at `e` ends at `e`. */
  lemma {:induction false} DigitsEndAt(s: string, j: nat, e: nat)
    requires j <= e <= |s|
    requires forall m :: j <= m < e ==> IsDigit(s[m])
    requires e < |s| ==> !IsDigit(s[e])
    ensures DigitsEnd(s, j) == e
    decreases e - j
  {
    if j < e {
      DigitsEndAt(s, j + 1, e);
    }
  }

  /** A run of whitespace from `j` that stops at `e` ends at `e`. */
  lemma {:induction false} SpacesEndAt(s: string, j: nat, e: nat)
    requires j <= e <= |s|
    requires forall m :: j <= m < e ==> IsSpace(s[m])
    requires e < |s| ==> !IsSpace(s[e])
    ensures SpacesEnd(s, j) == e
    decreases e - j
  {
    if j < e {
      SpacesEndAt(s, j + 1, e);
    }
  }

  /**
   * A match of `(\d+(?:[٫]\d+)?)\s*%` starting at `i`: the end of the number and the end of the
   * match. Backtracking never helps this pattern (a shorter run of digits is followed by a
   * digit, which neither `٫`, `\s` nor `%` accepts), so the greedy reading is the match.
   */
  function PercentMatch(s: string, i: nat): (m: Option<(nat, nat)>)
    requires i <= |s|
    ensures m.Some? ==> i < m.value.0 < m.value.1 <= |s| && s[m.value.1 - 1] == '%'
    ensures m.Some? ==> forall j :: i <= j < m.value.0 ==> IsDigit(s[j]) || s[j] == ArabicDecimal
    ensures m.Some? ==> forall j :: m.value.0 <= j < m.value.1 - 1 ==> IsSpace(s[j])
  {
    if i < |s| && IsDigit(s[i]) then
      var d := DigitsEnd(s, i);
      var num := if d + 1 < |s| && s[d] == ArabicDecimal && IsDigit(s[d + 1]) then DigitsEnd(s, d + 1) else d;
      var w := SpacesEnd(s, num);
      if w < |s| && s[w] == '%' then Some((num, w + 1)) else None
    else None
  }

  /** `s.replace(/(\d+(?:[٫]\d+)?)\s*%/g, '$1٪')` applied to `s[i..]`. */
  function PercentsFrom(s: string, i: nat): (r: string)
    requires i <= |s|
    ensures |r| <= |s| - i
    ensures i < |s| ==> r != [] && r[0] == s[i]
    decreases |s| - i
  {
    if i == |s| then ""
    else match PercentMatch(s, i)
      case Some((num, end)) => s[i..num] + [ArabicPercent] + PercentsFrom(s, end)
      case None => [s[i]] + PercentsFrom(s, i + 1)
  }

  /** A text without a percent sign passes the percent step unchanged. */
  lemma {:induction false} PercentsNoSign(s: string, i: nat)
    requires i <= |s|
    requires forall j :: i <= j < |s| ==> s[j] != '%'
    ensures PercentsFrom(s, i) == s[i..]
    decreases |s| - i
  {
    if i < |s| {
      PercentsNoSign(s, i + 1);
      assert s[i..] == [s[i]] + s[i + 1..];
    }
  }

  /** The match found at a figure: the number ends at `num` and the match at `end`. */
  lemma PercentMatchAt(s: string, i: nat, p: nat, num: nat, end: nat)
    requires i < p <= num < end <= |s|
    requires forall m :: i <= m < p ==> IsDigit(s[m])
    requires p < num ==> p + 1 < num && s[p] == ArabicDecimal && forall m :: p < m < num ==> IsDigit(s[m])
    requires forall m :: num <= m < end - 1 ==> IsSpace(s[m])
    requires s[end - 1] == '%'
    ensures PercentMatch(s, i) == Some((num, end))
  {
    assert !IsDigit(s[num]) && s[num] != ArabicDecimal;
    DigitsEndAt(s, i, p);
    if p < num {
      DigitsEndAt(s, p + 1, num);
    }
    SpacesEndAt(s, num, end - 1);
  }

  /**
   * The percent step on a figure: a number at `i` (digits up to `p`, then optionally `٫` and
   * more digits up to `num`), then whitespace, then `%` ending at `end`, is one match. The
   * number is kept as it is, the whitespace and the sign become `٪`, and the scan resumes after
   * the sign.
   */
  lemma PercentRewrite(s: string, i: nat, p: nat, num: nat, end: nat)
    requires i < p <= num < end <= |s|
    requires forall m :: i <= m < p ==> IsDigit(s[m])
    requires p < num ==> p + 1 < num && s[p] == ArabicDecimal && forall m :: p < m < num ==> IsDigit(s[m])
    requires forall m :: num <= m < end - 1 ==> IsSpace(s[m])
    requires s[end - 1] == '%'
    ensures PercentMatch(s, i) == Some((num, end))
    ensures PercentsFrom(s, i) == s[i..num] + [ArabicPercent] + PercentsFrom(s, end)
  {
    PercentMatchAt(s, i, p, num, end);
    var rest := PercentsFrom(s, end);
    assert PercentsFrom(s, i) == s[i..num] + [ArabicPercent] + rest;
  }

  /** A text that is one figure, whitespace and `%` becomes the figure followed by `٪`. */
  lemma PercentWhole(u: string, p: nat, num: nat)
    requires 0 < p <= num < |u|
    requires forall m :: 0 <= m < p ==> IsDigit(u[m])
    requires p < num ==> p + 1 < num && u[p] == ArabicDecimal && forall m :: p < m < num ==> IsDigit(u[m])
    requires forall m :: num <= m < |u| - 1 ==> IsSpace(u[m])
    requires u[|u| - 1] == '%'
    ensures PercentsFrom(u, 0) == u[..num] + [ArabicPercent]
  {
    var end := |u|;
    var rest := PercentsFrom(u, end);
    assert rest == [];
    PercentRewrite(u, 0, p, num, end);
    assert u[0..num] + [ArabicPercent] + rest == u[..num] + [ArabicPercent];
  }

  /** A digit directly followed by `%` always starts a match. */
  lemma DigitThenSignMatches(s: string, i: nat)
    requires i <= |s|
    ensures i + 1 < |s| && IsDigit(s[i]) && s[i + 1] == '%' ==> PercentMatch(s, i) == Some((i + 1, i + 2))
  {
    if i + 1 < |s| && IsDigit(s[i]) && s[i + 1] == '%' {
      assert !IsDigit('%') && !IsSpace('%');
      assert DigitsEnd(s, i + 1) == i + 1;
      assert DigitsEnd(s, i) == i + 1;
      assert SpacesEnd(s, i + 1) == i + 1;
    }
  }

  /** Every character of `t` is whitespace. */
  predicate Blank(t: string) {
    forall m :: 0 <= m < |t| ==> IsSpace(t[m])
  }

  /** No `%` of `r` directly follows a digit. */
  predicate NoDigitBeforeSign(r: string) {
    forall k :: 0 < k < |r| && r[k] == '%' ==> !IsDigit(r[k - 1])
  }

  /** No `%` of `r` follows a digit, directly or across whitespace alone. */
  predicate NoNumberBeforeSign(r: string) {
    forall j, k :: 0 <= j < k < |r| && IsDigit(r[j]) && r[k] == '%' ==> !Blank(r[j + 1..k])
  }

  /** No `%` of `r` is preceded by whitespace alone. */
  predicate NoLeadingBlankSign(r: string) {
    forall k :: 0 <= k < |r| && r[k] == '%' ==> !Blank(r[..k])
  }

  lemma NoNumberBeforeSignConcat(a: string, b: string)
    requires NoNumberBeforeSign(a) && NoNumberBeforeSign(b)
    requires forall j :: 0 <= j < |a| && IsDigit(a[j]) && Blank(a[j + 1..]) ==> NoLeadingBlankSign(b)
    ensures NoNumberBeforeSign(a + b)
  {
    var r := a + b;
    forall j, k | 0 <= j < k < |r| && IsDigit(r[j]) && r[k] == '%' ensures !Blank(r[j + 1..k]) {
      if k < |a| {
        assert r[j] == a[j] && r[k] == a[k] && r[j + 1..k] == a[j + 1..k];
      } else if j >= |a| {
        assert r[j] == b[j - |a|] && r[k] == b[k - |a|] && r[j + 1..k] == b[j - |a| + 1..k - |a|];
      } else if Blank(r[j + 1..k]) {
        var between, tail, lead := r[j + 1..k], a[j + 1..], b[..k - |a|];
        forall m | 0 <= m < |tail| ensures IsSpace(tail[m]) {
          assert between[m] == tail[m];
        }
        forall m | 0 <= m < |lead| ensures IsSpace(lead[m]) {
          assert between[|a| - j - 1 + m] == lead[m];
        }
        assert false;
      }
    }
  }

  /** A character that is not a digit starts no match and is copied. */
  lemma PercentsSkip(s: string, q: nat)
    requires q < |s| && !IsDigit(s[q])
    ensures PercentsFrom(s, q) == [s[q]] + PercentsFrom(s, q + 1)
  {
    assert PercentMatch(s, q) == None;
  }

  /** The percent step copies a run of non-digits from `q` to `e` and resumes at `e`. */
  lemma {:induction false} PercentsCopyNonDigits(s: string, q: nat, e: nat)
    requires q <= e <= |s|
    requires forall m :: q <= m < e ==> !IsDigit(s[m])
    ensures PercentsFrom(s, q) == s[q..e] + PercentsFrom(s, e)
    decreases e - q
  {
    if q < e {
      var next, rest := PercentsFrom(s, q + 1), PercentsFrom(s, e);
      PercentsSkip(s, q);
      PercentsCopyNonDigits(s, q + 1, e);
      assert s[q..e] + rest == [s[q]] + next;
    }
  }

  /** After a digit that starts no match, the first character past the following whitespace is not `%`. */
  lemma NoMatchNextNotSign(s: string, i: nat)
    requires i < |s| && IsDigit(s[i]) && PercentMatch(s, i).None?
    ensures SpacesEnd(s, i + 1) < |s| ==> s[SpacesEnd(s, i + 1)] != '%'
  {
    if i + 1 < |s| && !IsDigit(s[i + 1]) {
      DigitsEndAt(s, i, i + 1);
    }
  }

  /** Whitespace followed by a text that starts with neither whitespace nor `%` has no `%` behind whitespace alone. */
  lemma BlankThenNoSign(spaces: string, tail: string)
    requires Blank(spaces)
    requires tail != [] ==> tail[0] != '%' && !IsSpace(tail[0])
    ensures NoLeadingBlankSign(spaces + tail)
  {
    var r := spaces + tail;
    assert forall m :: 0 <= m < |spaces| ==> r[m] == spaces[m];
    forall k | 0 <= k < |r| && r[k] == '%' ensures !Blank(r[..k]) {
      assert k > |spaces|;
      assert r[..k][|spaces|] == tail[0];
    }
  }

  /** Whitespace from `q` up to `w`, where no `%` stands, leaves no `%` behind whitespace alone. */
  lemma BlankRunNoLeadingSign(s: string, q: nat, w: nat)
    requires q <= w <= |s|
    requires forall m :: q <= m < w ==> IsSpace(s[m])
    requires w < |s| ==> s[w] != '%' && !IsSpace(s[w])
    ensures NoLeadingBlankSign(PercentsFrom(s, q))
  {
    assert forall m :: q <= m < w ==> !IsDigit(s[m]);
    PercentsCopyNonDigits(s, q, w);
    var spaces := s[q..w];
    assert Blank(spaces) by {
      forall m | 0 <= m < |spaces| ensures IsSpace(spaces[m]) {
        assert spaces[m] == s[q + m];
      }
    }
    BlankThenNoSign(spaces, PercentsFrom(s, w));
  }

  /** After a digit that starts no match, the rest of the output has no `%` behind whitespace alone. */
  lemma NoMatchNoLeadingBlankSign(s: string, i: nat)
    requires i < |s| && IsDigit(s[i]) && PercentMatch(s, i).None?
    ensures NoLeadingBlankSign(PercentsFrom(s, i + 1))
  {
    NoMatchNextNotSign(s, i);
    BlankRunNoLeadingSign(s, i + 1, SpacesEnd(s, i + 1));
  }

  /** The output of one match holds no `%`, and a digit in it is followed by the non-blank `٪`. */
  lemma MatchHeadNoSign(s: string, i: nat, num: nat)
    requires i < num <= |s|
    requires forall j :: i <= j < num ==> IsDigit(s[j]) || s[j] == ArabicDecimal
    ensures NoNumberBeforeSign(s[i..num] + [ArabicPercent])
    ensures forall j :: 0 <= j < num - i + 1 && IsDigit((s[i..num] + [ArabicPercent])[j]) ==>
      !Blank((s[i..num] + [ArabicPercent])[j + 1..])
  {
    var head := s[i..num] + [ArabicPercent];
    forall k | 0 <= k < |head| ensures head[k] != '%' {
      if k < |head| - 1 {
        assert head[k] == s[i + k];
      }
    }
    forall j | 0 <= j < |head| && IsDigit(head[j]) ensures !Blank(head[j + 1..]) {
      assert j < |head| - 1;
      assert head[j + 1..][|head| - j - 2] == ArabicPercent;
    }
  }

  /** A text where no `%` follows a digit across whitespace has none directly after a digit either. */
  lemma NoNumberNoDigit(r: string)
    requires NoNumberBeforeSign(r)
    ensures NoDigitBeforeSign(r)
  {
    forall k | 0 < k < |r| && r[k] == '%' ensures !IsDigit(r[k - 1]) {
      assert r[k..k] == [];
    }
  }

  /**
   * After the percent step no `%` follows a digit, directly or across whitespace: every such
   * sign was part of a match and became `٪`.
   */
  lemma {:induction false} PercentsNoDigitBeforeSign(s: string, i: nat)
    requires i <= |s|
    ensures NoNumberBeforeSign(PercentsFrom(s, i))
    ensures NoDigitBeforeSign(PercentsFrom(s, i))
    decreases |s| - i
  {
    if i < |s| {
      match PercentMatch(s, i)
      case Some((num, end)) =>
        PercentsNoDigitBeforeSign(s, end);
        MatchHeadNoSign(s, i, num);
        NoNumberBeforeSignConcat(s[i..num] + [ArabicPercent], PercentsFrom(s, end));
      case None =>
        PercentsNoDigitBeforeSign(s, i + 1);
        if IsDigit(s[i]) {
          NoMatchNoLeadingBlankSign(s, i);
        }
        NoNumberBeforeSignConcat([s[i]], PercentsFrom(s, i + 1));
    }
    NoNumberNoDigit(PercentsFrom(s, i));
  }

  /**
   * `normalizeParagraphText`: none or the empty text gives the empty text; otherwise the decimal
   * step, the percent step and the parenthesis step, in that order. What each step promises is
   * proved below: `DecimalsOnlyDots` and `DecimalsEveryFreeDot` for the decimal step,
   * `PercentsNoSign` and `PercentsNoDigitBeforeSign` for the percent step, `SwapParens` and
   * `SwapParensInvolution` for the parentheses, and `NormalizePlainText` for plain text, which
   * passes through unchanged.
   */
  function NormalizeParagraphText(input: Option<string>): (r: string)
    ensures input.GetOr("") == [] ==> r == []
  {
    var s := input.GetOr("");
    if s == [] then s
    else
      var d := DecimalsFrom(s, 0);
      SwapParens(PercentsFrom(d, 0))
  }

  /** On a text free of dots, percent signs and parentheses, normalisation is the identity. */
  lemma NormalizePlainText(s: string)
    requires forall i :: 0 <= i < |s| ==> s[i] != '.' && s[i] != '%' && s[i] != '(' && s[i] != ')'
    ensures NormalizeParagraphText(Some(s)) == s
  {
    if s != [] {
      var d := DecimalsFrom(s, 0);
      forall k | 0 <= k < |s| ensures d[k] == s[k] {
        DecimalsOnlyDots(s, 0, k);
      }
      assert d == s;
      PercentsNoSign(s, 0);
      assert s[0..] == s;
    }
  }

  /** Every character of `t` is a digit. */
  predicate AllDigits(t: string) {
    forall m :: 0 <= m < |t| ==> IsDigit(t[m])
  }

  /** Normalisation chains its three steps: the decimal step gives `u`, the percent step `r`, and `r` holds no parenthesis. */
  lemma NormalizeSteps(t: string, u: string, r: string)
    requires t != [] && DecimalsFrom(t, 0) == u && PercentsFrom(u, 0) == r
    requires forall m :: 0 <= m < |r| ==> r[m] != '(' && r[m] != ')'
    ensures NormalizeParagraphText(Some(t)) == r
  {
    SwapParensNoParens(r);
  }

  /** A text free of parentheses is left alone by the parenthesis step. */
  lemma SwapParensNoParens(t: string)
    requires forall m :: 0 <= m < |t| ==> t[m] != '(' && t[m] != ')'
    ensures SwapParens(t) == t
  {
  }

  /**
   * A paragraph that is a whole number, whitespace and a percent sign (`73 %`) becomes the
   * same digits followed by the Arabic percent sign (`73٪`).
   */
  lemma NormalizeWholePercent(a: string, blanks: string)
    requires a != [] && AllDigits(a) && Blank(blanks)
    ensures NormalizeParagraphText(Some(a + blanks + "%")) == a + [ArabicPercent]
  {
    var t := a + blanks + "%";
    var r := a + [ArabicPercent];
    assert forall m :: 0 <= m < |a| ==> t[m] == a[m] && r[m] == a[m];
    assert forall m :: |a| <= m < |t| - 1 ==> IsSpace(t[m]) by {
      forall m | |a| <= m < |t| - 1 ensures IsSpace(t[m]) {
        assert t[m] == blanks[m - |a|];
      }
    }
    assert forall m :: 0 <= m < |r| ==> r[m] != '(' && r[m] != ')';
    NoDecimalDot(t);
    PercentWhole(t, |a|, |a|);
    assert t[..|a|] == a;
    NormalizeSteps(t, t, r);
  }

  /** A text without a dot passes the decimal step unchanged. */
  lemma NoDecimalDot(t: string)
    requires forall m :: 0 <= m < |t| ==> t[m] != '.'
    ensures DecimalsFrom(t, 0) == t
  {
    var d := DecimalsFrom(t, 0);
    forall k | 0 <= k < |t| ensures d[k] == t[k] {
      DecimalsOnlyDots(t, 0, k);
    }
  }

  /** A text whose only dot sits between two digits has that dot, and nothing else, converted. */
  lemma OneDecimalDot(t: string, n: nat)
    requires 0 < n && n + 1 < |t| && IsDigit(t[n - 1]) && t[n] == '.' && IsDigit(t[n + 1])
    requires forall m :: 0 <= m < |t| && m != n ==> t[m] != '.'
    ensures DecimalsFrom(t, 0) == t[n := ArabicDecimal]
  {
    var d := DecimalsFrom(t, 0);
    forall k | 0 <= k < |t| ensures d[k] == t[n := ArabicDecimal][k] {
      if k == n {
        DecimalsEveryFreeDot(t, 0, n);
      } else {
        DecimalsOnlyDots(t, 0, k);
      }
    }
  }

  /** The decimal step on a decimal figure converts its dot and nothing else. */
  lemma DecimalFigureDots(a: string, f: string, blanks: string)
    requires a != [] && AllDigits(a) && f != [] && AllDigits(f) && Blank(blanks)
    ensures DecimalsFrom(a + "." + f + blanks + "%", 0) == a + [ArabicDecimal] + f + blanks + "%"
  {
    var t := a + "." + f + blanks + "%";
    var n := |a|;
    forall m | 0 <= m < |t| && m != n ensures t[m] != '.' {
      if m < n {
        assert t[m] == a[m];
      } else if m < n + 1 + |f| {
        assert t[m] == f[m - n - 1];
      } else if m < n + 1 + |f| + |blanks| {
        assert t[m] == blanks[m - n - 1 - |f|];
      }
    }
    assert t[n - 1] == a[n - 1] && t[n + 1] == f[0];
    OneDecimalDot(t, n);
    assert t[n := ArabicDecimal] == a + [ArabicDecimal] + f + blanks + "%";
  }

  /** A converted decimal figure: digits, `٫`, digits, whitespace, then `%`. */
  lemma DecimalFigureShape(a: string, f: string, blanks: string)
    requires a != [] && AllDigits(a) && f != [] && AllDigits(f) && Blank(blanks)
    ensures var u := a + [ArabicDecimal] + f + blanks + "%";
      && (forall m :: 0 <= m < |a| ==> IsDigit(u[m]))
      && u[|a|] == ArabicDecimal
      && (forall m :: |a| < m < |a| + 1 + |f| ==> IsDigit(u[m]))
      && (forall m :: |a| + 1 + |f| <= m < |u| - 1 ==> IsSpace(u[m]))
      && u[|u| - 1] == '%'
  {
    var u := a + [ArabicDecimal] + f + blanks + "%";
    var n, num := |a|, |a| + 1 + |f|;
    forall m | 0 <= m < n ensures IsDigit(u[m]) {
      assert u[m] == a[m];
    }
    forall m | n < m < num ensures IsDigit(u[m]) {
      assert u[m] == f[m - n - 1];
    }
    forall m | num <= m < |u| - 1 ensures IsSpace(u[m]) {
      assert u[m] == blanks[m - num];
    }
  }

  /** The percent step on a converted decimal figure keeps the number and emits `٪`. */
  lemma DecimalFigurePercent(a: string, f: string, blanks: string)
    requires a != [] && AllDigits(a) && f != [] && AllDigits(f) && Blank(blanks)
    ensures PercentsFrom(a + [ArabicDecimal] + f + blanks + "%", 0) == a + [ArabicDecimal] + f + [ArabicPercent]
  {
    var x := a + [ArabicDecimal] + f;
    var u := a + [ArabicDecimal] + f + blanks + "%";
    DecimalFigureShape(a, f, blanks);
    PercentWhole(u, |a|, |x|);
    assert u[..|x|] == x;
  }

  /**
   * A paragraph that is a decimal number, whitespace and a percent sign (`72.5 %`) becomes the
   * same digits around the Arabic decimal separator, followed by the Arabic percent sign
   * (`72٫5٪`).
   */
  lemma NormalizeDecimalPercent(a: string, f: string, blanks: string)
    requires a != [] && AllDigits(a) && f != [] && AllDigits(f) && Blank(blanks)
    ensures NormalizeParagraphText(Some(a + "." + f + blanks + "%")) == a + [ArabicDecimal] + f + [ArabicPercent]
  {
    var r := a + [ArabicDecimal] + f + [ArabicPercent];
    DecimalFigureDots(a, f, blanks);
    DecimalFigurePercent(a, f, blanks);
    assert forall m :: 0 <= m < |r| ==> r[m] != '(' && r[m] != ')' by {
      forall m | 0 <= m < |r| ensures r[m] != '(' && r[m] != ')' {
        if m < |a| {
          assert r[m] == a[m];
        } else if |a| < m < |r| - 1 {
          assert r[m] == f[m - |a| - 1];
        }
      }
    }
    NormalizeSteps(a + "." + f + blanks + "%", a + [ArabicDecimal] + f + blanks + "%", r);
  }

  /** A typical figure: `72.5%` reads `72٫5٪`. */
  lemma NormalizeDecimalExample()
    ensures NormalizeParagraphText(Some("72.5%")) == "72\U{066B}5\U{066A}"
  {
    var a := "72.5%";
    assert DecimalAt(a, 1);
    assert DecimalsFrom(a, 4) == "%";
    assert DecimalsFrom(a, 0) == "72\U{066B}5%";
    var a2 := "72\U{066B}5%";
    assert DigitsEnd(a2, 0) == 2;
    assert DigitsEnd(a2, 3) == 4;
    assert SpacesEnd(a2, 4) == 4;
    assert PercentsFrom(a2, 0) == "72\U{066B}5\U{066A}";
  }

  /** A whole figure in parentheses: `(`, digits, whitespace, `%`, `)`. */
  lemma ParenFigureShape(a: string, blanks: string)
    requires a != [] && AllDigits(a) && Blank(blanks)
    ensures var t := ['('] + a + blanks + ['%', ')'];
      && (forall m :: 1 <= m < 1 + |a| ==> IsDigit(t[m]))
      && (forall m :: 1 + |a| <= m < |t| - 2 ==> IsSpace(t[m]))
      && (forall m :: 0 <= m < |t| ==> t[m] != '.')
      && t[0] == '(' && t[|t| - 2] == '%' && t[|t| - 1] == ')'
  {
    var t := ['('] + a + blanks + ['%', ')'];
    forall m | 1 <= m < 1 + |a| ensures IsDigit(t[m]) {
      assert t[m] == a[m - 1];
    }
    forall m | 1 + |a| <= m < |t| - 2 ensures IsSpace(t[m]) {
      assert t[m] == blanks[m - 1 - |a|];
    }
  }

  /** The percent step on a whole figure in parentheses keeps the parentheses and the digits. */
  lemma ParenFigurePercent(a: string, blanks: string)
    requires a != [] && AllDigits(a) && Blank(blanks)
    ensures PercentsFrom(['('] + a + blanks + ['%', ')'], 0) == ['('] + a + [ArabicPercent, ')']
  {
    var t := ['('] + a + blanks + ['%', ')'];
    var end := |t| - 1;
    ParenFigureShape(a, blanks);
    var inner, after, rest := PercentsFrom(t, 1), PercentsFrom(t, end), PercentsFrom(t, |t|);
    PercentsSkip(t, 0);
    PercentRewrite(t, 1, 1 + |a|, 1 + |a|, end);
    PercentsSkip(t, end);
    assert rest == [];
    assert t[1..1 + |a|] == a;
  }

  /** The parenthesis step on a converted figure in parentheses swaps the two parentheses only. */
  lemma SwapParenFigure(a: string)
    requires AllDigits(a)
    ensures SwapParens(['('] + a + [ArabicPercent, ')']) == [')'] + a + [ArabicPercent, '(']
  {
    var r := ['('] + a + [ArabicPercent, ')'];
    var w := SwapParens(r);
    forall m | 0 <= m < |r| ensures w[m] == ([')'] + a + [ArabicPercent, '('])[m] {
      if 0 < m <= |a| {
        assert r[m] == a[m - 1];
      }
    }
  }

  /**
   * A whole figure in parentheses, `(73 %)` say, reads `)73٪(`: the digits are kept, the
   * whitespace and the sign become `٪`, and the two parentheses trade places.
   */
  lemma NormalizeParenFigure(a: string, blanks: string)
    requires a != [] && AllDigits(a) && Blank(blanks)
    ensures NormalizeParagraphText(Some(['('] + a + blanks + ['%', ')'])) == [')'] + a + [ArabicPercent, '(']
  {
    var t := ['('] + a + blanks + ['%', ')'];
    var r := ['('] + a + [ArabicPercent, ')'];
    ParenFigureShape(a, blanks);
    NoDecimalDot(t);
    ParenFigurePercent(a, blanks);
    SwapParenFigure(a);
  }

  /** The digit of `c` in Arabic-Indic script, other characters unchanged. */
  function IndicDigit(c: char): char {
    if IsDigit(c) then (ArabicZero as int + (c as int - '0' as int)) as char else c
  }

  predicate IsIndicDigit(c: char) {
    ArabicZero <= c <= '\U{0669}'
  }

  /** `arabicIndicNumber` on the text of a value: each ASCII digit is replaced, all else kept. */
  function ArabicIndic(s: string): (r: string)
    ensures |r| == |s| && forall i :: 0 <= i < |s| ==> r[i] == IndicDigit(s[i])
  {
    seq(|s|, i requires 0 <= i < |s| => IndicDigit(s[i]))
  }

  /** The reverse mapping, from Arabic-Indic digits back to ASCII digits. */
  function WesternDigit(c: char): char {
    if IsIndicDigit(c) then ('0' as int + (c as int - ArabicZero as int)) as char else c
  }

  /** `arabicIndicNumber(n)` for a natural number. */
  function ArabicIndicNumber(n: nat): (r: string)
    ensures |r| == |NatToString(n)| && forall i :: 0 <= i < |r| ==> IsIndicDigit(r[i])
  {
    ArabicIndic(NatToString(n))
  }

  /** Mapping the digits back recovers the decimal rendering: the conversion loses nothing. */
  lemma ArabicIndicNumberRoundTrip(n: nat)
    ensures var r := ArabicIndicNumber(n);
      seq(|r|, i requires 0 <= i < |r| => WesternDigit(r[i])) == NatToString(n)
  {
  }

  /** `sectionTitle(n, ar)`: the number in Arabic-Indic digits, a dot and a space, then the title. */
  function SectionTitle(n: nat, title: string): (r: string)
    ensures var k := |NatToString(n)|;
      |r| == k + 2 + |title| && r[k..k + 2] == ". " && r[k + 2..] == title
      && forall i :: 0 <= i < k ==> IsIndicDigit(r[i])
  {
    ArabicIndicNumber(n) + ". " + title
  }

  lemma SectionTitleExample()
    ensures SectionTitle(12, "x") == "\U{0661}\U{0662}. x"
  {
    assert NatToString(12) == "12";
  }
}
