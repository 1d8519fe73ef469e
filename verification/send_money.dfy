/**
 * The send-money screen of the mobile app: the amount field's sanitiser
 * `validateAmount`, JavaScript's `parseFloat` on the strings it produces, and
 * the guard chain of `handleSendMoney`. Amounts are integer hundredths of a
 * coin; a parsed amount is kept exactly as mantissa / 10^scale.
 */
module SendMoney {
  import opened Common

  predicate IsAmountChar(c: char) { IsDigit(c) || c == '.' }
  predicate AmountChars(s: string) { forall i :: 0 <= i < |s| ==> IsAmountChar(s[i]) }
  predicate AllDigits(s: string) { forall i :: 0 <= i < |s| ==> IsDigit(s[i]) }
  predicate HasDigitChar(s: string) { exists i :: 0 <= i < |s| && IsDigit(s[i]) }

  // ---------------------------------------------------------------------
  // String pieces
  // ---------------------------------------------------------------------

  /** `value.replace(/[^0-9.]/g, '')`: the digits and dots, in order. */
  function Clean(s: string): (r: string)
    ensures AmountChars(r)
    ensures forall c :: c in r <==> c in s && IsAmountChar(c)
  {
    FilterMembers(IsAmountChar, s);
    Filter(IsAmountChar, s)
  }

  lemma CleanKeepsAmount(s: string)
    requires AmountChars(s)
    ensures Clean(s) == s
  {
    FilterAll(IsAmountChar, s);
  }

  /** The number of '.' characters. */
  function Dots(s: string): nat {
    if s == [] then 0 else (if s[0] == '.' then 1 else 0) + Dots(s[1..])
  }

  lemma {:induction false} DotsAppend(a: string, b: string)
    ensures Dots(a + b) == Dots(a) + Dots(b)
  {
    if a == [] {
      assert a + b == b;
    } else {
      assert (a + b)[1..] == a[1..] + b;
      DotsAppend(a[1..], b);
    }
  }

  lemma {:induction false} DotsZero(s: string)
    ensures Dots(s) == 0 <==> forall i :: 0 <= i < |s| ==> s[i] != '.'
  {
    if s != [] {
      DotsZero(s[1..]);
      assert forall i :: 1 <= i < |s| ==> s[i] == s[1..][i - 1];
    }
  }

  /** The index of the first '.', or the length when there is none. */
  function FirstDot(s: string): (i: nat)
    ensures i <= |s|
    ensures forall j :: 0 <= j < i ==> s[j] != '.'
    ensures i < |s| ==> s[i] == '.'
  {
    if s == [] || s[0] == '.' then 0
    else
      var i := 1 + FirstDot(s[1..]);
      assert forall j :: 1 <= j < i ==> s[j] == s[1..][j - 1];
      i
  }

  predicate HasDot(s: string) { FirstDot(s) < |s| }

  /** The text before the first '.'. */
  function IntPart(s: string): string { s[..FirstDot(s)] }

  /** The text after the first '.', or "" when there is none. */
  function FracPart(s: string): string {
    if HasDot(s) then s[FirstDot(s) + 1..] else ""
  }

  lemma IntPartHasNoDot(s: string)
    ensures Dots(IntPart(s)) == 0
  {
    DotsZero(IntPart(s));
  }

  /** A string with a dot is its integer part, the dot and its fraction part; the dots add up. */
  lemma DotSplitsString(s: string)
    requires HasDot(s)
    ensures s == IntPart(s) + "." + FracPart(s)
    ensures Dots(FracPart(s)) == Dots(s) - 1
  {
    assert s == IntPart(s) + "." + FracPart(s);
    IntPartHasNoDot(s);
    DotsAppend(IntPart(s) + ".", FracPart(s));
    DotsAppend(IntPart(s), ".");
  }

  /** Reading back a string built from a dot-free integer part, a dot and a fraction. */
  lemma PartsOfJoined(a: string, b: string)
    requires Dots(a) == 0
    ensures HasDot(a + "." + b)
    ensures IntPart(a + "." + b) == a && FracPart(a + "." + b) == b
  {
    DotsZero(a);
    var s := a + "." + b;
    assert s[|a|] == '.';
    assert forall j :: 0 <= j < |a| ==> s[j] == a[j];
  }

  lemma NoDotParts(s: string)
    requires Dots(s) == 0
    ensures !HasDot(s) && IntPart(s) == s && FracPart(s) == ""
  {
    DotsZero(s);
    assert s[..|s|] == s;
  }

  /** The string with every '.' removed. */
  function RemoveDots(s: string): (r: string)
    ensures Dots(r) == 0
  {
    if s == [] then []
    else
      var r := (if s[0] == '.' then [] else [s[0]]) + RemoveDots(s[1..]);
      DotsAppend(if s[0] == '.' then [] else [s[0]], RemoveDots(s[1..]));
      r
  }

  /** `s.substring(0, n)`. */
  function Take(s: string, n: nat): (r: string)
    ensures |r| <= n && |r| <= |s|
    ensures r == s[..|r|]
    ensures |s| <= n ==> r == s
  {
    if |s| <= n then s else s[..n]
  }

  // ---------------------------------------------------------------------
  // split / join
  // ---------------------------------------------------------------------

  /** `s.split('.')`. */
  function Split(s: string): (parts: seq<string>)
    ensures |parts| == Dots(s) + 1
    ensures forall i :: 0 <= i < |parts| ==> Dots(parts[i]) == 0
  {
    if s == [] then [""]
    else
      var rest := Split(s[1..]);
      if s[0] == '.' then [""] + rest
      else
        assert ([s[0]] + rest[0])[1..] == rest[0];
        [[s[0]] + rest[0]] + rest[1..]
  }

  /** `parts.join('.')`. */
  function JoinDots(parts: seq<string>): string
    requires |parts| >= 1
  {
    if |parts| == 1 then parts[0] else parts[0] + "." + JoinDots(parts[1..])
  }

  /** `parts.join('')`. */
  function Concat(parts: seq<string>): string {
    if parts == [] then "" else parts[0] + Concat(parts[1..])
  }

  /** Splitting and joining with the same separator gives the string back. */
  lemma {:induction false} SplitJoin(s: string)
    ensures JoinDots(Split(s)) == s
  {
    if s != [] {
      SplitJoin(s[1..]);
      var rest := Split(s[1..]);
      if s[0] == '.' {
        assert Split(s)[1..] == rest;
      } else {
        assert Split(s)[1..] == rest[1..];
        if |rest| > 1 {
          assert JoinDots(rest) == rest[0] + "." + JoinDots(rest[1..]);
        }
      }
    }
  }

  /** The first piece is the text before the first dot. */
  lemma {:induction false} SplitHead(s: string)
    ensures Split(s)[0] == IntPart(s)
  {
    if s != [] && s[0] != '.' {
      SplitHead(s[1..]);
      assert IntPart(s) == [s[0]] + IntPart(s[1..]);
    }
  }

  /** After the first piece come the pieces of the text after the first dot. */
  lemma {:induction false} SplitTail(s: string)
    requires HasDot(s)
    ensures Split(s)[1..] == Split(FracPart(s))
  {
    if s[0] == '.' {
      assert FracPart(s) == s[1..];
    } else {
      SplitTail(s[1..]);
      assert FracPart(s) == FracPart(s[1..]);
    }
  }

  /** Joining the pieces without separator removes the dots. */
  lemma {:induction false} ConcatSplit(s: string)
    ensures Concat(Split(s)) == RemoveDots(s)
  {
    if s != [] {
      ConcatSplit(s[1..]);
      var rest := Split(s[1..]);
      if s[0] == '.' {
        assert Concat([""] + rest) == "" + Concat(rest);
      } else {
        assert Concat(Split(s)) == [s[0]] + rest[0] + Concat(rest[1..]);
      }
    }
  }

  lemma SplitNoDot(s: string)
    requires Dots(s) == 0
    ensures Split(s) == [s]
  {
    SplitJoin(s);
  }

  // ---------------------------------------------------------------------
  // validateAmount
  // ---------------------------------------------------------------------

  /** `validateAmount(value)` as written. */
  function ValidateAmount(value: string): (r: string)
    // digits and at most one dot, with the whole-coin digits of the cleaned text
    ensures AmountChars(r) && Dots(r) <= 1
    ensures IntPart(r) == IntPart(Clean(value))
  {
    var cleaned := Clean(value);
    var parts := Split(cleaned);
    if |parts| > 2 then
      DotsZero(cleaned);
      DotSplitsString(cleaned);
      SplitHead(cleaned);
      SplitTail(cleaned);
      ConcatSplit(FracPart(cleaned));
      DotPartsAreAmount(cleaned);
      RemoveDotsDigits(FracPart(cleaned));
      JoinedShape(parts[0], Concat(parts[1..]));
      parts[0] + "." + Concat(parts[1..])
    else if |parts| == 2 && |parts[1]| > 2 then
      DotsZero(cleaned);
      DotSplitsString(cleaned);
      SplitHead(cleaned);
      SplitTail(cleaned);
      SplitNoDot(FracPart(cleaned));
      DotPartsAreAmount(cleaned);
      NoDotDigits(FracPart(cleaned));
      var tail := parts[1][..2];
      assert forall i :: 0 <= i < |tail| ==> tail[i] == parts[1][i];
      JoinedShape(parts[0], tail);
      parts[0] + "." + tail
    else
      cleaned
  }

  /**
   * What `validateAmount` does, by the number of dots left after cleaning:
   * none, the cleaned text; one, the fraction cut to two digits; several, the
   * later dots dropped and the fraction kept whole.
   */
  lemma ValidateAmountCases(value: string)
    ensures var c := Clean(value);
            && (Dots(c) == 0 ==> ValidateAmount(value) == c)
            && (Dots(c) == 1 ==> ValidateAmount(value) == IntPart(c) + "." + Take(FracPart(c), 2))
            && (Dots(c) >= 2 ==> ValidateAmount(value) == IntPart(c) + "." + RemoveDots(FracPart(c)))
  {
    var c := Clean(value);
    if Dots(c) == 0 {
      ValidateAmountNoDot(value);
    } else if Dots(c) == 1 {
      ValidateAmountOneDot(value);
    } else {
      ValidateAmountManyDots(value);
    }
  }

  lemma ValidateAmountNoDot(value: string)
    requires Dots(Clean(value)) == 0
    ensures ValidateAmount(value) == Clean(value)
  {
  }

  lemma ValidateAmountOneDot(value: string)
    requires Dots(Clean(value)) == 1
    ensures var c := Clean(value);
            ValidateAmount(value) == IntPart(c) + "." + Take(FracPart(c), 2)
  {
    var c := Clean(value);
    DotsZero(c);
    assert HasDot(c);
    DotSplitsString(c);
    SplitHead(c);
    SplitTail(c);
    SplitNoDot(FracPart(c));
  }

  lemma ValidateAmountManyDots(value: string)
    requires Dots(Clean(value)) >= 2
    ensures var c := Clean(value);
            ValidateAmount(value) == IntPart(c) + "." + RemoveDots(FracPart(c))
  {
    var c := Clean(value);
    DotsZero(c);
    assert HasDot(c);
    DotSplitsString(c);
    SplitHead(c);
    SplitTail(c);
    ConcatSplit(FracPart(c));
  }

  lemma AmountCharsAppend(a: string, b: string)
    requires AmountChars(a) && AmountChars(b)
    ensures AmountChars(a + b)
  {
  }

  lemma {:induction false} RemoveDotsDigits(s: string)
    requires AmountChars(s)
    ensures AllDigits(RemoveDots(s))
  {
    if s != [] {
      RemoveDotsDigits(s[1..]);
    }
  }

  /** A dot-free amount string is all digits. */
  lemma NoDotDigits(s: string)
    requires AmountChars(s) && Dots(s) == 0
    ensures AllDigits(s)
  {
    DotsZero(s);
  }

  lemma DigitsAreAmount(s: string)
    requires AllDigits(s)
    ensures AmountChars(s) && Dots(s) == 0
  {
    DotsZero(s);
  }

  /**
   * The field only ever holds digits and at most one dot; when the cleaned input
   * had at most one dot, at most two digits follow it.
   */
  lemma ValidateAmountShape(value: string)
    ensures var r := ValidateAmount(value);
            && AmountChars(r) && Dots(r) <= 1
            && (Dots(Clean(value)) <= 1 ==> |FracPart(r)| <= 2)
  {
    var c := Clean(value);
    if Dots(c) == 0 {
      ValidateAmountNoDot(value);
      NoDotParts(c);
    } else if Dots(c) == 1 {
      ShapeOneDot(value);
    } else {
      ShapeManyDots(value);
    }
  }

  /** A dot-free amount prefix, a dot and digits: one dot, and the digits after it. */
  lemma JoinedShape(a: string, tail: string)
    requires AmountChars(a) && Dots(a) == 0 && AllDigits(tail)
    ensures var r := a + "." + tail;
            AmountChars(r) && Dots(r) == 1 && IntPart(r) == a && FracPart(r) == tail
  {
    DigitsAreAmount(tail);
    DotsAppend(a + ".", tail);
    DotsAppend(a, ".");
    PartsOfJoined(a, tail);
  }

  /** The pieces around the first dot of an amount string are amount strings. */
  lemma DotPartsAreAmount(c: string)
    requires AmountChars(c) && HasDot(c)
    ensures AmountChars(IntPart(c)) && Dots(IntPart(c)) == 0 && AmountChars(FracPart(c))
  {
    IntPartHasNoDot(c);
    var k := FirstDot(c);
    assert forall i :: 0 <= i < |IntPart(c)| ==> IntPart(c)[i] == c[i];
    assert forall i :: 0 <= i < |FracPart(c)| ==> FracPart(c)[i] == c[k + 1 + i];
  }

  lemma ShapeOneDot(value: string)
    requires Dots(Clean(value)) == 1
    ensures var r := ValidateAmount(value);
            AmountChars(r) && Dots(r) == 1 && |FracPart(r)| <= 2
  {
    var c := Clean(value);
    ValidateAmountOneDot(value);
    DotsZero(c);
    DotSplitsString(c);
    DotPartsAreAmount(c);
    var f := FracPart(c);
    NoDotDigits(f);
    var tail := Take(f, 2);
    assert forall i :: 0 <= i < |tail| ==> tail[i] == f[i];
    JoinedShape(IntPart(c), tail);
  }

  lemma ShapeManyDots(value: string)
    requires Dots(Clean(value)) >= 2
    ensures var r := ValidateAmount(value);
            AmountChars(r) && Dots(r) == 1
  {
    var c := Clean(value);
    ValidateAmountManyDots(value);
    DotsZero(c);
    DotSplitsString(c);
    DotPartsAreAmount(c);
    RemoveDotsDigits(FracPart(c));
    JoinedShape(IntPart(c), RemoveDots(FracPart(c)));
  }

  /** Digits, or digits, a dot and at most two digits, pass through unchanged. */
  lemma ValidateAmountKeepsWellFormed(a: string, f: string)
    requires AllDigits(a) && AllDigits(f) && |f| <= 2
    ensures ValidateAmount(a) == a
    ensures ValidateAmount(a + "." + f) == a + "." + f
  {
    DigitsAreAmount(a);
    DigitsAreAmount(f);
    CleanKeepsAmount(a);
    ValidateAmountCases(a);
    var s := a + "." + f;
    assert AmountChars(s);
    CleanKeepsAmount(s);
    DotsAppend(a + ".", f);
    DotsAppend(a, ".");
    PartsOfJoined(a, f);
    ValidateAmountCases(s);
  }

  /** Whatever the input, sanitising the sanitised text leaves one dot at most and two decimals at most. */
  lemma ValidateAmountTwice(value: string)
    ensures var r := ValidateAmount(ValidateAmount(value));
            Dots(r) <= 1 && |FracPart(r)| <= 2
  {
    var once := ValidateAmount(value);
    ValidateAmountShape(value);
    CleanKeepsAmount(once);
    ValidateAmountShape(once);
  }

  /**
   * Text with two dots keeps every digit after the first dot: nothing is cut, so
   * "1.2.345" becomes "1.2345", with four decimals.
   */
  lemma MultiDotKeepsLongFraction(a: string, b: string, c: string)
    requires AllDigits(a) && AllDigits(b) && AllDigits(c)
    ensures ValidateAmount(a + "." + b + "." + c) == a + "." + b + c
    ensures |FracPart(ValidateAmount(a + "." + b + "." + c))| == |b| + |c|
  {
    MultiDotJoinsFraction(a, b, c);
    assert a + "." + (b + c) == a + "." + b + c;
    DigitsAreAmount(a);
    PartsOfJoined(a, b + c);
  }

  /** Two dots between digits: the second dot is dropped. */
  lemma MultiDotJoinsFraction(a: string, b: string, c: string)
    requires AllDigits(a) && AllDigits(b) && AllDigits(c)
    ensures ValidateAmount(a + "." + b + "." + c) == a + "." + (b + c)
  {
    TwoDotParts(a, b, c);
    ValidateAmountManyDots(a + "." + b + "." + c);
  }

  /** The pasted text "1.2.345" stays in the field as "1.2345", with four decimals. */
  lemma PastedAmountExample(whole: string, tenths: string, rest: string)
    requires whole == "1" && tenths == "2" && rest == "345"
    ensures ValidateAmount(whole + "." + tenths + "." + rest) == whole + "." + tenths + rest
    ensures |FracPart(ValidateAmount(whole + "." + tenths + "." + rest))| == 4
  {
    assert IsDigit(whole[0]) && IsDigit(tenths[0]);
    assert IsDigit(rest[0]) && IsDigit(rest[1]) && IsDigit(rest[2]);
    MultiDotKeepsLongFraction(whole, tenths, rest);
  }

  /** The pieces of digits, a dot, digits, a dot and digits. */
  lemma TwoDotParts(a: string, b: string, c: string)
    requires AllDigits(a) && AllDigits(b) && AllDigits(c)
    ensures var s := a + "." + b + "." + c;
            && Clean(s) == s && Dots(s) == 2
            && IntPart(s) == a && FracPart(s) == b + "." + c
            && RemoveDots(b + "." + c) == b + c
  {
    var s := a + "." + b + "." + c;
    var f := b + "." + c;
    assert s == a + "." + f;
    DigitsAreAmount(a);
    DigitsAreAmount(b);
    DigitsAreAmount(c);
    OneDotJoin(b, c);
    OneDotJoin(a, f);
    PartsOfJoined(a, f);
    RemoveDotsBetweenDigits(b, c);
  }

  lemma RemoveDotsBetweenDigits(b: string, c: string)
    requires AllDigits(b) && AllDigits(c)
    ensures RemoveDots(b + "." + c) == b + c
  {
    assert b + "." + c == b + ("." + c);
    RemoveDotsOfDigits(b);
    RemoveDotsOfDigits(c);
    RemoveDotsAppend(b, "." + c);
    RemoveDotsDropsDot(c);
  }

  lemma RemoveDotsDropsDot(c: string)
    ensures RemoveDots("." + c) == RemoveDots(c)
  {
    var s := "." + c;
    assert s[0] == '.' && s[1..] == c;
  }

  /** Joining two amount strings with a dot adds one dot. */
  lemma OneDotJoin(a: string, b: string)
    requires AmountChars(a) && AmountChars(b)
    ensures AmountChars(a + "." + b) && Clean(a + "." + b) == a + "." + b
    ensures Dots(a + "." + b) == Dots(a) + 1 + Dots(b)
  {
    assert AmountChars(a + "." + b);
    CleanKeepsAmount(a + "." + b);
    DotsAppend(a + ".", b);
    DotsAppend(a, ".");
  }

  lemma {:induction false} RemoveDotsAppend(a: string, b: string)
    ensures RemoveDots(a + b) == RemoveDots(a) + RemoveDots(b)
  {
    if a == [] {
      assert a + b == b;
    } else {
      assert (a + b)[1..] == a[1..] + b;
      RemoveDotsAppend(a[1..], b);
    }
  }

  lemma {:induction false} RemoveDotsOfDigits(s: string)
    requires AllDigits(s)
    ensures RemoveDots(s) == s
  {
    if s != [] {
      RemoveDotsOfDigits(s[1..]);
    }
  }

  /** `validateAmount` with the two-decimal cut applied after the extra dots are dropped. */
  function ValidateAmountCorrected(value: string): (r: string)
    ensures AmountChars(r) && Dots(r) <= 1 && |FracPart(r)| <= 2
    ensures IntPart(r) == IntPart(Clean(value))
  {
    var cleaned := Clean(value);
    var parts := Split(cleaned);
    if |parts| >= 2 then
      var tail := Take(Concat(parts[1..]), 2);
      DotsZero(cleaned);
      DotSplitsString(cleaned);
      SplitHead(cleaned);
      SplitTail(cleaned);
      ConcatSplit(FracPart(cleaned));
      RemoveDotsDigits(FracPart(cleaned));
      IntPartHasNoDot(cleaned);
      DigitsAreAmount(tail);
      DotsAppend(parts[0] + ".", tail);
      DotsAppend(parts[0], ".");
      PartsOfJoined(parts[0], tail);
      parts[0] + "." + tail
    else
      NoDotParts(cleaned);
      cleaned
  }

  /** The corrected sanitiser is a fixed point on its own output. */
  lemma CorrectedIdempotent(value: string)
    ensures ValidateAmountCorrected(ValidateAmountCorrected(value)) == ValidateAmountCorrected(value)
  {
    var r := ValidateAmountCorrected(value);
    CleanKeepsAmount(r);
    if Dots(r) == 1 {
      DotsZero(r);
      DotSplitsString(r);
      SplitHead(r);
      SplitTail(r);
      SplitNoDot(FracPart(r));
      assert Split(r)[1..] == [FracPart(r)];
      assert Concat([FracPart(r)]) == FracPart(r);
    }
  }

  /** Where the cleaned input has at most one dot, the correction changes nothing. */
  lemma CorrectedAgrees(value: string)
    requires Dots(Clean(value)) <= 1
    ensures ValidateAmountCorrected(value) == ValidateAmount(value)
  {
    var c := Clean(value);
    if Dots(c) == 1 {
      DotsZero(c);
      DotSplitsString(c);
      SplitHead(c);
      SplitTail(c);
      SplitNoDot(FracPart(c));
      var parts := Split(c);
      assert parts == [IntPart(c), FracPart(c)] by {
        assert parts == [parts[0]] + parts[1..];
      }
      assert Concat(parts[1..]) == FracPart(c) by {
        assert parts[1..] == [FracPart(c)];
        assert Concat([FracPart(c)]) == FracPart(c) + Concat([]);
      }
      assert ValidateAmountCorrected(value) == IntPart(c) + "." + Take(FracPart(c), 2);
      if |FracPart(c)| > 2 {
        assert ValidateAmount(value) == IntPart(c) + "." + FracPart(c)[..2];
      } else {
        assert ValidateAmount(value) == c;
      }
    } else {
      assert |Split(c)| == 1;
    }
  }

  // ---------------------------------------------------------------------
  // parseFloat
  // ---------------------------------------------------------------------

  /** A JavaScript number as parsed from a decimal string: mantissa / 10^scale, or NaN. */
  datatype Number = NaN | Decimal(mantissa: nat, scale: nat)

  function Pow10(n: nat): (p: nat)
    ensures p >= 1
  {
    if n == 0 then 1 else 10 * Pow10(n - 1)
  }

  /** The length of the longest all-digit prefix. */
  function LeadingDigits(s: string): (n: nat)
    ensures n <= |s| && AllDigits(s[..n])
    ensures n < |s| ==> !IsDigit(s[n])
  {
    if s == [] || !IsDigit(s[0]) then 0
    else
      var n := 1 + LeadingDigits(s[1..]);
      assert forall j :: 1 <= j < n ==> s[j] == s[1..][j - 1];
      n
  }

  /** The value of a string of decimal digits. */
  function DigitsValue(s: string): nat
    requires AllDigits(s)
  {
    if s == [] then 0 else 10 * DigitsValue(s[..|s| - 1]) + (s[|s| - 1] as int - '0' as int)
  }

  /** `parseFloat(s)` on text without sign, exponent or leading blanks: digits, then an optional '.' and digits. */
  function ParseFloat(s: string): (r: Number)
    // NaN exactly when the text starts neither with a digit nor with '.' and a digit
    ensures r.NaN? <==> !(|s| > 0 && IsDigit(s[0])) && !(|s| > 1 && s[0] == '.' && IsDigit(s[1]))
    // the decimals are the digits read after the dot
    ensures r.Decimal? ==> r.scale < |s|
  {
    var whole := s[..LeadingDigits(s)];
    var rest := s[|whole|..];
    var frac := if rest != [] && rest[0] == '.' then rest[1..][..LeadingDigits(rest[1..])] else "";
    if whole == [] && frac == [] then NaN else Decimal(DigitsValue(whole + frac), |frac|)
  }

  /** On digits and dots, the digit prefix ends at the first dot. */
  lemma LeadingDigitsOfAmount(s: string)
    requires AmountChars(s)
    ensures LeadingDigits(s) == FirstDot(s)
  {
    var n := LeadingDigits(s);
    assert forall j :: 0 <= j < n ==> s[j] == s[..n][j];
  }

  /** The fraction part of an amount string with one dot is all digits and read whole. */
  lemma FractionOfAmount(s: string)
    requires AmountChars(s) && Dots(s) == 1
    ensures AllDigits(FracPart(s)) && LeadingDigits(FracPart(s)) == |FracPart(s)|
  {
    DotsZero(s);
    DotSplitsString(s);
    var f := FracPart(s);
    assert AmountChars(f) by {
      forall i | 0 <= i < |f| ensures IsAmountChar(f[i]) {
        assert f[i] == s[FirstDot(s) + 1 + i];
      }
    }
    NoDotDigits(f);
  }

  /**
   * On what the amount field can hold, `parseFloat` is NaN for "" and "." only,
   * and otherwise reads every digit, with as many decimals as follow the dot.
   */
  lemma ParseAmount(s: string)
    requires AmountChars(s) && Dots(s) <= 1
    ensures ParseFloat(s).NaN? <==> s == "" || s == "."
    ensures ParseFloat(s).Decimal? ==>
              AllDigits(IntPart(s) + FracPart(s))
              && ParseFloat(s) == Decimal(DigitsValue(IntPart(s) + FracPart(s)), |FracPart(s)|)
  {
    if Dots(s) == 1 {
      ParseAmountOneDot(s);
    } else {
      ParseAmountNoDot(s);
    }
  }

  lemma ParseAmountOneDot(s: string)
    requires AmountChars(s) && Dots(s) == 1
    ensures ParseFloat(s).NaN? <==> s == "."
    ensures ParseFloat(s).Decimal? ==>
              AllDigits(IntPart(s) + FracPart(s))
              && ParseFloat(s) == Decimal(DigitsValue(IntPart(s) + FracPart(s)), |FracPart(s)|)
  {
    LeadingDigitsOfAmount(s);
    var n := LeadingDigits(s);
    assert s[..n] == IntPart(s);
    DotsZero(s);
    DotSplitsString(s);
    FractionOfAmount(s);
    var f := FracPart(s);
    assert s[n..][1..] == f;
    assert f[..|f|] == f;
    assert |s| == |IntPart(s)| + 1 + |f|;
    assert s == "." <==> IntPart(s) == [] && f == [];
  }

  lemma ParseAmountNoDot(s: string)
    requires AmountChars(s) && Dots(s) == 0
    ensures ParseFloat(s).NaN? <==> s == ""
    ensures ParseFloat(s).Decimal? ==>
              AllDigits(IntPart(s) + FracPart(s))
              && ParseFloat(s) == Decimal(DigitsValue(IntPart(s) + FracPart(s)), |FracPart(s)|)
  {
    LeadingDigitsOfAmount(s);
    var n := LeadingDigits(s);
    assert s[..n] == IntPart(s);
    NoDotParts(s);
    assert s[n..] == [];
    assert IntPart(s) + FracPart(s) == s;
  }

  // ---------------------------------------------------------------------
  // handleSendMoney
  // ---------------------------------------------------------------------

  /** The daily transfer limit, 0.50 coins. */
  const DailyLimit: int := 50

  /** `v <= h / 100` with JavaScript's rule that NaN compares false. */
  predicate AtMost(v: Number, h: int) {
    v.Decimal? && v.mantissa * 100 <= h * Pow10(v.scale)
  }

  /** `v > h / 100`, false for NaN. */
  predicate Exceeds(v: Number, h: int) {
    v.Decimal? && v.mantissa * 100 > h * Pow10(v.scale)
  }

  /** The outcome of pressing "send": the first alert shown, or the confirmation dialog. */
  datatype SendOutcome =
    | MissingRecipient     // 'Inserisci un destinatario'
    | InvalidAmount        // 'Inserisci un importo valido'
    | InsufficientFunds    // 'Fondi insufficienti'
    | OverDailyLimit       // 'Limite superato'
    | Confirm(amount: Number)

  /**
   * `handleSendMoney()` as written. `userCoins` is the logged-in user's `coins`
   * (an unset value counts as 0, as `|| 0` makes it), or None without a user.
   * The amount field only ever holds `validateAmount` output.
   */
  function SendMoneyCheck(recipient: string, amount: string, userCoins: Option<int>): (r: SendOutcome)
    requires AmountChars(amount)
    ensures r == MissingRecipient <==> recipient == ""
    ensures r == InvalidAmount <==> recipient != "" && (amount == "" || AtMost(ParseFloat(amount), 0))
    ensures r == InsufficientFunds <==>
              recipient != "" && amount != "" && !AtMost(ParseFloat(amount), 0)
              && userCoins.Some? && Exceeds(ParseFloat(amount), userCoins.value)
    ensures r == OverDailyLimit <==>
              recipient != "" && amount != "" && !AtMost(ParseFloat(amount), 0)
              && !(userCoins.Some? && Exceeds(ParseFloat(amount), userCoins.value))
              && Exceeds(ParseFloat(amount), DailyLimit)
    ensures r.Confirm? <==>
              recipient != "" && amount != "" && !AtMost(ParseFloat(amount), 0)
              && !(userCoins.Some? && Exceeds(ParseFloat(amount), userCoins.value))
              && !Exceeds(ParseFloat(amount), DailyLimit)
    ensures r.Confirm? ==> r.amount == ParseFloat(amount)
    // a confirmed amount that is a number is within every bound
    ensures r.Confirm? && r.amount.Decimal? ==>
              Exceeds(r.amount, 0) && AtMost(r.amount, DailyLimit)
              && (userCoins.Some? ==> AtMost(r.amount, userCoins.value))
  {
    var v := ParseFloat(amount);
    if recipient == "" then MissingRecipient
    else if amount == "" || AtMost(v, 0) then InvalidAmount
    else if userCoins.Some? && Exceeds(v, userCoins.value) then InsufficientFunds
    else if Exceeds(v, DailyLimit) then OverDailyLimit
    else Confirm(v)
  }

  /**
   * Typing a lone "." passes every check: the field keeps ".", `parseFloat`
   * gives NaN, and NaN is neither <= 0 nor > the balance nor > 0.50.
   */
  lemma LoneDotReachesConfirmation(recipient: string, userCoins: Option<int>)
    requires recipient != ""
    ensures ValidateAmount(".") == "."
    ensures SendMoneyCheck(recipient, ".", userCoins) == Confirm(NaN)
  {
    assert Split(".") == ["", ""];
    assert AmountChars(".");
    CleanKeepsAmount(".");
    ParseAmount(".");
  }

  /** `handleSendMoney()` with the amount check written `!(parseFloat(amount) > 0)`, which refuses NaN. */
  function SendMoneyCheckCorrected(recipient: string, amount: string, userCoins: Option<int>): (r: SendOutcome)
    requires AmountChars(amount)
    ensures r == MissingRecipient <==> recipient == ""
    ensures r == InvalidAmount <==> recipient != "" && !Exceeds(ParseFloat(amount), 0)
    ensures r == InsufficientFunds <==>
              recipient != "" && Exceeds(ParseFloat(amount), 0)
              && userCoins.Some? && Exceeds(ParseFloat(amount), userCoins.value)
    ensures r == OverDailyLimit <==>
              recipient != "" && Exceeds(ParseFloat(amount), 0)
              && !(userCoins.Some? && Exceeds(ParseFloat(amount), userCoins.value))
              && Exceeds(ParseFloat(amount), DailyLimit)
    ensures r.Confirm? <==>
              recipient != "" && Exceeds(ParseFloat(amount), 0)
              && !(userCoins.Some? && Exceeds(ParseFloat(amount), userCoins.value))
              && !Exceeds(ParseFloat(amount), DailyLimit)
    // every confirmed amount is a number within every bound
    ensures r.Confirm? ==>
              && r.amount == ParseFloat(amount) && r.amount.Decimal?
              && Exceeds(r.amount, 0) && AtMost(r.amount, DailyLimit)
              && (userCoins.Some? ==> AtMost(r.amount, userCoins.value))
  {
    var v := ParseFloat(amount);
    if recipient == "" then MissingRecipient
    else if !Exceeds(v, 0) then InvalidAmount
    else if userCoins.Some? && Exceeds(v, userCoins.value) then InsufficientFunds
    else if Exceeds(v, DailyLimit) then OverDailyLimit
    else Confirm(v)
  }

  /** On the field's possible contents the two versions differ only for a lone ".". */
  lemma CorrectedCheckDiffersOnlyOnLoneDot(recipient: string, amount: string, userCoins: Option<int>)
    requires AmountChars(amount) && Dots(amount) <= 1 && amount != "."
    ensures SendMoneyCheckCorrected(recipient, amount, userCoins) == SendMoneyCheck(recipient, amount, userCoins)
  {
    ParseAmount(amount);
  }
}
