/** Amounts of minor units: checked arithmetic, and the decimal border of money.go. */
module Amounts {
  import opened Int64
  import opened Outcome

  const MAX_DECIMAL_PLACES := 9

  predicate ValidDecimalPlaces(places: int) {
    0 <= places <= MAX_DECIMAL_PLACES
  }

  /** An amount with what makes it readable. */
  datatype Money = Money(amount: int, currency: string, decimalPlaces: int)

  // ---------------------------------------------------------------- checked arithmetic

  /** The sum is judged by its sign after it wrapped, and the judgement is exact. */
  function Add(a: int, b: int): (r: Result<int>)
    requires Fits(a) && Fits(b)
    ensures r == if Fits(a + b) then Ok(a + b) else Err(AmountOverflow)
  {
    var sum := Wrap(a + b);
    assert !Fits(a + b) ==> sum == a + b - SPAN || sum == a + b + SPAN by { WrapOnce(a + b); }
    if (a > 0 && b > 0 && sum < 0) || (a < 0 && b < 0 && sum >= 0) then Err(AmountOverflow) else Ok(sum)
  }

  /** Subtraction likewise, MIN included on either side. */
  function Sub(a: int, b: int): (r: Result<int>)
    requires Fits(a) && Fits(b)
    ensures r == if Fits(a - b) then Ok(a - b) else Err(AmountOverflow)
  {
    var difference := Wrap(a - b);
    assert !Fits(a - b) ==> difference == a - b - SPAN || difference == a - b + SPAN by { WrapOnce(a - b); }
    if (a >= 0 && b < 0 && difference < 0) || (a < 0 && b > 0 && difference >= 0) then Err(AmountOverflow)
    else Ok(difference)
  }

  lemma WrapOnce(x: int)
    requires 2 * MIN <= x <= 2 * MAX + 1
    ensures Fits(x) || Wrap(x) == (if x < MIN then x + SPAN else x - SPAN)
  {
    if x < MIN {
      ModShift(x - MIN, 1);
    } else if x > MAX {
      ModShift(x - MIN, -1);
    }
  }

  /** The largest balance that still has room for an amount. */
  function Ceiling(amount: int): (r: int)
    requires 0 <= amount && Fits(amount)
    ensures forall balance | Fits(balance) :: balance <= r <==> Fits(balance + amount)
  {
    MAX - amount
  }

  // ---------------------------------------------------------------- runs of digits

  predicate IsDigit(c: char) {
    '0' <= c <= '9'
  }

  predicate AllDigits(s: string) {
    forall k | 0 <= k < |s| :: IsDigit(s[k])
  }

  function DigitOf(c: char): nat
    requires IsDigit(c)
  {
    c as int - '0' as int
  }

  /** The number the first n characters spell. */
  function ValueUpTo(s: string, n: nat): nat
    requires n <= |s| && forall k | 0 <= k < n :: IsDigit(s[k])
  {
    if n == 0 then 0 else ValueUpTo(s, n - 1) * 10 + DigitOf(s[n - 1])
  }

  function Value(s: string): nat
    requires AllDigits(s)
  {
    ValueUpTo(s, |s|)
  }

  /** A magnitude under a sign. */
  function WithSign(negative: bool, magnitude: nat): int {
    if negative then 0 - magnitude else magnitude
  }

  function PowerOfTen(n: nat): (r: nat)
    ensures r > 0
  {
    if n == 0 then 1 else 10 * PowerOfTen(n - 1)
  }

  function Repeat(c: char, n: nat): (r: string)
    ensures |r| == n && forall k | 0 <= k < n :: r[k] == c
  {
    seq(n, _ => c)
  }

  lemma {:induction false} ValueOfPrefix(s: string, t: string, n: nat)
    requires n <= |s| && n <= |t| && s[..n] == t[..n] && AllDigits(s[..n])
    ensures forall k | 0 <= k < n :: IsDigit(s[k]) && IsDigit(t[k])
    ensures ValueUpTo(s, n) == ValueUpTo(t, n)
  {
    forall k | 0 <= k < n ensures IsDigit(s[k]) && s[k] == t[k] {
      assert s[..n][k] == s[k] && t[..n][k] == t[k];
    }
    if n > 0 {
      assert s[..n - 1] == s[..n][..n - 1] == t[..n - 1];
      ValueOfPrefix(s, t, n - 1);
    }
  }

  /** Trailing zeros scale a run of digits. */
  lemma {:induction false} ValueOfScaled(s: string, zeros: nat)
    requires AllDigits(s)
    ensures AllDigits(s + Repeat('0', zeros))
    ensures Value(s + Repeat('0', zeros)) == Value(s) * PowerOfTen(zeros)
  {
    var t := s + Repeat('0', zeros);
    if zeros == 0 {
      assert t == s;
    } else {
      var u := s + Repeat('0', zeros - 1);
      ValueOfScaled(s, zeros - 1);
      assert t[..|u|] == u[..|u|];
      ValueOfPrefix(t, u, |u|);
      assert Value(t) == Value(u) * 10;
    }
  }

  /** Leading zeros change nothing. */
  lemma {:induction false} ValueOfPadded(s: string, zeros: nat, n: nat)
    requires AllDigits(s) && n <= |s|
    ensures AllDigits(Repeat('0', zeros) + s)
    ensures ValueUpTo(Repeat('0', zeros) + s, zeros + n) == ValueUpTo(s, n)
  {
    var t := Repeat('0', zeros) + s;
    if n > 0 {
      ValueOfPadded(s, zeros, n - 1);
      assert t[zeros + n - 1] == s[n - 1];
    } else if zeros > 0 {
      ValueOfPadded(s, zeros - 1, 0);
      ValueOfPrefix(t, Repeat('0', zeros - 1) + s, zeros - 1);
    }
  }

  lemma {:induction false} ValueGrows(s: string, m: nat, n: nat)
    requires m <= n <= |s| && forall k | 0 <= k < n :: IsDigit(s[k])
    ensures ValueUpTo(s, m) <= ValueUpTo(s, n)
  {
    if m < n {
      ValueGrows(s, m, n - 1);
    }
  }

  /** The first thing wrong with a run of digits is at k: not a digit, and the digits before it still fit. */
  ghost predicate BreaksAt(digits: string, k: nat) {
    && k < |digits| && !IsDigit(digits[k])
    && AllDigits(digits[..k])
    && Value(digits[..k]) <= -MIN
  }

  /** Reads a run of digits, accumulating below zero because the range is one wider there.
      Every step is the sixty-four-bit one, and none of them wraps. */
  method ParseDigits(digits: string, negative: bool) returns (r: Result<int>)
    ensures r.Ok? <==> digits != "" && AllDigits(digits) && Fits(WithSign(negative, Value(digits)))
    ensures r.Ok? ==> r.value == WithSign(negative, Value(digits))
    ensures r.Err? ==>
            r.error == if digits == "" || exists k: nat :: BreaksAt(digits, k) then AmountSyntax else AmountOverflow
  {
    if digits == "" {
      return Err(AmountSyntax);
    }
    var value := 0;
    for i := 0 to |digits|
      invariant forall k | 0 <= k < i :: IsDigit(digits[k])
      invariant value == WithSign(true, ValueUpTo(digits, i)) && Fits(value)
    {
      var c := digits[i];
      ValueOfPrefix(digits, digits[..i], i);
      if !IsDigit(c) {
        assert BreaksAt(digits, i);
        return Err(AmountSyntax);
      }
      var digit := DigitOf(c);
      if value < TruncDiv(MIN + digit, 10) {
        assert ValueUpTo(digits, i + 1) > -MIN;
        NothingAfterOverflow(digits, i + 1);
        return Err(AmountOverflow);
      }
      value := Wrap(Wrap(value * 10) - digit);
    }
    NothingBreaks(digits);
    if negative {
      return Ok(value);
    }
    if value == MIN {
      return Err(AmountOverflow);
    }
    return Ok(Wrap(-value));
  }

  lemma NothingAfterOverflow(digits: string, n: nat)
    requires n <= |digits| && forall k | 0 <= k < n :: IsDigit(digits[k])
    requires ValueUpTo(digits, n) > -MIN
    ensures forall k: nat :: !BreaksAt(digits, k)
    ensures AllDigits(digits) ==> Value(digits) > -MIN
  {
    forall k: nat ensures !BreaksAt(digits, k) {
      if BreaksAt(digits, k) {
        assert k >= n;
        assert forall j | 0 <= j < k :: digits[..k][j] == digits[j];
        ValueOfPrefix(digits, digits[..k], k);
        ValueGrows(digits, n, k);
      }
    }
    if AllDigits(digits) {
      ValueGrows(digits, n, |digits|);
    }
  }

  lemma NothingBreaks(digits: string)
    requires AllDigits(digits)
    ensures forall k: nat :: !BreaksAt(digits, k)
  {
  }

  // ---------------------------------------------------------------- the decimal border

  /** The white space of Unicode, which is what is trimmed. */
  predicate IsSpace(c: char) {
    || c == ' ' || '\t' <= c <= '\r' || c == '\U{0085}' || c == '\U{00A0}' || c == '\U{1680}'
    || '\U{2000}' <= c <= '\U{200A}' || c == '\U{2028}' || c == '\U{2029}' || c == '\U{202F}'
    || c == '\U{205F}' || c == '\U{3000}'
  }

  function TrimLeft(text: string): (r: string)
    ensures r == "" || !IsSpace(r[0])
  {
    if text != "" && IsSpace(text[0]) then TrimLeft(text[1..]) else text
  }

  function TrimRight(text: string): (r: string)
    ensures r == "" || !IsSpace(r[|r| - 1])
    ensures r <= text
  {
    if text != "" && IsSpace(text[|text| - 1]) then TrimRight(text[..|text| - 1]) else text
  }

  function TrimSpace(text: string): string {
    TrimRight(TrimLeft(text))
  }

  /** Where a character first stands, and the length of the text where it does not. */
  function IndexOf(text: string, c: char): (k: nat)
    ensures k <= |text|
    ensures forall j | 0 <= j < k :: text[j] != c
    ensures k < |text| ==> text[k] == c
  {
    if text == "" || text[0] == c then 0 else 1 + IndexOf(text[1..], c)
  }

  /** The notation: an optional sign, digits, and an optional point with digits after it. */
  datatype Decimal = Decimal(sign: string, whole: string, point: bool, fraction: string) {
    predicate Valid(places: nat) {
      && (sign == "" || sign == "-" || sign == "+")
      && AllDigits(whole) && AllDigits(fraction)
      && (point || fraction == "")
      && |whole| + |fraction| > 0
      && |fraction| <= places
    }

    function Text(): string {
      sign + whole + if point then "." + fraction else ""
    }

    /** What it is worth in minor units: exact, with nothing rounded away. */
    function Worth(places: nat): int
      requires Valid(places)
    {
      var magnitude := (Value(whole) * PowerOfTen(|fraction|) + Value(fraction)) * PowerOfTen(places - |fraction|);
      WithSign(sign == "-", magnitude)
    }
  }

  /** d is how the text reads at a scale. */
  predicate Reads(text: string, places: nat, d: Decimal) {
    d.Valid(places) && TrimSpace(text) == d.Text()
  }

  /** Joined digits are worth the whole times its scale and the fraction. */
  lemma {:induction false} ValueOfJoined(whole: string, fraction: string, n: nat)
    requires AllDigits(whole) && AllDigits(fraction) && n <= |fraction|
    ensures AllDigits(whole + fraction)
    ensures ValueUpTo(whole + fraction, |whole| + n) == Value(whole) * PowerOfTen(n) + ValueUpTo(fraction, n)
  {
    var t := whole + fraction;
    if n == 0 {
      assert t[..|whole|] == whole[..|whole|];
      ValueOfPrefix(t, whole, |whole|);
    } else {
      ValueOfJoined(whole, fraction, n - 1);
      assert t[|whole| + n - 1] == fraction[n - 1];
      Tenfold(Value(whole), PowerOfTen(n - 1));
    }
  }

  lemma Tenfold(x: nat, y: nat)
    ensures x * (10 * y) == x * y * 10
  {
  }

  lemma WorthOfDigits(d: Decimal, places: nat)
    requires d.Valid(places)
    ensures var digits := d.whole + d.fraction + Repeat('0', places - |d.fraction|);
            digits != "" && AllDigits(digits) && d.Worth(places) == WithSign(d.sign == "-", Value(digits))
  {
    ValueOfJoined(d.whole, d.fraction, |d.fraction|);
    ValueOfScaled(d.whole + d.fraction, places - |d.fraction|);
  }

  /** A text has one reading, so an amount is not a matter of how it was cut. */
  lemma ReadingIsUnique(text: string, places: nat, d: Decimal, e: Decimal)
    requires Reads(text, places, d) && Reads(text, places, e)
    ensures d == e
  {
    CutOf(d, places);
    CutOf(e, places);
  }

  /** Signing and cutting undo writing. */
  function Signed(text: string): (string, string) {
    if text != "" && (text[0] == '-' || text[0] == '+') then (text[..1], text[1..]) else ("", text)
  }

  function Cut(text: string): Decimal {
    var (sign, body) := Signed(text);
    var k := IndexOf(body, '.');
    if k < |body| then Decimal(sign, body[..k], true, body[k + 1..]) else Decimal(sign, body, false, "")
  }

  lemma SignedOf(sign: string, body: string)
    requires sign == "" || sign == "-" || sign == "+"
    requires body != "" && body[0] != '-' && body[0] != '+'
    ensures Signed(sign + body) == (sign, body)
  {
    var text := sign + body;
    if sign == "" {
      assert text == body;
    } else {
      assert text[..1] == sign && text[1..] == body;
    }
  }

  lemma IndexOfPoint(whole: string, rest: string)
    requires AllDigits(whole) && (rest == "" || rest[0] == '.')
    ensures IndexOf(whole + rest, '.') == |whole|
  {
    var k := IndexOf(whole + rest, '.');
    assert forall j | 0 <= j < |whole| :: (whole + rest)[j] == whole[j];
    if rest != "" {
      assert (whole + rest)[|whole|] == '.';
    }
  }

  lemma CutOf(d: Decimal, places: nat)
    requires d.Valid(places)
    ensures Cut(d.Text()) == d && d.Text() != "" && d.Text() != "-" && d.Text() != "+"
  {
    var body := d.whole + if d.point then "." + d.fraction else "";
    assert d.Text() == d.sign + body;
    CutOfBody(d, body);
    SignedOf(d.sign, body);
  }

  lemma {:induction false} CutOfBody(d: Decimal, body: string)
    requires AllDigits(d.whole) && |d.whole| + |d.fraction| > 0 && (d.point || d.fraction == "")
    requires body == d.whole + if d.point then "." + d.fraction else ""
    ensures body != "" && (body[0] == '.' || IsDigit(body[0]))
    ensures var k := IndexOf(body, '.');
            k == |d.whole| && body[..k] == d.whole && (k < |body| <==> d.point)
              && (d.point ==> body[k + 1..] == d.fraction)
  {
    IndexOfPoint(d.whole, if d.point then "." + d.fraction else "");
    assert body[0] == if d.whole != "" then d.whole[0] else '.';
  }

  lemma TextOfCut(text: string)
    ensures Cut(text).Text() == text
  {
  }

  /** Takes the sign off a text and cuts the rest at its point. */
  method CutDecimal(text: string) returns (negative: bool, whole: string, fraction: string, hasPoint: bool)
    requires text != ""
    ensures var d := Cut(text);
            d.whole == whole && d.fraction == fraction && d.point == hasPoint && (d.sign == "-" <==> negative)
  {
    negative := false;
    var body := text;
    if body[0] == '-' {
      negative, body := true, body[1..];
    } else if body[0] == '+' {
      body := body[1..];
    }
    var k := IndexOf(body, '.');
    hasPoint := k < |body|;
    whole := body[..k];
    fraction := if hasPoint then body[k + 1..] else "";
    assert Signed(text).1 == body;
  }

  /** Reads a decimal written at a scale into minor units: accepted exactly when it is the
      notation and its scaled value fits, and then it is that value. */
  method ParseAmount(text: string, places: int) returns (r: Result<int>)
    ensures !ValidDecimalPlaces(places) ==> r == Err(DecimalPlaces)
    ensures ValidDecimalPlaces(places) ==> forall d | Reads(text, places, d) ::
              r == if Fits(d.Worth(places)) then Ok(d.Worth(places)) else Err(AmountOverflow)
    ensures r.Ok? ==> ValidDecimalPlaces(places) && Reads(text, places, Cut(TrimSpace(text)))
    ensures ValidDecimalPlaces(places) ==>
              (r == Err(AmountScale) <==> |Cut(TrimSpace(text)).fraction| > places)
  {
    if !ValidDecimalPlaces(places) {
      return Err(DecimalPlaces);
    }
    ReadingIsTheCut(text, places);
    var trimmed := TrimSpace(text);
    if trimmed == "" {
      return Err(AmountSyntax);
    }
    r := ParseTrimmed(trimmed, places);
  }

  /** The text between its white space: a sign, and digits around a point. */
  method ParseTrimmed(trimmed: string, places: nat) returns (r: Result<int>)
    requires trimmed != ""
    ensures var d := Cut(trimmed);
            && (d.Valid(places) ==> r == if Fits(d.Worth(places)) then Ok(d.Worth(places)) else Err(AmountOverflow))
            && (!d.Valid(places) ==> r.Err?)
            && (r == Err(AmountScale) <==> |d.fraction| > places)
  {
    var negative, whole, fraction, hasPoint := CutDecimal(trimmed);
    ghost var d := Cut(trimmed);
    if whole == "" && fraction == "" {
      return Err(AmountSyntax);
    }
    if hasPoint && |fraction| > places {
      return Err(AmountScale);
    }
    r := ParseDigits(whole + fraction + Repeat('0', places - |fraction|), negative);
    JoinedDigits(d, places);
  }

  /** A reading of a text can only be what cutting it answers. */
  lemma ReadingIsTheCut(text: string, places: nat)
    ensures forall d | Reads(text, places, d) :: d == Cut(TrimSpace(text))
    ensures Reads(text, places, Cut(TrimSpace(text))) <==> Cut(TrimSpace(text)).Valid(places)
  {
    forall d | Reads(text, places, d) ensures d == Cut(TrimSpace(text)) {
      CutOf(d, places);
    }
    TextOfCut(TrimSpace(text));
  }

  /** Where the parts are short enough, the joined digits are digits exactly when the parts are. */
  lemma JoinedDigits(d: Decimal, places: nat)
    requires (d.sign == "" || d.sign == "-" || d.sign == "+") && (d.point || d.fraction == "")
    requires |d.whole| + |d.fraction| > 0 && |d.fraction| <= places
    ensures var digits := d.whole + d.fraction + Repeat('0', places - |d.fraction|);
            && (AllDigits(digits) <==> d.Valid(places))
            && (d.Valid(places) ==> digits != "" && d.Worth(places) == WithSign(d.sign == "-", Value(digits))
                                    && forall k: nat :: !BreaksAt(digits, k))
  {
    var digits := d.whole + d.fraction + Repeat('0', places - |d.fraction|);
    if AllDigits(digits) {
      assert forall j | 0 <= j < |d.whole| :: digits[j] == d.whole[j];
      assert forall j | 0 <= j < |d.fraction| :: digits[|d.whole| + j] == d.fraction[j];
    }
    if d.Valid(places) {
      WorthOfDigits(d, places);
    }
  }

  // ---------------------------------------------------------------- writing

  function Digits(n: nat): (r: string)
    ensures r != "" && AllDigits(r)
    ensures n > 0 ==> r[0] != '0'
    ensures n == 0 ==> |r| == 1
  {
    if n < 10 then ['0' + n as char] else Digits(n / 10) + ['0' + (n % 10) as char]
  }

  lemma {:induction false} ValueOfDigits(n: nat)
    ensures Value(Digits(n)) == n
  {
    if n < 10 {
      assert DigitOf(Digits(n)[0]) == n;
      assert ValueUpTo(Digits(n), 0) == 0;
    } else {
      var head := Digits(n / 10);
      ValueOfDigits(n / 10);
      var s := Digits(n);
      assert s[..|head|] == head[..|head|];
      ValueOfPrefix(s, head, |head|);
      assert DigitOf(s[|head|]) == n % 10;
      assert Value(s) == ValueUpTo(s, |head|) * 10 + n % 10;
    }
  }

  /** Puts the decimal point into a run of digits. */
  function FormatMagnitude(digits: string, places: nat): string {
    if places == 0 then digits
    else
      var padded := if |digits| <= places then Repeat('0', places - |digits| + 1) + digits else digits;
      padded[..|padded| - places] + "." + padded[|padded| - places..]
  }

  /** Writes an amount as a decimal at a scale; a scale nobody may use is written as none. */
  function Format(amount: int, places: int): string
    requires Fits(amount)
  {
    var scale := if ValidDecimalPlaces(places) then places else 0;
    if amount < 0 then
      if amount == MIN then "-" + FormatMagnitude("9223372036854775808", scale)
      else "-" + FormatMagnitude(Digits(-amount), scale)
    else FormatMagnitude(Digits(amount), scale)
  }

  /** How a written magnitude reads. */
  function WrittenAs(sign: string, digits: string, places: nat): Decimal {
    if places == 0 then Decimal(sign, digits, false, "")
    else
      var padded := if |digits| <= places then Repeat('0', places - |digits| + 1) + digits else digits;
      Decimal(sign, padded[..|padded| - places], true, padded[|padded| - places..])
  }

  /** Padding a run of digits so that it is longer than the scale leaves its value. */
  lemma PaddedValue(digits: string, places: nat)
    requires digits != "" && AllDigits(digits) && |digits| <= places
    ensures var padded := Repeat('0', places - |digits| + 1) + digits;
            |padded| == places + 1 && AllDigits(padded) && Value(padded) == Value(digits)
  {
    ValueOfPadded(digits, places - |digits| + 1, |digits|);
  }

  lemma SplitValue(padded: string, places: nat)
    requires AllDigits(padded) && |padded| > places
    ensures var whole, fraction := padded[..|padded| - places], padded[|padded| - places..];
            && AllDigits(whole) && AllDigits(fraction)
            && Value(padded) == Value(whole) * PowerOfTen(places) + Value(fraction)
  {
    var whole, fraction := padded[..|padded| - places], padded[|padded| - places..];
    assert whole + fraction == padded;
    ValueOfJoined(whole, fraction, places);
  }

  lemma MagnitudeReadsBack(sign: string, digits: string, places: nat)
    requires digits != "" && AllDigits(digits) && (sign == "" || sign == "-")
    ensures var d := WrittenAs(sign, digits, places);
            && d.Valid(places) && d.Text() == sign + FormatMagnitude(digits, places)
            && d.Worth(places) == WithSign(sign == "-", Value(digits))
  {
    if places > 0 {
      var padded := if |digits| <= places then Repeat('0', places - |digits| + 1) + digits else digits;
      if |digits| <= places {
        PaddedValue(digits, places);
      }
      SplitValue(padded, places);
      TextWithPoint(WrittenAs(sign, digits, places));
    }
  }

  lemma TextWithPoint(d: Decimal)
    requires d.point
    ensures d.Text() == d.sign + (d.whole + "." + d.fraction)
  {
  }

  lemma SmallestMagnitude()
    ensures AllDigits("9223372036854775808")
    ensures Value("9223372036854775808") == -MIN
  {
    var upper, lower := "9223372036", "854775808";
    UpperMagnitude();
    LowerMagnitude();
    ValueOfJoined(upper, lower, 9);
    assert PowerOfTen(9) == 1_000_000_000;
    assert upper + lower == "9223372036854775808";
  }

  lemma UpperMagnitude()
    ensures AllDigits("9223372036") && Value("9223372036") == 9223372036
  {
    ValueStep("9223372036", 0, 0);
    ValueStep("9223372036", 1, 9);
    ValueStep("9223372036", 2, 92);
    ValueStep("9223372036", 3, 922);
    ValueStep("9223372036", 4, 9223);
    ValueStep("9223372036", 5, 92233);
    ValueStep("9223372036", 6, 922337);
    ValueStep("9223372036", 7, 9223372);
    ValueStep("9223372036", 8, 92233720);
    ValueStep("9223372036", 9, 922337203);
  }

  lemma LowerMagnitude()
    ensures AllDigits("854775808") && Value("854775808") == 854775808
  {
    ValueStep("854775808", 0, 0);
    ValueStep("854775808", 1, 8);
    ValueStep("854775808", 2, 85);
    ValueStep("854775808", 3, 854);
    ValueStep("854775808", 4, 8547);
    ValueStep("854775808", 5, 85477);
    ValueStep("854775808", 6, 854775);
    ValueStep("854775808", 7, 8547758);
    ValueStep("854775808", 8, 85477580);
  }

  lemma ValueStep(s: string, n: nat, v: nat)
    requires n < |s| && AllDigits(s) && ValueUpTo(s, n) == v
    ensures ValueUpTo(s, n + 1) == v * 10 + DigitOf(s[n])
  {
  }

  /** Nothing to trim around a text that neither starts nor ends with a space. */
  lemma TrimOfTight(text: string)
    requires text != "" && !IsSpace(text[0]) && !IsSpace(text[|text| - 1])
    ensures TrimSpace(text) == text
  {
  }

  /** Written one way only: a sign below zero and no other, no zero ahead of the first digit but a single
      one ahead of the point, and as many decimals as the scale has. */
  predicate Canonical(d: Decimal, amount: int, places: nat) {
    && d.sign == (if amount < 0 then "-" else "")
    && d.whole != "" && (|d.whole| > 1 ==> d.whole[0] != '0')
    && (d.point <==> places > 0) && |d.fraction| == places
  }

  lemma WrittenPlainly(sign: string, digits: string, places: nat)
    requires digits != "" && (digits[0] != '0' || |digits| == 1)
    ensures var d := WrittenAs(sign, digits, places);
            && d.sign == sign && d.whole != "" && (|d.whole| > 1 ==> d.whole[0] != '0')
            && (d.point <==> places > 0) && |d.fraction| == places
  {
  }

  /** What is trimmed of a text: white space at either end, all of it and nothing else. */
  lemma TrimSpaceTrims(text: string) returns (left: string, right: string)
    ensures text == left + TrimSpace(text) + right
    ensures forall k | 0 <= k < |left| :: IsSpace(left[k])
    ensures forall k | 0 <= k < |right| :: IsSpace(right[k])
    ensures TrimSpace(text) == "" || (!IsSpace(TrimSpace(text)[0]) && !IsSpace(TrimSpace(text)[|TrimSpace(text)| - 1]))
  {
    left := TrimLeftTrims(text);
    right := TrimRightTrims(TrimLeft(text));
    assert TrimSpace(text) != "" ==> TrimSpace(text)[0] == TrimLeft(text)[0];
  }

  /** White space is what has the White_Space property of Unicode. */
  lemma WhiteSpaceIs(c: char)
    ensures IsSpace(c) <==>
            || 9 <= c as int <= 13 || 0x2000 <= c as int <= 0x200A
            || c as int in {32, 0x85, 0xA0, 0x1680, 0x2028, 0x2029, 0x202F, 0x205F, 0x3000}
  {
  }

  lemma {:induction false} TrimLeftTrims(text: string) returns (left: string)
    ensures text == left + TrimLeft(text) && forall k | 0 <= k < |left| :: IsSpace(left[k])
  {
    if text != "" && IsSpace(text[0]) {
      var rest := TrimLeftTrims(text[1..]);
      left := [text[0]] + rest;
      assert text == [text[0]] + text[1..];
    } else {
      left := "";
    }
  }

  lemma {:induction false} TrimRightTrims(text: string) returns (right: string)
    ensures text == TrimRight(text) + right && forall k | 0 <= k < |right| :: IsSpace(right[k])
  {
    if text != "" && IsSpace(text[|text| - 1]) {
      var rest := TrimRightTrims(text[..|text| - 1]);
      right := rest + [text[|text| - 1]];
      assert text == text[..|text| - 1] + [text[|text| - 1]];
    } else {
      right := "";
    }
  }

  /** What Format writes, ParseAmount reads back to the same amount at the same scale: every
      sixty-four-bit amount, the smallest included, at every scale. */
  lemma FormatReadsBack(amount: int, places: int)
    requires Fits(amount) && ValidDecimalPlaces(places)
    ensures exists d :: Reads(Format(amount, places), places, d) && d.Worth(places) == amount
                        && Format(amount, places) == d.Text() && Canonical(d, amount, places)
  {
    DigitsAreOf(amount);
    var d := WrittenBack(amount, DigitsOf(amount), places);
    FormatIs(amount, places);
    assert Reads(Format(amount, places), places, d);
  }

  lemma WrittenBack(amount: int, digits: string, places: nat) returns (d: Decimal)
    requires digits != "" && AllDigits(digits) && (digits[0] != '0' || |digits| == 1)
    requires Value(digits) == if amount < 0 then -amount else amount
    ensures Canonical(d, amount, places) && d.Valid(places) && d.Worth(places) == amount
    ensures TrimSpace(d.Text()) == d.Text() == SignOf(amount) + FormatMagnitude(digits, places)
  {
    MagnitudeReadsBack(SignOf(amount), digits, places);
    WrittenPlainly(SignOf(amount), digits, places);
    d := WrittenAs(SignOf(amount), digits, places);
    TightText(d, places);
    TrimOfTight(d.Text());
  }

  function SignOf(amount: int): string {
    if amount < 0 then "-" else ""
  }

  lemma FormatIs(amount: int, places: int)
    requires Fits(amount) && ValidDecimalPlaces(places)
    ensures Format(amount, places) == SignOf(amount) + FormatMagnitude(DigitsOf(amount), places)
  {
  }

  /** The digits Format writes. */
  function DigitsOf(amount: int): string
    requires Fits(amount)
  {
    if amount == MIN then "9223372036854775808" else Digits(if amount < 0 then -amount else amount)
  }

  lemma DigitsAreOf(amount: int)
    requires Fits(amount)
    ensures var digits := DigitsOf(amount);
            && digits != "" && (digits[0] != '0' || |digits| == 1)
            && AllDigits(digits) && Value(digits) == if amount < 0 then -amount else amount
  {
    if amount == MIN {
      SmallestMagnitude();
    } else {
      ValueOfDigits(if amount < 0 then -amount else amount);
    }
  }

  lemma TightText(d: Decimal, places: nat)
    requires d.Valid(places) && d.whole != "" && (d.point ==> d.fraction != "")
    ensures d.Text() != "" && !IsSpace(d.Text()[0]) && !IsSpace(d.Text()[|d.Text()| - 1])
  {
    var last := if d.point then d.fraction else d.whole;
    assert d.Text()[|d.Text()| - 1] == last[|last| - 1];
    assert d.Text()[0] == (d.sign + d.whole)[0];
  }

  /** The two together: a round trip through the notation is the identity. */
  method FormatThenParse(amount: int, places: int) returns (r: Result<int>)
    requires Fits(amount) && ValidDecimalPlaces(places)
    ensures r == Ok(amount)
  {
    FormatReadsBack(amount, places);
    r := ParseAmount(Format(amount, places), places);
  }
}
