/** Whether a JSON number text denotes an integer, judged on the text alone. */
module NumberText {
  import opened Wrappers
  import opened Digits

  newtype int64 = x: int | -0x8000_0000_0000_0000 <= x < 0x8000_0000_0000_0000

  predicate IsMarker(c: char) { c == 'e' || c == 'E' }

  /** The exponent part of a number; NoExponent denotes 0. */
  datatype Exponent = NoExponent | Exponent(marker: char, sign: string, digits: string) {
    predicate Valid() {
      Exponent? ==> (marker == 'e' || marker == 'E') && (sign == "" || sign == "+" || sign == "-") && digits != "" && AllDigits(digits)
    }

    function Render(): string {
      if NoExponent? then "" else [marker] + sign + digits
    }

    function Power(): int
      requires Valid()
    {
      if NoExponent? then 0 else if sign == "-" then 0 - Value(digits) else Value(digits)
    }
  }

  /** The grammar of section 6 of RFC 8259: an optional minus, an integer part without leading zeros, an
      optional fraction (empty here when absent) and an optional exponent. */
  datatype Parts = Parts(negative: bool, whole: string, fraction: string, exponent: Exponent) {
    predicate Valid() { Canonical(whole) && AllDigits(fraction) && exponent.Valid() }

    function Mantissa(): string { whole + (if fraction == "" then "" else "." + fraction) }

    function Render(): string {
      (if negative then "-" else "") + Mantissa() + exponent.Render()
    }

    /** The rational number the text denotes. */
    function Denotes(): real
      requires Valid()
    {
      assert AllDigits(whole + fraction);
      var magnitude := Scaled(Value(whole + fraction), exponent.Power() - |fraction|);
      if negative then -magnitude else magnitude
    }
  }

  function TenTo(k: int): real {
    if k >= 0 then Pow10(k) as real else 1.0 / (Pow10(-k) as real)
  }

  function Scaled(v: nat, e: int): real { (v as real) * TenTo(e) }

  ghost predicate JsonNumber(text: string) {
    exists p: Parts :: p.Valid() && p.Render() == text
  }

  predicate IsInteger(r: real) { r == r.Floor as real }

  // ----- divisibility by a power of ten is trailing zeros -----

  /** 10^n divides v. */
  predicate Divides(n: nat, v: nat) { v % Pow10(n) == 0 }

  function Least(a: nat, b: nat): nat { if a < b then a else b }

  lemma {:induction false} ValueBelow(s: string)
    requires AllDigits(s)
    ensures Value(s) < Pow10(|s|)
  {
    if s != [] { ValueBelow(s[..|s| - 1]); }
  }

  lemma {:induction false} ValueZero(s: string)
    requires AllDigits(s)
    ensures Value(s) == 0 <==> AllZero(s)
  {
    if s != [] {
      var init := s[..|s| - 1];
      ValueZero(init);
      assert forall i :: 0 <= i < |init| ==> init[i] == s[i];
    }
  }

  /** 10^n divides a digit string's value exactly when its last n digits, or all of them, are zero. */
  lemma {:induction false} TrailingZeros(s: string, n: nat)
    requires AllDigits(s)
    ensures Divides(n, Value(s)) <==> AllZero(s[|s| - Least(n, |s|)..])
    decreases n
  {
    if n > 0 && s != [] {
      var init, c := s[..|s| - 1], s[|s| - 1];
      TrailingZeros(init, n - 1);
      TenStep(Value(init), Digit(c), Pow10(n - 1));
      LastDigits(s, n);
    }
  }

  lemma LastDigits(s: string, n: nat)
    requires s != [] && n > 0
    ensures var init := s[..|s| - 1];
            AllZero(s[|s| - Least(n, |s|)..]) <==> AllZero(init[|init| - Least(n - 1, |init|)..]) && s[|s| - 1] == '0'
  {
    var init := s[..|s| - 1];
    var t, u := s[|s| - Least(n, |s|)..], init[|init| - Least(n - 1, |init|)..];
    assert t == u + [s[|s| - 1]];
    assert t[|u|] == s[|s| - 1];
    assert forall i :: 0 <= i < |u| ==> t[i] == u[i];
  }

  lemma TenStep(v: nat, d: nat, p: nat)
    requires p > 0 && d < 10
    ensures (10 * v + d) % (10 * p) == 0 <==> v % p == 0 && d == 0
  {
    var q, r := v / p, v % p;
    assert v == p * q + r;
    assert 10 * v + d == (10 * p) * q + (10 * r + d);
    assert 0 <= 10 * r + d < 10 * p;
    ModUnique(10 * v + d, 10 * p, q, 10 * r + d);
  }

  lemma ModUnique(a: int, m: int, q: int, r: int)
    requires m > 0 && 0 <= r < m && a == m * q + r
    ensures a % m == r && a / m == q
  {
    var q', r' := a / m, a % m;
    assert a == m * q' + r' && 0 <= r' < m;
    var k := q - q';
    assert m * k == m * q - m * q';
    assert k >= 1 ==> m * k >= m;
    assert k <= -1 ==> m * k <= -m;
  }

  // ----- the denoted rational -----

  lemma QuotientIsInteger(v: nat, p: nat)
    requires p > 0
    ensures IsInteger((v as real) / (p as real)) <==> v % p == 0
  {
    var x := (v as real) / (p as real);
    var q, r := v / p, v % p;
    assert v == p * q + r;
    assert v as real == (p as real) * (q as real) + (r as real);
    assert x == (q as real) + (r as real) / (p as real);
    assert 0.0 <= (r as real) / (p as real) < 1.0;
    assert x.Floor == q;
    if r == 0 {
      assert (r as real) / (p as real) == 0.0;
    } else {
      assert (r as real) / (p as real) > 0.0;
    }
  }

  lemma NegatedIsInteger(r: real)
    ensures IsInteger(-r) <==> IsInteger(r)
  {
    if IsInteger(r) { assert -r == (-r.Floor) as real; }
    if IsInteger(-r) { assert r == (-((-r).Floor)) as real; }
  }

  lemma ScaledIsInteger(v: nat, e: int)
    ensures IsInteger(Scaled(v, e)) <==> e >= 0 || Divides(-e, v)
  {
    if e >= 0 {
      assert Scaled(v, e) == (v * Pow10(e)) as real;
    } else {
      QuotientIsInteger(v, Pow10(-e));
      assert Scaled(v, e) == (v as real) / (Pow10(-e) as real);
    }
  }

  /** The denoted rational is an integer exactly when the power is not negative or divides the digits. */
  lemma DenotesInteger(p: Parts)
    requires p.Valid() && AllDigits(p.whole + p.fraction)
    ensures var e := p.exponent.Power() - |p.fraction|;
            IsInteger(p.Denotes()) <==> e >= 0 || Divides(-e, Value(p.whole + p.fraction))
  {
    var e := p.exponent.Power() - |p.fraction|;
    var x := Scaled(Value(p.whole + p.fraction), e);
    assert IsInteger(p.Denotes()) <==> IsInteger(x) by {
      NegatedIsInteger(x);
      var y := -x;
      assert p.Denotes() == if p.negative then y else x;
    }
    ScaledIsInteger(Value(p.whole + p.fraction), e);
  }

  // ----- reading the parts back from the text -----

  const EXPONENT_BOUND: int := 0x100_0000_0000

  function TrimMinus(text: string): string {
    if text != "" && text[0] == '-' then text[1..] else text
  }

  /** The index of the first exponent marker, or -1. */
  function MarkerAt(text: string): (i: int)
    ensures -1 <= i < |text|
    ensures i >= 0 ==> IsMarker(text[i])
    ensures forall k :: 0 <= k < (if i < 0 then |text| else i) ==> !IsMarker(text[k])
  {
    if text == "" then -1
    else if IsMarker(text[0]) then 0
    else
      var rest := MarkerAt(text[1..]);
      assert forall k :: 1 <= k < |text| ==> text[k] == text[1..][k - 1];
      if rest < 0 then -1 else rest + 1
  }

  /** The text before the first dot and the text after it. */
  function Cut(text: string): (string, string) {
    if text == "" then ("", "")
    else if text[0] == '.' then ("", text[1..])
    else
      var (before, after) := Cut(text[1..]);
      ([text[0]] + before, after)
  }

  /** A signed decimal integer that fits 64 bits. */
  function ParseInt64(text: string): Option<int> {
    var digits := if text != "" && (text[0] == '+' || text[0] == '-') then text[1..] else text;
    if digits == "" || !AllDigits(digits) then None
    else
      var v := if text[0] == '-' then 0 - Value(digits) else Value(digits);
      if -0x8000_0000_0000_0000 <= v < 0x8000_0000_0000_0000 then Some(v) else None
  }

  function Clamp(v: int): int {
    if v < -EXPONENT_BOUND then -EXPONENT_BOUND else if v > EXPONENT_BOUND then EXPONENT_BOUND else v
  }

  /** The exponent as read from the text after the marker, clamped. */
  function ClampedExponent(text: string): int
    requires text != ""
  {
    match ParseInt64(text)
    case Some(v) => Clamp(v)
    case None => if text[0] == '-' then -EXPONENT_BOUND else EXPONENT_BOUND
  }

  /** The judgement on the parts: enough trailing zeros for the digits the exponent moves past the point. */
  predicate Judge(whole: string, fraction: string, exponent: int) {
    var dropped := |fraction| - exponent;
    if dropped <= 0 then true
    else if dropped <= |fraction| then AllZero(fraction[|fraction| - dropped..])
    else AllZero(fraction) && AllZero(whole[|whole| - Least(dropped - |fraction|, |whole|)..])
  }

  function MantissaOf(t: string): string { if MarkerAt(t) < 0 then t else t[..MarkerAt(t)] }

  /** No text ends at its exponent marker. */
  predicate Marked(t: string) { MarkerAt(t) + 1 < |t| || MarkerAt(t) < 0 }

  function ExponentOf(t: string): int
    requires Marked(t)
  {
    if MarkerAt(t) < 0 then 0 else ClampedExponent(t[MarkerAt(t) + 1..])
  }

  predicate Judged(text: string)
    requires Marked(TrimMinus(text))
  {
    var t := TrimMinus(text);
    Judge(Cut(MantissaOf(t)).0, Cut(MantissaOf(t)).1, ExponentOf(t))
  }

  /** The text test, step by step. */
  method JudgeText(number: string) returns (r: bool)
    requires |number| < EXPONENT_BOUND && Marked(TrimMinus(number))
    ensures r == Judged(number)
  {
    var text, exponent := CutExponent(TrimMinus(number));
    CutLengths(text);
    r := JudgeParts(Cut(text).0, Cut(text).1, exponent);
  }

  /** The text before the exponent marker, and the clamped exponent after it. */
  method CutExponent(text: string) returns (mantissa: string, exponent: int64)
    requires Marked(text)
    ensures mantissa == MantissaOf(text) && |mantissa| <= |text|
    ensures exponent as int == ExponentOf(text) && -EXPONENT_BOUND <= exponent as int <= EXPONENT_BOUND
  {
    var at := MarkerAt(text);
    if at < 0 { return text, 0; }
    exponent := ReadExponent(text[at + 1..]);
    mantissa := text[..at];
  }

  method ReadExponent(text: string) returns (exponent: int64)
    requires text != ""
    ensures exponent as int == ClampedExponent(text)
    ensures -EXPONENT_BOUND <= exponent as int <= EXPONENT_BOUND
  {
    var parsed := ParseInt64(text);
    var value: int;
    if parsed.None? && text[0] == '-' {
      value := -EXPONENT_BOUND;
    } else if parsed.None? {
      value := EXPONENT_BOUND;
    } else {
      value := parsed.value;
    }
    exponent := Clamp(value) as int64;
  }

  method JudgeParts(whole: string, fraction: string, exponent: int64) returns (r: bool)
    requires |whole| < EXPONENT_BOUND && |fraction| < EXPONENT_BOUND
    requires -EXPONENT_BOUND <= exponent as int <= EXPONENT_BOUND
    ensures r == Judge(whole, fraction, exponent as int)
  {
    var size := |fraction| as int64;
    var dropped: int64 := size - exponent;
    if dropped <= 0 { return true; }
    if dropped <= size { return AllZero(fraction[size - dropped..]); }
    if !AllZero(fraction) { return false; }
    var length := |whole| as int64;
    var rest := if dropped - size < length then dropped - size else length;
    return AllZero(whole[length - rest..]);
  }

  lemma {:induction false} CutLengths(text: string)
    ensures |Cut(text).0| <= |text| && |Cut(text).1| <= |text|
  {
    if text != "" { CutLengths(text[1..]); }
  }

  lemma {:induction false} CutDigits(whole: string, rest: string)
    requires AllDigits(whole)
    ensures Cut(whole + rest) == (whole + Cut(rest).0, Cut(rest).1)
  {
    if whole == "" {
      assert whole + rest == rest && whole + Cut(rest).0 == Cut(rest).0;
    } else {
      assert (whole + rest)[1..] == whole[1..] + rest;
      CutDigits(whole[1..], rest);
      assert (whole + rest)[0] == whole[0] && IsDigit(whole[0]);
      assert whole + Cut(rest).0 == [whole[0]] + (whole[1..] + Cut(rest).0);
    }
  }

  lemma {:induction false} MarkerAfter(body: string, rest: string)
    requires forall i :: 0 <= i < |body| ==> !IsMarker(body[i])
    requires rest == "" || IsMarker(rest[0])
    ensures MarkerAt(body + rest) == if rest == "" then -1 else |body|
  {
    if body == "" {
      assert body + rest == rest;
    } else {
      assert (body + rest)[1..] == body[1..] + rest;
      MarkerAfter(body[1..], rest);
    }
  }

  lemma ReadsMantissa(p: Parts)
    requires p.Valid()
    ensures Cut(p.Mantissa()) == (p.whole, p.fraction)
    ensures forall i :: 0 <= i < |p.Mantissa()| ==> IsDigit(p.Mantissa()[i]) || p.Mantissa()[i] == '.'
    ensures IsDigit(p.Mantissa()[0])
  {
    var dotted := if p.fraction == "" then "" else "." + p.fraction;
    CutDigits(p.whole, dotted);
    assert p.whole + "" == p.whole;
  }

  lemma ReadsSign(p: Parts)
    requires p.Valid()
    ensures TrimMinus(p.Render()) == p.Mantissa() + p.exponent.Render()
  {
    RenderStarts(p);
  }

  lemma RenderStarts(p: Parts)
    requires p.Valid()
    ensures var t := p.Mantissa() + p.exponent.Render();
            t != "" && IsDigit(t[0]) && p.Render() == if p.negative then "-" + t else t
    ensures p.negative ==> !AllDigits(p.Render())
  {
    var m := p.Mantissa();
    assert m[0] == p.whole[0] && (m + p.exponent.Render())[0] == m[0];
    assert p.negative ==> p.Render() == "-" + (m + p.exponent.Render());
    assert !p.negative ==> "" + m == m;
    assert p.negative ==> p.Render()[0] == '-';
  }

  /** The reading functions find the parts a number text was written from. */
  lemma ReadsBack(p: Parts)
    requires p.Valid()
    ensures var t := TrimMinus(p.Render());
            var at := MarkerAt(t);
            && at == (if p.exponent.NoExponent? then -1 else |p.Mantissa()|)
            && (at >= 0 ==> at + 1 < |t| && t[at + 1..] == p.exponent.sign + p.exponent.digits)
            && (if at < 0 then t else t[..at]) == p.Mantissa()
  {
    var m, x := p.Mantissa(), p.exponent.Render();
    ReadsSign(p);
    ReadsMantissa(p);
    MarkerAfter(m, x);
  }

  lemma ReadsExponent(e: Exponent)
    requires e.Valid() && e.Exponent?
    ensures ClampedExponent(e.sign + e.digits) == Clamp(e.Power())
  {
    var text := e.sign + e.digits;
    if e.sign == "" {
      assert text == e.digits && IsDigit(text[0]);
    } else {
      assert text[0] == e.sign[0] && text[1..] == e.digits;
    }
  }

  /** Clamping the exponent never changes the judgement. */
  lemma ClampKeepsJudgement(whole: string, fraction: string, power: int)
    requires |whole| <= EXPONENT_BOUND || -EXPONENT_BOUND <= power
    requires |fraction| <= EXPONENT_BOUND || power <= EXPONENT_BOUND
    ensures Judge(whole, fraction, Clamp(power)) <==> Judge(whole, fraction, power)
  {
  }

  lemma JudgeDecides(whole: string, fraction: string, power: int)
    requires AllDigits(whole) && AllDigits(fraction) && AllDigits(whole + fraction)
    ensures Judge(whole, fraction, power) <==>
            power >= |fraction| || Divides(|fraction| - power, Value(whole + fraction))
  {
    var n := |fraction| - power;
    if n > 0 {
      TrailingZeros(whole + fraction, n);
      LastOfBoth(whole, fraction, n);
    }
  }

  /** The last n characters of a + b: of b alone, or of both. */
  lemma LastOfBoth(a: string, b: string, n: nat)
    ensures var s := a + b;
            AllZero(s[|s| - Least(n, |s|)..]) <==>
            if n <= |b| then AllZero(b[|b| - n..]) else AllZero(b) && AllZero(a[|a| - Least(n - |b|, |a|)..])
  {
    var s := a + b;
    if n <= |b| {
      assert s[|s| - n..] == b[|b| - n..];
    } else {
      var m := Least(n - |b|, |a|);
      assert s[|s| - Least(n, |s|)..] == a[|a| - m..] + b;
      SplitZero(a[|a| - m..], b);
    }
  }

  lemma SplitZero(a: string, b: string)
    ensures AllZero(a + b) <==> AllZero(a) && AllZero(b)
  {
    assert forall i :: 0 <= i < |a| ==> (a + b)[i] == a[i];
    assert forall i :: 0 <= i < |b| ==> (a + b)[|a| + i] == b[i];
  }

  lemma JudgedParts(p: Parts)
    requires p.Valid()
    ensures Marked(TrimMinus(p.Render()))
    ensures Judged(p.Render()) == Judge(p.whole, p.fraction, Clamp(p.exponent.Power()))
  {
    ReadsBack(p);
    ReadsMantissa(p);
    if p.exponent.Exponent? { ReadsExponent(p.exponent); }
  }

  /** For every valid number text with at most 2^40 digits on each side of the point, and for every longer one
      whose exponent is not clamped, the text test is true exactly when the denoted rational is an integer. */
  lemma TextDecidesInteger(p: Parts)
    requires p.Valid()
    requires |p.whole| <= EXPONENT_BOUND || -EXPONENT_BOUND <= p.exponent.Power()
    requires |p.fraction| <= EXPONENT_BOUND || p.exponent.Power() <= EXPONENT_BOUND
    ensures Marked(TrimMinus(p.Render()))
    ensures Judged(p.Render()) <==> IsInteger(p.Denotes())
  {
    hide Judged, Marked, Parts.Denotes, IsInteger, Judge;
    assert AllDigits(p.whole + p.fraction);
    DenotesInteger(p);
    JudgeDecides(p.whole, p.fraction, p.exponent.Power());
    ClampKeepsJudgement(p.whole, p.fraction, p.exponent.Power());
    JudgedParts(p);
  }

  /** The test as the source runs it: no intermediate value leaves 64 bits, and the answer is right for every
      way to read the text as a number. */
  method NumberTextIsInteger(number: string) returns (r: bool)
    requires JsonNumber(number) && |number| < EXPONENT_BOUND
    ensures forall p: Parts :: p.Valid() && p.Render() == number ==> (r <==> IsInteger(p.Denotes()))
  {
    forall p: Parts | p.Valid() && p.Render() == number
      ensures Marked(TrimMinus(number))
    {
      TextDecidesInteger(p);
    }
    r := JudgeText(number);
    forall p: Parts | p.Valid() && p.Render() == number ensures r <==> IsInteger(p.Denotes()) {
      TextDecidesInteger(p);
    }
  }
}
