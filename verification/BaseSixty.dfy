/** serves/website/assets/js/moment-timezone.js: numbers written in base sixty. */
module BaseSixty {
  function CharCodeToInt(c: char): int {
    var code := c as int;
    if code > 96 then code - 87 else if code > 64 then code - 29 else code - 48
  }

  /** The text up to the first dot from `from` on. */
  function UpToDot(s: string, from: nat): (end: nat)
    requires from <= |s|
    ensures from <= end <= |s| && (end < |s| ==> s[end] == '.')
    ensures forall j :: from <= j < end ==> s[j] != '.'
    decreases |s| - from
  {
    if from == |s| || s[from] == '.' then from else UpToDot(s, from + 1)
  }

  /** parts[0] and parts[1] || '' of string.split('.'). */
  function Whole(s: string): string {
    s[..UpToDot(s, 0)]
  }

  function Fractional(s: string): string {
    var dot := UpToDot(s, 0);
    if dot == |s| then "" else s[dot + 1..UpToDot(s, dot + 1)]
  }

  function Digits(s: string): int {
    if s == "" then 0 else 60 * Digits(s[..|s| - 1]) + CharCodeToInt(s[|s| - 1])
  }

  /** The k-th digit after the dot counts for this much. */
  function Weight(k: nat): real {
    if k == 0 then 1.0 else Weight(k - 1) / 60.0
  }

  function Times(n: int, weight: real): real {
    n as real * weight
  }

  function Fraction(s: string): real {
    if s == "" then 0.0 else Fraction(s[..|s| - 1]) + Times(CharCodeToInt(s[|s| - 1]), Weight(|s|))
  }

  lemma FractionAppend(s: string, c: char)
    ensures Fraction(s + [c]) == Fraction(s) + Times(CharCodeToInt(c), Weight(|s| + 1))
  {
    assert (s + [c])[..|s|] == s;
  }

  predicate Negative(s: string) {
    s != "" && s[0] == '-'
  }

  function Value(s: string): real {
    var whole := Whole(s);
    var size := Digits(if Negative(s) then whole[1..] else whole) as real + Fraction(Fractional(s));
    if Negative(s) then -size else size
  }

  method UnpackBase60(s: string) returns (r: real)
    ensures r == Value(s)
  {
    var start, whole, fractional := 0, Whole(s), Fractional(s);
    var multiplier, out, sign := 1.0, 0.0, 1.0;
    if Negative(s) {
      start := 1;
      sign := -1.0;
      assert whole[0] == '-';
    }
    ghost var digits := whole[start..];
    for i := start to |whole|
      invariant out == Digits(whole[start..i]) as real
    {
      assert whole[start..i + 1][..i - start] == whole[start..i];
      out := 60.0 * out + CharCodeToInt(whole[i]) as real;
    }
    assert whole[start..|whole|] == digits;
    ghost var wholePart := out;
    for i := 0 to |fractional|
      invariant multiplier == Weight(i)
      invariant out == wholePart + Fraction(fractional[..i])
    {
      assert fractional[..i + 1] == fractional[..i] + [fractional[i]];
      FractionAppend(fractional[..i], fractional[i]);
      multiplier := multiplier / 60.0;
      out := out + Times(CharCodeToInt(fractional[i]), multiplier);
    }
    assert fractional[..|fractional|] == fractional;
    return out * sign;
  }

  // ---- every number the data can hold comes back from its digits

  function Digit(d: nat): (c: char)
    requires d < 60
    ensures CharCodeToInt(c) == d && c != '-' && c != '.'
  {
    if d < 10 then '0' + d as char else if d < 36 then 'a' + (d - 10) as char else 'A' + (d - 36) as char
  }

  function Pack(n: nat): string {
    (if n < 60 then "" else Pack(n / 60)) + [Digit(n % 60)]
  }

  /** The first `k` digits of a fraction of `scale`, which is 60 to the power `k`. */
  function PackFraction(n: nat, k: nat): (s: string)
    ensures |s| == k
  {
    if k == 0 then "" else PackFraction(n / 60, k - 1) + [Digit(n % 60)]
  }

  function Power(k: nat): (p: nat)
    ensures p > 0
  {
    if k == 0 then 1 else 60 * Power(k - 1)
  }

  predicate Plain(s: string) {
    forall i :: 0 <= i < |s| ==> s[i] != '-' && s[i] != '.'
  }

  lemma {:induction false} PackDigits(n: nat)
    ensures Pack(n) != "" && Plain(Pack(n)) && Digits(Pack(n)) == n
  {
    var front, c := if n < 60 then "" else Pack(n / 60), Digit(n % 60);
    DigitsAppend(front, c);
    if n >= 60 {
      PackDigits(n / 60);
    }
    assert n == 60 * (n / 60) + n % 60;
  }

  lemma DigitsAppend(s: string, c: char)
    ensures Digits(s + [c]) == 60 * Digits(s) + CharCodeToInt(c)
  {
    assert (s + [c])[..|s|] == s;
  }

  lemma {:induction false} WeightPower(k: nat)
    ensures Weight(k) * Power(k) as real == 1.0
  {
    if k > 0 {
      WeightPower(k - 1);
      var w, p := Weight(k - 1), Power(k - 1) as real;
      assert w / 60.0 * (60.0 * p) == w * p;
    }
  }

  lemma {:induction false} PackFractionDigits(n: nat, k: nat)
    requires n < Power(k)
    ensures Plain(PackFraction(n, k)) && Fraction(PackFraction(n, k)) == Times(n, Weight(k))
  {
    if k > 0 {
      var front, w := PackFraction(n / 60, k - 1), Weight(k - 1);
      assert n / 60 < Power(k - 1);
      PackFractionDigits(n / 60, k - 1);
      var c := Digit(n % 60);
      FractionAppend(front, c);
      assert Fraction(front + [c]) == Times(n / 60, w) + Times(n % 60, Weight(k));
      assert Weight(k) == w / 60.0;
      Regroup(n, w);
    }
  }

  lemma Regroup(n: nat, w: real)
    ensures Times(n / 60, w) + Times(n % 60, w / 60.0) == Times(n, w / 60.0)
  {
    var q, r, v := (n / 60) as real, (n % 60) as real, w / 60.0;
    assert n as real == 60.0 * q + r;
    assert w == 60.0 * v;
    assert q * w == q * 60.0 * v;
    assert (60.0 * q + r) * v == q * 60.0 * v + r * v;
  }

  lemma DotAt(s: string, from: nat, dot: nat)
    requires from <= dot <= |s| && (dot < |s| ==> s[dot] == '.')
    requires forall j :: from <= j < dot ==> s[j] != '.'
    ensures UpToDot(s, from) == dot
  {
  }

  lemma Parts(sign: string, digits: string, rest: string)
    requires sign in {"", "-"} && digits != "" && Plain(digits) && Plain(rest)
    ensures var s := sign + digits + "." + rest;
            && Negative(s) == (sign == "-")
            && Whole(s) == sign + digits
            && Fractional(s) == rest
  {
    var s := sign + digits + "." + rest;
    var dot := |sign| + |digits|;
    assert s[dot] == '.';
    forall i | 0 <= i < dot
      ensures s[i] != '.'
    {
      assert s[i] == if i < |sign| then sign[i] else digits[i - |sign|];
    }
    DotAt(s, 0, dot);
    forall i | dot < i < |s|
      ensures s[i] != '.'
    {
      assert s[i] == rest[i - dot - 1];
    }
    DotAt(s, dot + 1, |s|);
    assert s[0] == if sign == "-" then '-' else digits[0];
  }

  /** Writing a number with `k` digits after the dot and reading it gives it back: the digits stand for
    * exactly one number, and no such number is lost. */
  lemma {:induction false} UnpackAfterPack(negative: bool, n: nat, m: nat, k: nat)
    requires m < Power(k)
    ensures var s := (if negative then "-" else "") + Pack(n) + "." + PackFraction(m, k);
            var size := n as real + Times(m, Weight(k));
            Value(s) == (if negative then -size else size) && Weight(k) * Power(k) as real == 1.0
  {
    PackDigits(n);
    PackFractionDigits(m, k);
    WeightPower(k);
    var sign := if negative then "-" else "";
    Parts(sign, Pack(n), PackFraction(m, k));
    assert (sign + Pack(n))[|sign|..] == Pack(n);
  }

  /** A whole number needs no dot. */
  lemma {:induction false} UnpackAfterPackWhole(negative: bool, n: nat)
    ensures Value((if negative then "-" else "") + Pack(n)) == if negative then -(n as real) else n as real
  {
    PackDigits(n);
    NoDot(if negative then "-" else "", Pack(n));
  }

  lemma NoDot(sign: string, digits: string)
    requires sign in {"", "-"} && digits != "" && Plain(digits)
    ensures Value(sign + digits) == if sign == "-" then -(Digits(digits) as real) else Digits(digits) as real
  {
    var s := sign + digits;
    forall i | 0 <= i < |s|
      ensures s[i] != '.'
    {
      assert s[i] == if i < |sign| then sign[i] else digits[i - |sign|];
    }
    DotAt(s, 0, |s|);
    assert s[0] == if sign == "-" then '-' else digits[0];
    assert Whole(s) == s && Fractional(s) == "" && s[|sign|..] == digits;
  }
}
