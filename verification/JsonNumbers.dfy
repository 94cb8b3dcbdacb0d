/**
 Numbers as a JSON text spells them, after section 6 of RFC 8259, and the floats Python's decoder makes of
 them: one past the float range comes out infinite. A finite float is the literal it was read from.
 */
module JsonNumbers {
  import opened Text
  import opened Decimal

  /** The most digits Python converts between a text and an integer. */
  const MAX_DIGITS := 4300

  predicate Fits(n: int) { |SpellInt(n)| <= MAX_DIGITS + (if n < 0 then 1 else 0) }

  /** A literal's whole number, its fraction with the point, and its exponent with the letter. */
  datatype Parts = Parts(whole: string, fraction: string, exponent: string) {
    function Text(): string { whole + (fraction + exponent) }
  }

  predicate AllDigits(s: string) { forall i | 0 <= i < |s| :: IsDigit(s[i]) }

  /** The digits behind a sign, where there is one. */
  function Unsigned(w: string): string { if w != "" && w[0] == '-' then w[1..] else w }

  /** No sign but a minus, and no leading zero. */
  predicate IsWhole(w: string) {
    var digits := Unsigned(w);
    IsDecimal(digits) && (digits[0] == '0' ==> digits == "0")
  }

  predicate IsFraction(f: string) { f != "" ==> |f| >= 2 && f[0] == '.' && AllDigits(f[1..]) }

  predicate IsSign(c: char) { c == '+' || c == '-' }

  /** How many characters stand ahead of an exponent's digits. */
  function Lead(e: string): (n: nat)
    ensures n <= 2
  {
    if |e| >= 2 && IsSign(e[1]) then 2 else 1
  }

  predicate IsExponent(e: string) {
    e != "" ==> (e[0] == 'e' || e[0] == 'E') && |e| > Lead(e) && AllDigits(e[Lead(e)..])
  }

  predicate IsLiteral(p: Parts) { IsWhole(p.whole) && IsFraction(p.fraction) && IsExponent(p.exponent) }

  // ----- Reading

  /** The digits a text begins with. */
  function Digits(t: string): (d: string)
    ensures d <= t && AllDigits(d) && (|d| < |t| ==> !IsDigit(t[|d|]))
  {
    if t != "" && IsDigit(t[0]) then [t[0]] + Digits(t[1..]) else ""
  }

  /** The whole number a text begins with: behind a leading zero none of its digits. */
  function Whole(t: string): (w: string)
    ensures w <= t && (w != "" ==> IsWhole(w))
  {
    var sign := if t != "" && t[0] == '-' then 1 else 0;
    var digits := if |t| > sign && t[sign] == '0' then "0" else Digits(t[sign..]);
    if digits == "" then ""
    else
      assert t[..sign] + digits <= t;
      assert Unsigned(t[..sign] + digits) == digits;
      t[..sign] + digits
  }

  function FractionAt(t: string): (f: string)
    ensures f <= t && IsFraction(f)
  {
    if |t| >= 2 && t[0] == '.' && IsDigit(t[1]) then "." + Digits(t[1..]) else ""
  }

  function ExponentAt(t: string): (e: string)
    ensures e <= t && IsExponent(e)
  {
    if t == "" || (t[0] != 'e' && t[0] != 'E') || |t| <= Lead(t) then ""
    else
      var digits := Digits(t[Lead(t)..]);
      if digits == "" then ""
      else
        var e := t[..Lead(t)] + digits;
        assert e[Lead(t)..] == digits;
        e
  }

  /** The literal a text begins with, and what follows it. */
  function NumberAt(t: string): (r: Option<(Parts, string)>)
    ensures r.Some? ==> IsLiteral(r.value.0) && |r.value.1| < |t|
  {
    var whole := Whole(t);
    if whole == "" then None
    else
      var behind := t[|whole|..];
      var fraction := FractionAt(behind);
      var more := behind[|fraction|..];
      var exponent := ExponentAt(more);
      Some((Parts(whole, fraction, exponent), more[|exponent|..]))
  }

  // ----- Floats

  /** A number with a fraction or an exponent is read as a float, any other as an integer. */
  predicate IsFloat(p: Parts) { p.fraction != "" || p.exponent != "" }

  function Power(base: nat, n: nat): nat { if n == 0 then 1 else base * Power(base, n - 1) }

  /** The least magnitude that rounds past the largest float. */
  function FloatBound(): int { Power(2, 1024) - Power(2, 970) }

  function ExponentValue(e: string): int
    requires IsExponent(e)
  {
    if e == "" then 0
    else if e[1] == '-' then -(Value(e[Lead(e)..]) as int)
    else Value(e[Lead(e)..])
  }

  /** A literal's digits as one whole number, its sign and its point aside. */
  function Significand(p: Parts): nat
    requires IsLiteral(p)
  {
    Value(Unsigned(p.whole) + (if p.fraction == "" then "" else p.fraction[1..]))
  }

  /** Whether the decoder makes an infinity of a literal. */
  predicate Overflows(p: Parts)
    requires IsLiteral(p)
  {
    var significand := Significand(p);
    var shift := ExponentValue(p.exponent) - (if p.fraction == "" then 0 else |p.fraction| - 1);
    significand != 0
    && (if shift >= 0 then significand * Power(10, shift) >= FloatBound()
        else significand >= FloatBound() * Power(10, -shift))
  }

  lemma {:induction false} NoughtValue(s: string)
    requires forall i | 0 <= i < |s| :: s[i] == '0'
    ensures AllDigits(s) && Value(s) == 0
  {
    if s != "" {
      NoughtValue(s[..|s| - 1]);
    }
  }

  lemma ZeroIsFloat()
    ensures var p := Parts("0", ".0", ""); IsLiteral(p) && IsFloat(p) && !Overflows(p)
  {
    hide Value, Power, FloatBound;
    var p := Parts("0", ".0", "");
    assert IsLiteral(p);
    NoughtValue(Unsigned(p.whole) + p.fraction[1..]);
  }

  function ZeroParts(): (p: Parts)
    ensures IsLiteral(p) && IsFloat(p) && !Overflows(p)
  {
    ZeroIsFloat();
    Parts("0", ".0", "")
  }

  type FloatParts = p: Parts | IsLiteral(p) && IsFloat(p) && !Overflows(p) witness ZeroParts()

  datatype Float = NaN | Infinity(negative: bool) | Finite(parts: FloatParts)

  function FloatText(f: Float): string {
    match f
    case NaN => "NaN"
    case Infinity(negative) => if negative then "-Infinity" else "Infinity"
    case Finite(p) => p.Text()
  }

  function FloatOf(p: Parts): Float
    requires IsLiteral(p) && IsFloat(p)
  {
    if Overflows(p) then Infinity(p.whole[0] == '-') else Finite(p)
  }

  function IntOf(whole: string): int
    requires IsWhole(whole)
  {
    if whole[0] == '-' then -(Value(Unsigned(whole)) as int) else Value(whole)
  }

  // ----- A literal reads back

  /** What may stand behind a number without changing it. */
  predicate EndsNumber(rest: string) {
    rest != "" ==> !IsDigit(rest[0]) && rest[0] != '.' && rest[0] != 'e' && rest[0] != 'E'
  }

  lemma {:induction false} DigitsRead(d: string, rest: string)
    requires AllDigits(d) && (rest != "" ==> !IsDigit(rest[0]))
    ensures Digits(d + rest) == d
  {
    if d == "" {
      assert d + rest == rest;
    } else {
      DigitsRead(d[1..], rest);
      assert (d + rest)[1..] == d[1..] + rest;
    }
  }

  lemma WholeRead(w: string, rest: string)
    requires IsWhole(w) && (rest != "" ==> !IsDigit(rest[0]))
    ensures Whole(w + rest) == w
  {
    var sign := if w[0] == '-' then 1 else 0;
    var digits := Unsigned(w);
    var t := w + rest;
    assert t[0] == w[0] && t[sign..] == digits + rest && w == t[..sign] + digits;
    assert t[sign] == digits[0];
    DigitsRead(digits, rest);
  }

  lemma FractionRead(f: string, rest: string)
    requires IsFraction(f) && (rest != "" ==> !IsDigit(rest[0]) && (f == "" ==> rest[0] != '.'))
    ensures FractionAt(f + rest) == f
  {
    var t := f + rest;
    if f == "" {
      assert t == rest;
    } else {
      assert t[1..] == f[1..] + rest && f == "." + f[1..];
      assert t[1] == f[1..][0];
      DigitsRead(f[1..], rest);
    }
  }

  lemma ExponentRead(e: string, rest: string)
    requires IsExponent(e) && EndsNumber(rest)
    ensures ExponentAt(e + rest) == e
  {
    var t := e + rest;
    if e == "" {
      assert t == rest;
    } else {
      var n := Lead(e);
      assert t[0] == e[0] && t[1] == e[1] && Lead(t) == n;
      assert t[n..] == e[n..] + rest && e == t[..n] + e[n..];
      DigitsRead(e[n..], rest);
    }
  }

  /** A literal reads back as its parts, whatever stands behind it that no number runs into. */
  lemma NumberRead(p: Parts, rest: string)
    requires IsLiteral(p) && EndsNumber(rest)
    ensures NumberAt(p.Text() + rest) == Some((p, rest))
  {
    hide Whole, FractionAt, ExponentAt, IsWhole, IsFraction, IsExponent;
    var behind := p.exponent + rest;
    var middle := p.fraction + behind;
    Joined(p.whole, middle);
    Joined(p.fraction, behind);
    Joined(p.exponent, rest);
    TextJoined(p, rest);
    TailBegins(p, rest);
    WholeRead(p.whole, middle);
    FractionRead(p.fraction, behind);
    ExponentRead(p.exponent, rest);
    WholeSome(p.whole);
  }

  lemma TextJoined(p: Parts, rest: string)
    ensures p.Text() + rest == p.whole + (p.fraction + (p.exponent + rest))
  {
  }

  lemma Joined(head: string, tail: string)
    ensures (head + tail)[|head|..] == tail
  {
  }

  lemma WholeSome(w: string)
    requires IsWhole(w)
    ensures w != ""
  {
  }

  lemma TailBegins(p: Parts, rest: string)
    requires IsLiteral(p) && EndsNumber(rest)
    ensures var behind := p.exponent + rest; behind != "" ==> !IsDigit(behind[0]) && behind[0] != '.'
    ensures var middle := p.fraction + (p.exponent + rest); middle != "" ==> !IsDigit(middle[0])
  {
    hide IsWhole;
  }

  /** An integer's spelling is a literal, and reads back as it. */
  lemma IntSpelled(n: int)
    ensures IsLiteral(Parts(SpellInt(n), "", "")) && !IsFloat(Parts(SpellInt(n), "", ""))
    ensures IntOf(SpellInt(n)) == n && |Unsigned(SpellInt(n))| == |SpellInt(n)| - (if n < 0 then 1 else 0)
    ensures IsDigit(SpellInt(n)[0]) || SpellInt(n)[0] == '-'
  {
    var w := SpellInt(n);
    if n < 0 {
      assert Unsigned(w) == Spell(-n);
    } else {
      assert w[0] != '-';
    }
  }

  // ----- What a float is spelled with

  predicate FloatChar(c: char) { IsDigit(c) || 'A' <= c <= 'Z' || 'a' <= c <= 'z' || c == '+' || c == '-' || c == '.' }

  lemma FloatSpelled(f: Float)
    ensures var t := FloatText(f);
            && t != "" && (forall i | 0 <= i < |t| :: FloatChar(t[i])) && t[|t| - 1] != '-'
            && (f.Finite? ==> IsDigit(t[0]) || t[0] == '-')
  {
    if f.Finite? {
      PartsSpelled(f.parts.whole, f.parts.fraction, f.parts.exponent);
    }
  }

  lemma PartsSpelled(w: string, f: string, e: string)
    requires IsWhole(w) && IsFraction(f) && IsExponent(e)
    ensures var t := w + (f + e);
            && t != "" && (forall i | 0 <= i < |t| :: FloatChar(t[i])) && t[|t| - 1] != '-'
            && (IsDigit(t[0]) || t[0] == '-')
  {
    WholeSpelled(w);
    FractionSpelled(f);
    ExponentSpelled(e);
    hide IsWhole, IsFraction, IsExponent, FloatChar;
    var t := w + (f + e);
    assert t[|t| - 1] == if e != "" then e[|e| - 1] else if f != "" then f[|f| - 1] else w[|w| - 1];
  }

  lemma FractionSpelled(f: string)
    requires IsFraction(f)
    ensures forall i | 0 <= i < |f| :: FloatChar(f[i])
    ensures f != "" ==> IsDigit(f[|f| - 1])
  {
    assert f != "" ==> forall i | 1 <= i < |f| :: f[i] == f[1..][i - 1];
  }

  lemma WholeSpelled(w: string)
    requires IsWhole(w)
    ensures forall i | 0 <= i < |w| :: FloatChar(w[i])
    ensures w != "" && (IsDigit(w[0]) || w[0] == '-') && IsDigit(w[|w| - 1])
  {
    if w[0] == '-' {
      assert forall i | 1 <= i < |w| :: w[i] == w[1..][i - 1];
    }
  }

  lemma ExponentSpelled(e: string)
    requires IsExponent(e)
    ensures forall i | 0 <= i < |e| :: FloatChar(e[i])
    ensures e != "" ==> IsDigit(e[|e| - 1])
  {
    if e != "" {
      var n := Lead(e);
      assert forall i | n <= i < |e| :: e[i] == e[n..][i - n];
    }
  }

  // ----- What a literal is worth

  /** Ten to any power. */
  function Tens(n: int): (r: real)
    ensures r > 0.0
    decreases if n < 0 then -n else n
  {
    if n == 0 then 1.0 else if n > 0 then 10.0 * Tens(n - 1) else Tens(n + 1) / 10.0
  }

  /** What digits are worth by their places, the last of them at `place`. */
  function Worth(d: string, place: int): real
    requires AllDigits(d)
    decreases |d|
  {
    if d == "" then 0.0
    else Worth(d[..|d| - 1], place + 1) + (DigitValue(d[|d| - 1]) as real) * Tens(place)
  }

  /** What a literal is worth, its sign aside: the digits of its whole number and fraction at their places. */
  function Magnitude(p: Parts): real
    requires IsLiteral(p)
  {
    var e, f := ExponentValue(p.exponent), if p.fraction == "" then "" else p.fraction[1..];
    Worth(Unsigned(p.whole), e) + Worth(f, e - |f|)
  }

  lemma TensStep(n: int)
    ensures Tens(n + 1) == 10.0 * Tens(n)
  {
  }

  lemma {:induction false} WorthIs(d: string, place: int)
    requires AllDigits(d)
    ensures Worth(d, place) == (Value(d) as real) * Tens(place)
    decreases |d|
  {
    hide Tens;
    if d != "" {
      var head := d[..|d| - 1];
      WorthIs(head, place + 1);
      TensStep(place);
      var v, c, t := Value(head) as real, DigitValue(d[|d| - 1]) as real, Tens(place);
      assert Value(d) as real == 10.0 * v + c;
      assert v * (10.0 * t) + c * t == (10.0 * v + c) * t;
    }
  }

  lemma PowerStep(n: nat)
    ensures Power(10, n + 1) == 10 * Power(10, n)
  {
  }

  lemma ValueStep(d: string)
    requires d != "" && AllDigits(d)
    ensures Value(d) == 10 * Value(d[..|d| - 1]) + DigitValue(d[|d| - 1])
  {
  }

  lemma {:induction false} ValueJoined(w: string, f: string)
    requires AllDigits(w) && AllDigits(f)
    ensures Value(w + f) == Value(w) * Power(10, |f|) + Value(f)
    decreases |f|
  {
    hide Power, Value, DigitValue;
    if f == "" {
      assert w + f == w;
      Nothing();
    } else {
      var head := f[..|f| - 1];
      ValueJoined(w, head);
      assert (w + f)[..|w + f| - 1] == w + head && (w + f)[|w + f| - 1] == f[|f| - 1];
      ValueStep(f);
      ValueStep(w + f);
      PowerStep(|head|);
      var v, n := Value(w), Power(10, |head|);
      assert v * (10 * n) == 10 * (v * n);
    }
  }

  lemma Nothing()
    ensures Power(10, 0) == 1 && Value("") == 0
  {
  }

  lemma {:induction false} TensShifted(place: int, n: nat)
    ensures Tens(place) == (Power(10, n) as real) * Tens(place - n)
  {
    hide Tens;
    if n > 0 {
      TensShifted(place, n - 1);
      TensStep(place - n);
      var m, t := Power(10, n - 1) as real, Tens(place - n);
      assert Power(10, n) as real == 10.0 * m;
      assert m * (10.0 * t) == (10.0 * m) * t;
    }
  }

  lemma {:induction false} PowerGrows(n: nat, m: nat)
    requires n < m
    ensures 0 < Power(2, n) < Power(2, m)
  {
    if n > 0 {
      PowerGrows(n - 1, m - 1);
    } else if m > 1 {
      PowerGrows(0, m - 1);
    }
  }

  lemma MagnitudeIs(p: Parts)
    requires IsLiteral(p)
    ensures var f := if p.fraction == "" then "" else p.fraction[1..];
            Magnitude(p) == (Significand(p) as real) * Tens(ExponentValue(p.exponent) - |f|)
  {
    hide Value, Worth, Tens, ExponentValue, Power;
    var w, e, f := Unsigned(p.whole), ExponentValue(p.exponent), if p.fraction == "" then "" else p.fraction[1..];
    WorthIs(w, e);
    WorthIs(f, e - |f|);
    ValueJoined(w, f);
    TensShifted(e, |f|);
    var v, n, u, t := Value(w) as real, Power(10, |f|) as real, Value(f) as real, Tens(e - |f|);
    assert (Value(w) * Power(10, |f|)) as real == v * n;
    assert v * (n * t) + u * t == (v * n + u) * t;
  }

  /** A literal is read as an infinity exactly where it is worth 2 to the 1024 less half a last place, or more. */
  lemma OverflowsExactly(p: Parts)
    requires IsLiteral(p)
    ensures Overflows(p) <==> Magnitude(p) >= (Power(2, 1024) - Power(2, 970)) as real
  {
    hide Value, Power, Tens, ExponentValue, Significand, Magnitude;
    var f := if p.fraction == "" then "" else p.fraction[1..];
    var shift := ExponentValue(p.exponent) - |f|;
    MagnitudeIs(p);
    PowerGrows(970, 1024);
    Compared(Significand(p), shift, FloatBound());
  }

  lemma Compared(n: nat, shift: int, bound: int)
    requires bound > 0
    ensures (n as real) * Tens(shift) >= bound as real <==>
              if shift >= 0 then n * Power(10, shift) >= bound else n >= bound * Power(10, -shift)
  {
    hide Power, Tens;
    assert Tens(0) == 1.0 by { TensNone(); }
    if shift >= 0 {
      TensShifted(shift, shift);
      assert (n * Power(10, shift)) as real == (n as real) * Tens(shift);
    } else {
      TensShifted(0, -shift);
      var t, m := Tens(shift), Power(10, -shift);
      assert (bound * m) as real == (bound as real) * (m as real);
      Scaled(n as real, (bound as real) * (m as real), t);
      assert ((bound as real) * (m as real)) * t == (bound as real) * ((m as real) * t);
    }
  }

  lemma TensNone()
    ensures Tens(0) == 1.0
  {
  }

  lemma Scaled(a: real, b: real, t: real)
    requires t > 0.0
    ensures a >= b <==> a * t >= b * t
  {
    if a >= b {
      assert (a - b) * t >= 0.0;
    } else {
      assert (b - a) * t > 0.0;
    }
  }

  lemma ExponentExactly(letter: char, sign: string, digits: string)
    requires (letter == 'e' || letter == 'E') && sign in {"", "+", "-"} && IsDecimal(digits)
    ensures var e := [letter] + (sign + digits);
            IsExponent(e) && ExponentValue(e) == if sign == "-" then 0 - Value(digits) else Value(digits)
  {
    var e := [letter] + (sign + digits);
    assert e[1] == (sign + digits)[0] && e[Lead(e)..] == digits;
  }
}
