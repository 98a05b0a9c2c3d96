/** JavaScript values as far as the banner logic observes them: truthiness
    (`if (x)`, `a || b`), conversion to a number (unary `+`, relational
    comparison) and the string-to-number grammar of the language (section
    7.1.4.1 of ECMA-262, "StringToNumber"). Numbers are exact reals; the
    double-precision rounding of the language is not modelled. */
module JsValues {

  import opened Wrappers

  /** A JavaScript number: NaN, a finite value, or one of the infinities. */
  datatype Number = NaN | Fin(r: real) | PosInf | NegInf

  /** The JavaScript values an option, attribute or result can hold. */
  datatype JsValue = Undefined | Null | Bool(b: bool) | Num(n: Number) | Str(s: string)

  /** Truthiness (ToBoolean): `undefined`, `null`, `false`, NaN, 0 and "" are falsy. */
  predicate Truthy(v: JsValue) {
    match v
    case Undefined => false
    case Null => false
    case Bool(b) => b
    case Num(n) => n != NaN && n != Fin(0.0)
    case Str(s) => s != ""
  }

  /** The `a || b` operator: `a` when it is truthy, otherwise `b`. */
  function Or(a: JsValue, b: JsValue): (r: JsValue)
    ensures Truthy(a) ==> r == a
    ensures !Truthy(a) ==> r == b
    ensures Truthy(r) <==> Truthy(a) || Truthy(b)
  {
    if Truthy(a) then a else b
  }

  // ---------------------------------------------------------------------
  // Characters

  /** White space and line terminators as the language defines them; the
      same set is matched by `\s` in a regular expression and trimmed by
      StringToNumber. */
  predicate IsJsSpace(c: char) {
    c == '\t' || c == '\n' || c == '\U{B}' || c == '\U{C}' || c == '\r' || c == ' '
    || c == '\U{A0}' || c == '\U{1680}' || ('\U{2000}' <= c <= '\U{200A}')
    || c == '\U{2028}' || c == '\U{2029}' || c == '\U{202F}' || c == '\U{205F}'
    || c == '\U{3000}' || c == '\U{FEFF}'
  }

  /** Line terminators: the characters `.` in a regular expression does not match. */
  predicate IsLineTerminator(c: char) {
    c == '\n' || c == '\r' || c == '\U{2028}' || c == '\U{2029}'
  }

  predicate IsDigit(c: char) {
    '0' <= c <= '9'
  }

  predicate AllDigits(s: string) {
    forall i :: 0 <= i < |s| ==> IsDigit(s[i])
  }

  /** The value of a digit in radix 2, 8, 10 or 16, or none. */
  function DigitValue(c: char, radix: nat): (r: Option<nat>)
    ensures r.Some? ==> r.value < radix
  {
    var d :=
      if '0' <= c <= '9' then (c as int - '0' as int)
      else if 'a' <= c <= 'f' then (c as int - 'a' as int) + 10
      else if 'A' <= c <= 'F' then (c as int - 'A' as int) + 10
      else 16;
    if d < radix then Some(d) else None
  }

  predicate AllDigitsIn(s: string, radix: nat) {
    forall i :: 0 <= i < |s| ==> DigitValue(s[i], radix).Some?
  }

  /** Positional value of a digit string in the given radix. */
  function ValueIn(s: string, radix: nat): nat
    requires AllDigitsIn(s, radix)
  {
    if |s| == 0 then 0
    else ValueIn(s[..|s| - 1], radix) * radix + DigitValue(s[|s| - 1], radix).value
  }

  function Pow10(n: nat): (r: nat)
    ensures r >= 1
  {
    if n == 0 then 1 else 10 * Pow10(n - 1)
  }

  // ---------------------------------------------------------------------
  // StringToNumber

  /** `s` without its leading white space. */
  function TrimStart(s: string): (r: string)
    ensures |r| <= |s| && r == s[|s| - |r|..]
    ensures |r| > 0 ==> !IsJsSpace(r[0])
    ensures forall i :: 0 <= i < |s| - |r| ==> IsJsSpace(s[i])
  {
    if |s| > 0 && IsJsSpace(s[0]) then TrimStart(s[1..]) else s
  }

  /** `s` without its trailing white space. */
  function TrimEnd(s: string): (r: string)
    ensures |r| <= |s| && r == s[..|r|]
    ensures |r| > 0 ==> !IsJsSpace(r[|r| - 1])
    ensures forall i :: |r| <= i < |s| ==> IsJsSpace(s[i])
  {
    if |s| > 0 && IsJsSpace(s[|s| - 1]) then TrimEnd(s[..|s| - 1]) else s
  }

  function Trim(s: string): string {
    TrimEnd(TrimStart(s))
  }

  /** Number of consecutive decimal digits of `s` starting at `i`. */
  function DigitRun(s: string, i: nat): (n: nat)
    requires i <= |s|
    ensures i + n <= |s|
    ensures forall k :: i <= k < i + n ==> IsDigit(s[k])
    ensures AllDigits(s[i..i + n])
    ensures i + n < |s| ==> !IsDigit(s[i + n])
    decreases |s| - i
  {
    if i < |s| && IsDigit(s[i]) then 1 + DigitRun(s, i + 1) else 0
  }

  /** The decimal value `ip.fp` of an integer part and a fraction part. */
  function DecimalValue(ip: string, fp: string): real
    requires AllDigits(ip) && AllDigits(fp)
  {
    AllDigitsDecimal(ip);
    AllDigitsDecimal(fp);
    ValueIn(ip, 10) as real + (ValueIn(fp, 10) as real) / (Pow10(|fp|) as real)
  }

  lemma AllDigitsDecimal(s: string)
    requires AllDigits(s)
    ensures AllDigitsIn(s, 10)
  {
    forall i | 0 <= i < |s|
      ensures DigitValue(s[i], 10).Some?
    {
      assert IsDigit(s[i]);
    }
  }

  /** Scales `m` by ten to the power `e`. */
  function Scale(m: real, e: int): real {
    if e >= 0 then m * (Pow10(e) as real) else m / (Pow10(-e) as real)
  }

  /** The optional exponent part `e[+|-]digits` from position `i` to the end
      of `s`: zero when there is none, nothing when what follows is not one. */
  function ExponentPart(s: string, i: nat): Option<int>
    requires i <= |s|
  {
    if i == |s| then Some(0)
    else if s[i] != 'e' && s[i] != 'E' then None
    else
      var j := if i + 1 < |s| && (s[i + 1] == '+' || s[i + 1] == '-') then i + 2 else i + 1;
      var n := DigitRun(s, j);
      if n == 0 || j + n != |s| then None
      else
        AllDigitsDecimal(s[j..j + n]);
        var v: int := ValueIn(s[j..j + n], 10);
        Some(if j == i + 2 && s[i + 1] == '-' then -v else v)
  }

  /** StrUnsignedDecimalLiteral: `Infinity`, or `digits[.digits][exponent]`
      with at least one digit, or nothing when `u` is not one. */
  function UnsignedDecimal(u: string): Number {
    if u == "Infinity" then PosInf
    else
      var ni := DigitRun(u, 0);
      var hasDot := ni < |u| && u[ni] == '.';
      var nf := if hasDot then DigitRun(u, ni + 1) else 0;
      var end := if hasDot then ni + 1 + nf else ni;
      if ni + nf == 0 then NaN
      else match ExponentPart(u, end)
        case None => NaN
        case Some(e) =>
          var fp := if hasDot then u[ni + 1..ni + 1 + nf] else "";
          Fin(Scale(DecimalValue(u[..ni], fp), e))
  }

  function Negate(n: Number): Number {
    match n
    case NaN => NaN
    case Fin(r) => Fin(-r)
    case PosInf => NegInf
    case NegInf => PosInf
  }

  /** A non-decimal integer literal `0x..`, `0o..` or `0b..`. */
  function RadixLiteral(t: string, radix: nat): Number
    requires |t| >= 2
  {
    var digits := t[2..];
    if |digits| > 0 && AllDigitsIn(digits, radix) then Fin(ValueIn(digits, radix) as real) else NaN
  }

  /** The conversion unary `+` applies to a string. */
  function StringToNumber(s: string): (r: Number)
    ensures Trim(s) == "" ==> r == Fin(0.0)
  {
    var t := Trim(s);
    if t == "" then Fin(0.0)
    else if |t| >= 2 && t[0] == '0' && (t[1] == 'x' || t[1] == 'X') then RadixLiteral(t, 16)
    else if |t| >= 2 && t[0] == '0' && (t[1] == 'o' || t[1] == 'O') then RadixLiteral(t, 8)
    else if |t| >= 2 && t[0] == '0' && (t[1] == 'b' || t[1] == 'B') then RadixLiteral(t, 2)
    else if t[0] == '-' then Negate(UnsignedDecimal(t[1..]))
    else if t[0] == '+' then UnsignedDecimal(t[1..])
    else UnsignedDecimal(t)
  }

  /** ToNumber on the value kinds of the model. */
  function ToNumber(v: JsValue): Number {
    match v
    case Undefined => NaN
    case Null => Fin(0.0)
    case Bool(b) => Fin(if b then 1.0 else 0.0)
    case Num(n) => n
    case Str(s) => StringToNumber(s)
  }

  // ---------------------------------------------------------------------
  // Relational comparison of numbers

  /** Position on the extended real line, for non-NaN numbers. */
  predicate NotGreater(a: Number, b: Number)
    requires a != NaN && b != NaN
  {
    match (a, b)
    case (NegInf, _) => true
    case (_, PosInf) => true
    case (Fin(x), Fin(y)) => x <= y
    case _ => false
  }

  /** `a >= b`: false whenever either side is NaN. */
  predicate AtLeast(a: Number, b: Number) {
    a != NaN && b != NaN && NotGreater(b, a)
  }

  /** `a < b`: false whenever either side is NaN. */
  predicate Below(a: Number, b: Number) {
    a != NaN && b != NaN && !NotGreater(b, a)
  }

  /** Every comparison with NaN is false, on either side. */
  lemma NaNComparesFalse(x: Number)
    ensures !AtLeast(NaN, x) && !AtLeast(x, NaN) && !Below(NaN, x) && !Below(x, NaN)
  {
  }

  /** A string made of digits, a dot and digits converts to its decimal value. */
  lemma DecimalStringToNumber(ip: string, fp: string)
    requires |ip| > 0 && |fp| > 0 && AllDigits(ip) && AllDigits(fp)
    ensures StringToNumber(ip + "." + fp) == Fin(DecimalValue(ip, fp))
  {
    var u := ip + "." + fp;
    TrimOfDigits(u);
    assert u[0] == ip[0] && IsDigit(u[0]);
    assert u[1] == '.' || IsDigit(u[1]) by {
      if |ip| > 1 { assert u[1] == ip[1]; } else { assert u[1] == '.'; }
    }
    assert StringToNumber(u) == UnsignedDecimal(u);
    DecimalLiteralValue(ip, fp);
  }

  /** The unsigned decimal literal `ip.fp` denotes its decimal value. */
  lemma {:induction false} DecimalLiteralValue(ip: string, fp: string)
    requires |ip| > 0 && |fp| > 0 && AllDigits(ip) && AllDigits(fp)
    ensures UnsignedDecimal(ip + "." + fp) == Fin(DecimalValue(ip, fp))
  {
    var u := ip + "." + fp;
    assert u != "Infinity" by { assert IsDigit(u[0]); }
    assert u[..|ip|] == ip;
    DigitRunOfPrefix(u, ip);
    assert u[|ip|] == '.';
    var rest := u[|ip| + 1..];
    assert rest == fp;
    DigitRunOfPrefix(rest, fp);
    DigitRunShift(u, |ip| + 1);
    assert DigitRun(u, |ip| + 1) == |fp|;
    assert u[|ip| + 1..|ip| + 1 + |fp|] == fp;
    assert ExponentPart(u, |u|) == Some(0);
  }

  /** A string starting and ending with a digit is its own trim. */
  lemma TrimOfDigits(u: string)
    requires |u| > 0 && IsDigit(u[0]) && IsDigit(u[|u| - 1])
    ensures Trim(u) == u
  {
  }

  /** The digit run from 0 of `p + rest` is `|p|` when `p` is all digits and
      `rest` does not start with one. */
  lemma {:induction false} DigitRunOfPrefix(u: string, p: string)
    requires |p| <= |u| && u[..|p|] == p && AllDigits(p)
    requires |p| < |u| ==> !IsDigit(u[|p|])
    ensures DigitRun(u, 0) == |p|
  {
    DigitRunFrom(u, 0, |p|);
  }

  lemma {:induction false} DigitRunFrom(u: string, i: nat, j: nat)
    requires i <= j <= |u|
    requires forall k :: i <= k < j ==> IsDigit(u[k])
    requires j < |u| ==> !IsDigit(u[j])
    ensures DigitRun(u, i) == j - i
    decreases j - i
  {
    if i < j {
      DigitRunFrom(u, i + 1, j);
    }
  }

  lemma {:induction false} DigitRunShift(u: string, k: nat)
    requires k <= |u|
    ensures DigitRun(u, k) == DigitRun(u[k..], 0)
  {
    var n := DigitRun(u, k);
    DigitRunFrom(u[k..], 0, n);
  }
}
