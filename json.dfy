/** The values `JSON.parse` produces, and the JavaScript operations the
    source applies to them without knowing their shape: truthiness, property
    access, `Array.isArray`, `typeof`, `includes` and numeric conversion. */
module Json {
  import opened Wrappers
  import Text

  datatype JsonValue =
    | JNull
    | JBool(b: bool)
    | JNum(n: real)
    | JStr(s: string)
    | JArr(items: seq<JsonValue>)
    | JObj(fields: map<string, JsonValue>)

  /** JavaScript truthiness of a value that may be `undefined` (None):
      `undefined`, `null`, `false`, `0` and `""` are falsy. */
  predicate Truthy(v: Option<JsonValue>) {
    match v
    case None => false
    case Some(JNull) => false
    case Some(JBool(b)) => b
    case Some(JNum(n)) => n != 0.0
    case Some(JStr(s)) => s != ""
    case Some(_) => true
  }

  /** `v[key]` for a value that is not `null`: an object's own property;
      strings, numbers, booleans and arrays have none of the keys the source
      reads, so the access yields `undefined`. (Reading a property of `null`
      throws; callers check for `JNull` first.) */
  function Get(v: JsonValue, key: string): Option<JsonValue> {
    if v.JObj? && key in v.fields then Some(v.fields[key]) else None
  }

  /** `Array.isArray(v)`. */
  predicate IsArray(v: Option<JsonValue>) {
    v.Some? && v.value.JArr?
  }

  /** The result of `typeof`. */
  datatype JsType = TUndefined | TObject | TBoolean | TNumber | TString

  function TypeOf(v: Option<JsonValue>): JsType {
    match v
    case None => TUndefined
    case Some(JBool(_)) => TBoolean
    case Some(JNum(_)) => TNumber
    case Some(JStr(_)) => TString
    case Some(_) => TObject
  }

  /** The SameValueZero comparison `includes` uses. Every object and array
      that `JSON.parse` builds is a distinct reference, so two of them are
      never equal; primitives compare by value. */
  predicate SameValueZero(a: JsonValue, b: JsonValue) {
    match (a, b)
    case (JNull, JNull) => true
    case (JBool(x), JBool(y)) => x == y
    case (JNum(x), JNum(y)) => x == y
    case (JStr(x), JStr(y)) => x == y
    case _ => false
  }

  /** `items.includes(x)`. */
  predicate Includes(items: seq<JsonValue>, x: JsonValue) {
    exists i | 0 <= i < |items| :: SameValueZero(items[i], x)
  }

  /** For strings, `includes` is plain membership. */
  lemma IncludesString(items: seq<JsonValue>, s: string)
    ensures Includes(items, JStr(s)) <==> JStr(s) in items
  {
    if JStr(s) in items {
      var i :| 0 <= i < |items| && items[i] == JStr(s);
      assert SameValueZero(items[i], JStr(s));
    }
  }

  // ------------------------------------------------------ Number(text)

  /** 10 to the power `e`. */
  function Pow10(e: nat): (r: real)
    ensures r >= 1.0
  {
    if e == 0 then 1.0 else 10.0 * Pow10(e - 1)
  }

  /** `x` times 10 to the power `e`, for a negative `e` too. */
  function Scale(x: real, e: int): real {
    if e >= 0 then x * Pow10(e) else x / Pow10(-e)
  }

  /** The value of the digits `whole`, a '.', and the digits `frac`. */
  function PointValue(whole: string, frac: string): real
    requires Text.AllDigits(whole) && Text.AllDigits(frac)
  {
    Text.DecimalValue(whole) as real + Text.DecimalValue(frac) as real / Pow10(|frac|)
  }

  /** Digits before and after an optional '.', at least one digit in all:
      "12", "1.5", "1." and ".5" are read; "." and "" are not. */
  function MantissaValue(m: string): Option<real> {
    if '.' in m then
      var i := Text.FirstIndex(m, '.');
      var whole, frac := m[..i], m[i + 1..];
      if (whole != "" || frac != "") && Text.AllDigits(whole) && Text.AllDigits(frac) then
        Some(PointValue(whole, frac))
      else None
    else if m != "" && Text.AllDigits(m) then Some(Text.DecimalValue(m) as real)
    else None
  }

  /** An exponent: an optional sign and at least one digit. */
  function ExponentValue(e: string): Option<int> {
    var ds := if e != "" && (e[0] == '-' || e[0] == '+') then e[1..] else e;
    if ds != "" && Text.AllDigits(ds) then
      Some(if e[0] == '-' then -(Text.DecimalValue(ds) as int) else Text.DecimalValue(ds) as int)
    else None
  }

  /** The position of the first 'e' or 'E', or the length. */
  function ExponentMark(t: string): (k: nat)
    ensures k <= |t|
    ensures k < |t| ==> t[k] == 'e' || t[k] == 'E'
    ensures forall i :: 0 <= i < k ==> t[i] != 'e' && t[i] != 'E'
  {
    if t == [] || t[0] == 'e' || t[0] == 'E' then 0
    else
      var k := ExponentMark(t[1..]);
      assert forall i :: 1 <= i < k + 1 ==> t[i] == t[1..][i - 1];
      k + 1
  }

  /** An unsigned decimal literal: a mantissa, then optionally 'e' or 'E'
      and an exponent. */
  function UnsignedDecimalValue(t: string): Option<real> {
    var k := ExponentMark(t);
    if k < |t| then
      var m, x := MantissaValue(t[..k]), ExponentValue(t[k + 1..]);
      if m.Some? && x.Some? then Some(Scale(m.value, x.value)) else None
    else MantissaValue(t)
  }

  /** `Number(text)`: after trimming, blank text is 0; an optional sign
      and an unsigned decimal literal give its value; anything else is NaN
      (None). "Infinity" and the 0x, 0o and 0b forms are not read. */
  function NumberOfText(s: string): Option<real> {
    var t := Text.Trim(s);
    if t == "" then Some(0.0)
    else
      var v := UnsignedDecimalValue(if t[0] == '-' || t[0] == '+' then t[1..] else t);
      if v.None? then None else Some(if t[0] == '-' then -v.value else v.value)
  }

  /** A literal that starts and ends with a character `trim` keeps is read
      as it stands. */
  lemma NumberOfUnpadded(t: string)
    requires t != [] && !Text.IsSpace(t[0]) && !Text.IsSpace(t[|t| - 1])
    ensures NumberOfText(t) ==
      var v := UnsignedDecimalValue(if t[0] == '-' || t[0] == '+' then t[1..] else t);
      if v.None? then None else Some(if t[0] == '-' then -v.value else v.value)
  {
    Text.TrimUnchanged(t);
  }

  /** Digits hold no exponent mark and no '.'. */
  lemma {:induction false} DigitsHaveNoMark(ds: string)
    requires Text.AllDigits(ds)
    ensures ExponentMark(ds) == |ds| && '.' !in ds
  {
    if ds != [] {
      assert Text.AllDigits(ds[1..]) by {
        forall i | 0 <= i < |ds[1..]| ensures Text.IsDigit(ds[1..][i]) { assert ds[1..][i] == ds[i + 1]; }
      }
      DigitsHaveNoMark(ds[1..]);
      assert ds == [ds[0]] + ds[1..];
    }
  }

  /** The mark search skips a prefix without a mark. */
  lemma {:induction false} ExponentMarkAfter(a: string, b: string)
    requires forall i :: 0 <= i < |a| ==> a[i] != 'e' && a[i] != 'E'
    ensures ExponentMark(a + b) == |a| + ExponentMark(b)
  {
    if a != [] {
      assert (a + b)[0] == a[0] && (a + b)[1..] == a[1..] + b;
      ExponentMarkAfter(a[1..], b);
    } else {
      assert a + b == b;
    }
  }

  /** A run of digits is read as a mantissa without a fraction. */
  lemma MantissaOfDigits(ds: string)
    requires ds != "" && Text.AllDigits(ds)
    ensures MantissaValue(ds) == Some(Text.DecimalValue(ds) as real)
    ensures UnsignedDecimalValue(ds) == Some(Text.DecimalValue(ds) as real)
  {
    DigitsHaveNoMark(ds);
  }

  /** A run of digits reads as its decimal value. */
  lemma NumberOfDigits(ds: string)
    requires ds != "" && Text.AllDigits(ds)
    ensures NumberOfText(ds) == Some(Text.DecimalValue(ds) as real)
  {
    NumberOfUnpadded(ds);
    assert Text.IsDigit(ds[0]);
    MantissaOfDigits(ds);
  }

  /** `Number(String(n))` is `n` for a natural number. */
  lemma NumberOfNatText(n: nat)
    ensures NumberOfText(Text.NatToString(n)) == Some(n as real)
  {
    Text.NatToStringDigits(n);
    NumberOfDigits(Text.NatToString(n));
  }

  /** Digits, a '.', digits: the whole part plus the fraction. */
  lemma MantissaOfFraction(whole: string, frac: string)
    requires Text.AllDigits(whole) && Text.AllDigits(frac) && (whole != "" || frac != "")
    ensures UnsignedDecimalValue(whole + "." + frac) ==
      Some(PointValue(whole, frac))
  {
    var t := whole + "." + frac;
    DigitsHaveNoMark(whole);
    DigitsHaveNoMark(frac);
    ExponentMarkAfter(whole, "." + frac);
    ExponentMarkAfter(".", frac);
    assert t == whole + ("." + frac);
    assert ExponentMark(t) == |t|;
    assert UnsignedDecimalValue(t) == MantissaValue(t);
    Text.FirstIndexAt(whole, '.', frac);
    assert t[..|whole|] == whole && t[|whole| + 1..] == frac;
    assert MantissaValue(t) == Some(PointValue(whole, frac));
  }

  /** `Number` of digits, a '.' and digits. */
  lemma NumberOfFraction(whole: string, frac: string)
    requires whole != "" && frac != "" && Text.AllDigits(whole) && Text.AllDigits(frac)
    ensures NumberOfText(whole + "." + frac) ==
      Some(PointValue(whole, frac))
  {
    var t := whole + "." + frac;
    assert t[0] == whole[0] && t[|t| - 1] == frac[|frac| - 1];
    assert Text.IsDigit(t[0]) && Text.IsDigit(t[|t| - 1]);
    NumberOfUnpadded(t);
    MantissaOfFraction(whole, frac);
  }

  /** A digit run with a negative sign reads as the negated value. */
  lemma NumberOfNegative(ds: string)
    requires ds != "" && Text.AllDigits(ds)
    ensures NumberOfText("-" + ds) == Some(-(Text.DecimalValue(ds) as real))
  {
    var t := "-" + ds;
    assert t[|t| - 1] == ds[|ds| - 1] && Text.IsDigit(t[|t| - 1]) && t[1..] == ds;
    NumberOfUnpadded(t);
    MantissaOfDigits(ds);
  }

  /** Digits, 'e', digits: the mantissa scaled by the power of ten. */
  lemma ScaledDigits(m: string, e: string)
    requires m != "" && e != "" && Text.AllDigits(m) && Text.AllDigits(e)
    ensures UnsignedDecimalValue(m + "e" + e) == Some(Scale(Text.DecimalValue(m) as real, Text.DecimalValue(e)))
  {
    var t := m + "e" + e;
    DigitsHaveNoMark(m);
    ExponentMarkAfter(m, "e" + e);
    assert t == m + ("e" + e);
    assert ExponentMark(t) == |m|;
    assert t[..|m|] == m && t[|m| + 1..] == e;
    MantissaOfDigits(m);
    assert Text.IsDigit(e[0]);
    assert ExponentValue(e) == Some(Text.DecimalValue(e) as int);
  }

  /** `Number` of digits, 'e' and digits. */
  lemma NumberOfExponent(m: string, e: string)
    requires m != "" && e != "" && Text.AllDigits(m) && Text.AllDigits(e)
    ensures NumberOfText(m + "e" + e) == Some(Scale(Text.DecimalValue(m) as real, Text.DecimalValue(e)))
  {
    var t := m + "e" + e;
    assert t[0] == m[0] && t[|t| - 1] == e[|e| - 1];
    assert Text.IsDigit(t[0]) && Text.IsDigit(t[|t| - 1]);
    NumberOfUnpadded(t);
    ScaledDigits(m, e);
  }

  /** A number field may hold a fraction: "2.5" is 2.5. */
  lemma NumberOfFractionExample(s: string)
    requires s == "2" + "." + "5"
    ensures NumberOfText(s) == Some(2.5)
  {
    var w, f := "2", "5";
    assert Text.DecimalValue(w) == 2 && Text.DecimalValue(f) == 5;
    NumberOfFraction(w, f);
    assert Pow10(|f|) == 10.0;
  }

  /** An exponent: "1e1" is 10. */
  lemma NumberOfExponentExample(s: string)
    requires s == "1" + "e" + "1"
    ensures NumberOfText(s) == Some(10.0)
  {
    var m := "1";
    assert Text.DecimalValue(m) == 1;
    NumberOfExponent(m, m);
    assert Pow10(1) == 10.0;
  }

  /** A sign: "-5" is -5. */
  lemma NumberOfNegativeExample(s: string)
    requires s == "-" + "5"
    ensures NumberOfText(s) == Some(-5.0)
  {
    var d := "5";
    assert Text.DecimalValue(d) == 5;
    NumberOfNegative(d);
  }

  /** The numeric conversion JavaScript applies before `<`, `>` and
      `Number(v)`; None stands for NaN. */
  function ToNumber(v: Option<JsonValue>): Option<real> {
    match v
    case None => None
    case Some(JNull) => Some(0.0)
    case Some(JBool(b)) => Some(if b then 1.0 else 0.0)
    case Some(JNum(n)) => Some(n)
    case Some(JStr(s)) => NumberOfText(s)
    case Some(JArr(items)) => if items == [] then Some(0.0) else None
    case Some(JObj(_)) => None
  }

  /** `v < bound` after numeric conversion (false for NaN). */
  predicate LessThan(v: Option<JsonValue>, bound: real) {
    var x := ToNumber(v); x.Some? && x.value < bound
  }

  /** `v > bound` after numeric conversion (false for NaN). */
  predicate GreaterThan(v: Option<JsonValue>, bound: real) {
    var x := ToNumber(v); x.Some? && x.value > bound
  }

  /** How many times `for (let i = 1; i <= n; i++)` runs when `n` is the
      (possibly fractional or NaN) number `n`. */
  function LoopCount(n: Option<real>): nat {
    if n.Some? && n.value >= 1.0 then n.value.Floor as nat else 0
  }
}
