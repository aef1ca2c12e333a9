/**
 * The collaborative document (`src/collaboration/loro-document.js`): the
 * value normalizers, peer-id normalization, and the `LoroDocument` class
 * that keeps the outline as a Loro movable list of line maps and
 * reconciles it with an editor snapshot by line id.
 *
 * JavaScript values reach this code untyped, so they are modelled by
 * `Value`; the Loro list is a sequence of `Item`s, each a line map (a
 * `LoroMap` container) or something else another peer put there.
 */
module Loro {
  import opened JsString

  // ----- JavaScript values -----

  /** A JavaScript number: finite, NaN or an infinity. */
  datatype Number = Finite(r: real) | NaN | Infinite(negative: bool)

  datatype Value =
    | Undefined
    | Null
    | Bool(b: bool)
    | Num(n: Number)
    | BigInt(i: int)
    | Str(s: string)
    | Arr(items: seq<Value>)
    | Obj(fields: map<string, Value>)

  /** `v && typeof v === "object"`: arrays and plain objects. */
  predicate IsObject(v: Value)
  {
    v.Arr? || v.Obj?
  }

  /** Property access `v[key]`; `undefined` where there is no such own
      property. */
  function Get(v: Value, key: string): Value
  {
    if v.Obj? && key in v.fields then v.fields[key] else Undefined
  }

  /** `/^\d+$/` */
  predicate IsDigits(s: string)
  {
    |s| > 0 && forall k :: 0 <= k < |s| ==> IsDigit(s[k])
  }

  /** The value of a string of decimal digits. */
  function DigitsValue(s: string): nat
  {
    if s == [] then 0
    else
      var d := (s[|s| - 1] as int - '0' as int);
      DigitsValue(s[..|s| - 1]) * 10 + (if 0 <= d <= 9 then d else 0)
  }

  /** `x * 10^e` for a whole exponent of either sign. */
  function Scale(x: real, e: int): real
    decreases if e < 0 then -e else e
  {
    if e == 0 then x
    else if e > 0 then Scale(x, e - 1) * 10.0
    else Scale(x, e + 1) / 10.0
  }

  /** The smallest magnitude that rounds to an infinity in binary64:
      the largest finite double plus half a unit in its last place, that
      is 2^1024 - 2^970. */
  const OVERFLOW_BOUND: real := 179769313486231580793728971405303415079934132710037826936173778980444968292764750946649017977587207096330286416692887910946555547851940402630657488671505820681908902000708383676273854845817711531764475730270069855571366959622842914819860834936475292719074168444365510704342711559699508093042880177904174497792.0

  /** A digit of radix `radix` (2, 8 or 16; hex letters of either case). */
  function RadixDigit(c: char): (d: int)
  {
    if '0' <= c <= '9' then c as int - '0' as int
    else if 'a' <= c <= 'f' then c as int - 'a' as int + 10
    else if 'A' <= c <= 'F' then c as int - 'A' as int + 10
    else -1
  }

  predicate RadixDigits(s: string, radix: nat)
  {
    |s| > 0 && forall k :: 0 <= k < |s| ==> 0 <= RadixDigit(s[k]) < radix
  }

  /** The value of a run of digits in radix `radix` (2, 8 or 16). */
  function RadixValue(s: string, radix: nat): nat
  {
    if s == [] then 0
    else
      var d := RadixDigit(s[|s| - 1]);
      var high := RadixValue(s[..|s| - 1], radix);
      (if radix == 16 then high * 16 else if radix == 8 then high * 8 else high * 2) + (if 0 <= d then d else 0)
  }

  /** The value of the digits after a decimal point: `0.d1d2…`. */
  function FractionValue(s: string): real
  {
    if s == [] then 0.0
    else
      var d := s[0] as int - '0' as int;
      ((if 0 <= d <= 9 then d else 0) as real + FractionValue(s[1..])) / 10.0
  }

  /** The radix a `0x`, `0o` or `0b` prefix announces, or 0. */
  function RadixOf(prefix: char): nat
  {
    if prefix == 'x' || prefix == 'X' then 16
    else if prefix == 'o' || prefix == 'O' then 8
    else if prefix == 'b' || prefix == 'B' then 2
    else 0
  }

  /** The first position at or after `from` holding `c`, or -1. */
  function Find(s: string, c: char, from: nat): (r: int)
    ensures r == -1 || (from <= r < |s| && s[r] == c)
    decreases |s| - from
  {
    if from >= |s| then -1 else if s[from] == c then from else Find(s, c, from + 1)
  }

  /** Where the exponent part begins: the first `e` or `E` at or after
      `from`, or the end. */
  function ExponentMark(u: string, from: nat): (r: nat)
    requires from <= |u|
    ensures from <= r <= |u| && (r < |u| ==> u[r] == 'e' || u[r] == 'E')
    decreases |u| - from
  {
    if from == |u| then |u| else if u[from] == 'e' || u[from] == 'E' then from else ExponentMark(u, from + 1)
  }

  /** A unit that does not occur from `from` on is not found. */
  lemma {:induction false} FindAbsent(s: string, c: char, from: nat)
    requires forall k :: from <= k < |s| ==> s[k] != c
    ensures Find(s, c, from) == -1
    decreases |s| - from
  {
    if from < |s| {
      FindAbsent(s, c, from + 1);
    }
  }

  /** Without `e` or `E` from `from` on, there is no exponent part. */
  lemma {:induction false} NoExponentMark(u: string, from: nat)
    requires from <= |u| && forall k :: from <= k < |u| ==> IsDigit(u[k])
    ensures ExponentMark(u, from) == |u|
    decreases |u| - from
  {
    if from < |u| {
      NoExponentMark(u, from + 1);
    }
  }

  /** `DecimalDigits (. DecimalDigits?)?` or `. DecimalDigits`: at least one
      digit, at most one point. */
  function Mantissa(m: string): Option<real>
  {
    var point := Find(m, '.', 0);
    if point == -1 then
      if IsDigits(m) then Some(DigitsValue(m) as real) else None
    else
      var whole := m[..point];
      var fraction := m[point + 1..];
      if (whole == [] || IsDigits(whole)) && (fraction == [] || IsDigits(fraction)) && whole + fraction != [] then
        Some(DigitsValue(whole) as real + FractionValue(fraction))
      else None
  }

  /** `[+-]? DecimalDigits` after the `e` of an exponent. */
  function Exponent(x: string): Option<int>
  {
    if x != [] && (x[0] == '+' || x[0] == '-') then
      if IsDigits(x[1..]) then Some(if x[0] == '-' then -(DigitsValue(x[1..]) as int) else DigitsValue(x[1..])) else None
    else if IsDigits(x) then Some(DigitsValue(x))
    else None
  }

  /** `StrUnsignedDecimalLiteral`: `Infinity`, or a mantissa with an
      optional exponent. */
  function UnsignedDecimal(u: string): Option<Number>
  {
    if u == "Infinity" then Some(Infinite(false))
    else
      var e := ExponentMark(u, 0);
      var mantissa := Mantissa(u[..e]);
      var exponent := if e == |u| then Some(0) else Exponent(u[e + 1..]);
      if mantissa.Some? && exponent.Some? then
        var x := Scale(mantissa.value, exponent.value);
        Some(if x >= OVERFLOW_BOUND then Infinite(false) else Finite(x))
      else None
  }

  function Negated(n: Number): Number
  {
    match n
    case Finite(r) => Finite(-r)
    case NaN => NaN
    case Infinite(negative) => Infinite(!negative)
  }

  /** `Number(s)` (`StringToNumber`): white space is trimmed, then the
      rest is read as a numeric literal. */
  function StringToNumber(s: string): Number
  {
    NumericLiteral(Trim(s))
  }

  /** `StringNumericLiteral` without white space: the empty string is 0; a
      `0x`/`0o`/`0b` literal is read in its radix; otherwise an optionally
      signed decimal literal or `Infinity`; anything else is NaN. */
  function NumericLiteral(t: string): Number
  {
    if t == [] then Finite(0.0)
    else if |t| > 2 && t[0] == '0' && RadixOf(t[1]) != 0 then RadixLiteral(RadixOf(t[1]), t[2..])
    else SignedDecimal(t)
  }

  /** The digits after a radix prefix. */
  function RadixLiteral(radix: nat, digits: string): Number
  {
    if RadixDigits(digits, radix) then
      var x := RadixValue(digits, radix) as real;
      if x >= OVERFLOW_BOUND then Infinite(false) else Finite(x)
    else NaN
  }

  /** `StrDecimalLiteral`: an optional sign before an unsigned literal. */
  function SignedDecimal(t: string): Number
    requires t != []
  {
    var signed := t[0] == '+' || t[0] == '-';
    match UnsignedDecimal(if signed then t[1..] else t)
    case None => NaN
    case Some(n) => if t[0] == '-' then Negated(n) else n
  }

  /** `Number(value)`. An array converts through `join(",")`: the empty
      array is 0, two or more elements give a comma and so NaN, and one
      element converts through its own string form (`null` and `undefined`
      print as ""). A plain object prints as "[object Object]", which is
      NaN. */
  function ToNumber(v: Value): Number
  {
    match v
    case Undefined => NaN
    case Null => Finite(0.0)
    case Bool(b) => Finite(if b then 1.0 else 0.0)
    case Num(n) => n
    case BigInt(i) => Finite(i as real)
    case Str(s) => StringToNumber(s)
    case Arr(items) =>
      if items == [] then Finite(0.0)
      else if |items| > 1 then NaN
      else
        (match items[0]
         case Undefined => Finite(0.0)
         case Null => Finite(0.0)
         case Bool(_) => NaN
         case Obj(_) => NaN
         case _ => ToNumber(items[0]))
    case Obj(_) => NaN
  }

  // ----- the normalizers -----

  /** `ensureBoolean` */
  function EnsureBoolean(v: Value): bool
  {
    v == Bool(true)
  }

  /** `ensureIndex`: the floor of a positive finite number, else 0. */
  function EnsureIndex(v: Value): (r: nat)
    ensures var n := ToNumber(v);
            if n.Finite? && n.r > 0.0 then r as real <= n.r < r as real + 1.0 else r == 0
  {
    var n := ToNumber(v);
    if !n.Finite? then 0
    else if n.r <= 0.0 then 0
    else n.r.Floor
  }

  /** `ensureNumber`: a finite number, else 0. */
  function EnsureNumber(v: Value): (r: real)
    ensures ToNumber(v).Finite? ==> r == ToNumber(v).r
    ensures !ToNumber(v).Finite? ==> r == 0.0
  {
    var n := ToNumber(v);
    if n.Finite? then n.r else 0.0
  }

  /** `ensureString` */
  function EnsureString(v: Value): string
  {
    if v.Str? then v.s else ""
  }

  /** The JavaScript value of an index. */
  function IndexValue(k: nat): Value
  {
    Num(Finite(k as real))
  }

  /** A normalized value passes each normalizer unchanged, so normalizing
      twice is normalizing once. */
  lemma NormalizersIdempotent(v: Value)
    ensures EnsureIndex(IndexValue(EnsureIndex(v))) == EnsureIndex(v)
    ensures EnsureString(Str(EnsureString(v))) == EnsureString(v)
    ensures EnsureBoolean(Bool(EnsureBoolean(v))) == EnsureBoolean(v)
    ensures EnsureNumber(Num(Finite(EnsureNumber(v)))) == EnsureNumber(v)
  {
    IndexValueRoundTrip(EnsureIndex(v));
  }

  /** An index written as a number reads back as itself. */
  lemma IndexValueRoundTrip(k: nat)
    ensures EnsureIndex(IndexValue(k)) == k
  {
    if k > 0 {
      assert (k as real).Floor == k;
    }
  }

  lemma ScaleByOne(x: real)
    ensures Scale(x, 0) == x
  {
  }

  /** A string without white space at either end is its own trim. */
  lemma TrimNoSpace(s: string)
    requires s != [] && !IsJsWhiteSpace(s[0]) && !IsJsWhiteSpace(s[|s| - 1])
    ensures Trim(s) == s
  {
    assert LeadingWhiteSpace(s) == 0;
    assert TrailingWhiteSpace(s) == 0;
  }

  /** A digit string has no white space to trim. */
  lemma TrimDigits(s: string)
    requires IsDigits(s)
    ensures Trim(s) == s
  {
    assert IsDigit(s[0]) && IsDigit(s[|s| - 1]);
    TrimNoSpace(s);
  }

  /** `Number` reads a string of decimal digits as its value, below the
      overflow bound. */
  lemma StringToNumberOfDigits(s: string)
    requires IsDigits(s) && DigitsValue(s) as real < OVERFLOW_BOUND
    ensures StringToNumber(s) == Finite(DigitsValue(s) as real)
  {
    TrimDigits(s);
    LiteralOfDigits(s);
  }

  lemma LiteralOfDigits(t: string)
    requires IsDigits(t) && DigitsValue(t) as real < OVERFLOW_BOUND
    ensures NumericLiteral(t) == Finite(DigitsValue(t) as real)
  {
    assert IsDigit(t[0]) && (|t| > 2 ==> IsDigit(t[1]));
    DecimalOfDigits(t);
  }

  /** A digit string is a decimal literal without point or exponent. */
  lemma DecimalOfDigits(u: string)
    requires IsDigits(u) && DigitsValue(u) as real < OVERFLOW_BOUND
    ensures UnsignedDecimal(u) == Some(Finite(DigitsValue(u) as real))
  {
    FindAbsent(u, '.', 0);
    NoExponentMark(u, 0);
    assert u[..|u|] == u;
    assert u != "Infinity" by { assert IsDigit(u[0]); }
    ScaleByOne(DigitsValue(u) as real);
  }

  /** A string of digits is read by `ensureIndex` as its decimal value. */
  lemma EnsureIndexOfDigits(s: string)
    requires IsDigits(s) && DigitsValue(s) as real < OVERFLOW_BOUND
    ensures EnsureIndex(Str(s)) == DigitsValue(s)
  {
    StringToNumberOfDigits(s);
    IndexValueRoundTrip(DigitsValue(s));
  }

  /** A one-digit string is that digit. */
  lemma OneDigit(c: char)
    requires IsDigit(c)
    ensures IsDigits([c]) && DigitsValue([c]) == c as int - '0' as int
  {
    assert [c][..0] == [];
  }

  /** A decimal literal `w.f` without exponent, of one digit each side. */
  lemma PointLiteral(w: char, f: char)
    requires IsDigit(w) && IsDigit(f)
    ensures UnsignedDecimal([w, '.', f]) == Some(Finite((w as int - '0' as int) as real + (f as int - '0' as int) as real / 10.0))
  {
    var u := [w, '.', f];
    var x := (w as int - '0' as int) as real + (f as int - '0' as int) as real / 10.0;
    assert |u| == 3 && u[0] == w && u[1] == '.' && u[2] == f;
    assert Find(u, '.', 0) == 1;
    assert ExponentMark(u, 0) == 3 by {
      assert ExponentMark(u, 2) == 3;
    }
    assert u[..3] == u && u[..1] == [w] && u[2..] == [f] && [f][1..] == [];
    OneDigit(w);
    OneDigit(f);
    assert FractionValue([f]) == (f as int - '0' as int) as real / 10.0 by {
      assert FractionValue([f][1..]) == 0.0;
    }
    assert Mantissa(u) == Some(x);
    ScaleByOne(x);
  }

  /** `Number` of a one-digit fraction "w.f". */
  lemma FractionNumber(w: char, f: char)
    requires IsDigit(w) && IsDigit(f)
    ensures StringToNumber([w, '.', f]) == Finite((w as int - '0' as int) as real + (f as int - '0' as int) as real / 10.0)
  {
    var t := [w, '.', f];
    assert |t| == 3 && t[0] == w && t[1] == '.' && t[2] == f;
    TrimNoSpace(t);
    PointLiteral(w, f);
    UnsignedLiteral(t);
  }

  /** A string without surrounding white space that starts with a digit
      and has no radix prefix is read as an unsigned decimal literal. */
  lemma UnsignedLiteral(t: string)
    requires t != [] && IsDigit(t[0]) && (|t| > 2 && t[0] == '0' ==> RadixOf(t[1]) == 0) && Trim(t) == t
    ensures StringToNumber(t) == (match UnsignedDecimal(t) case None => NaN case Some(n) => n)
  {
  }

  /** `ensureIndex` of a one-digit fraction such as "2.5" is the whole
      part: the fraction is read, then floored. */
  lemma EnsureIndexOfFraction(w: char, f: char)
    requires IsDigit(w) && IsDigit(f)
    ensures EnsureIndex(Str([w, '.', f])) == w as int - '0' as int
  {
    var d := w as int - '0' as int;
    var x := d as real + (f as int - '0' as int) as real / 10.0;
    FractionNumber(w, f);
    FloorIndex(x, d);
  }

  /** `ensureIndex` of a number between `d` and `d + 1` is `d`. */
  lemma FloorIndex(x: real, d: nat)
    requires d as real <= x < d as real + 1.0
    ensures EnsureIndex(Num(Finite(x))) == d
  {
  }

  /** `ensureNumber` of a one-digit fraction such as "1.5" is its value. */
  lemma EnsureNumberOfFraction(w: char, f: char)
    requires IsDigit(w) && IsDigit(f)
    ensures EnsureNumber(Str([w, '.', f])) == (w as int - '0' as int) as real + (f as int - '0' as int) as real / 10.0
  {
    FractionNumber(w, f);
  }

  /** Leading white space is trimmed before the number is read, so
      " 3" reads as "3". */
  lemma LeadingSpaceIgnored(c: char, s: string)
    requires IsJsWhiteSpace(c)
    ensures ToNumber(Str([c] + s)) == ToNumber(Str(s))
  {
    assert ([c] + s)[1..] == s;
    assert TrimStart([c] + s) == TrimStart(s);
  }

  /** An array of one number, bigint, string or array converts as that
      element, so `[7]` reads as 7. */
  lemma SingletonArrayIsElement(v: Value)
    requires v.Num? || v.BigInt? || v.Str? || v.Arr?
    ensures ToNumber(Arr([v])) == ToNumber(v)
  {
  }

  /** A sign and an exponent are read: "-1e2" is -100, and in general
      "-dEe" is -(d * 10^e) for digits `d` and `e`. */
  lemma EnsureNumberOfExponent(m: char, e: char)
    requires IsDigit(m) && IsDigit(e)
    requires Scale((m as int - '0' as int) as real, e as int - '0' as int) < OVERFLOW_BOUND
    ensures EnsureNumber(Str(['-', m, 'e', e])) == -Scale((m as int - '0' as int) as real, e as int - '0' as int)
  {
    var t := ['-', m, 'e', e];
    var u := [m, 'e', e];
    TrimNoSpace(t);
    assert t[1..] == u;
    ExponentLiteral(m, e);
    assert NumericLiteral(t) == SignedDecimal(t);
  }

  lemma ExponentLiteral(m: char, e: char)
    requires IsDigit(m) && IsDigit(e)
    ensures UnsignedDecimal([m, 'e', e]) == Some(
              var x := Scale((m as int - '0' as int) as real, e as int - '0' as int);
              if x >= OVERFLOW_BOUND then Infinite(false) else Finite(x))
  {
    var u := [m, 'e', e];
    assert |u| == 3 && u[0] == m && u[1] == 'e' && u[2] == e;
    assert ExponentMark(u, 0) == 1;
    assert u[..1] == [m] && u[2..] == [e];
    OneDigit(m);
    OneDigit(e);
    assert Find([m], '.', 0) == -1;
    assert Mantissa([m]) == Some((m as int - '0' as int) as real);
    assert Exponent([e]) == Some(e as int - '0' as int);
  }

  /** A `0x` literal is read in base 16: "0x1F" is 31. */
  lemma EnsureNumberOfHex()
    ensures EnsureNumber(Str("0x1F")) == 31.0
  {
    TrimNoSpace("0x1F");
    assert "0x1F"[2..] == "1F" && "1F"[..1] == "1" && "1"[..0] == [];
    assert RadixValue("1F", 16) == 31;
  }

  // ----- view state -----

  datatype Point = Point(lineIndex: nat, charIndex: nat)
  datatype Selection = Selection(start: Point, end: Point)

  /** `clonePoint`: no point unless given an object, else both indices
      normalized. */
  function ClonePoint(v: Value): (r: Option<Point>)
    ensures r.Some? <==> IsObject(v)
    ensures r.Some? ==> r.value == Point(EnsureIndex(Get(v, "lineIndex")), EnsureIndex(Get(v, "charIndex")))
  {
    if !IsObject(v) then None
    else Some(Point(EnsureIndex(Get(v, "lineIndex")), EnsureIndex(Get(v, "charIndex"))))
  }

  /** `cloneSelection`: no selection unless given an object whose two
      endpoints are objects. */
  function CloneSelection(v: Value): (r: Option<Selection>)
    ensures r.Some? <==> IsObject(v) && IsObject(Get(v, "start")) && IsObject(Get(v, "end"))
    ensures r.Some? ==> Some(r.value.start) == ClonePoint(Get(v, "start"))
                        && Some(r.value.end) == ClonePoint(Get(v, "end"))
  {
    if !IsObject(v) then None
    else
      var start := ClonePoint(Get(v, "start"));
      var end := ClonePoint(Get(v, "end"));
      if start.None? || end.None? then None else Some(Selection(start.value, end.value))
  }

  /** The JavaScript object of a point and of a selection. */
  function PointValue(p: Point): Value
  {
    Obj(map["lineIndex" := IndexValue(p.lineIndex), "charIndex" := IndexValue(p.charIndex)])
  }

  function SelectionValue(s: Selection): Value
  {
    Obj(map["start" := PointValue(s.start), "end" := PointValue(s.end)])
  }

  function OptionalValue<T>(o: Option<T>, encode: T -> Value): Value
  {
    if o.Some? then encode(o.value) else Null
  }

  /** Cloning a point or selection the document wrote gives it back. */
  lemma CloneRoundTrip(p: Point, s: Selection)
    ensures ClonePoint(PointValue(p)) == Some(p)
    ensures CloneSelection(SelectionValue(s)) == Some(s)
  {
    IndexValueRoundTrip(p.lineIndex);
    IndexValueRoundTrip(p.charIndex);
    IndexValueRoundTrip(s.start.lineIndex);
    IndexValueRoundTrip(s.start.charIndex);
    IndexValueRoundTrip(s.end.lineIndex);
    IndexValueRoundTrip(s.end.charIndex);
  }

  // ----- peer ids -----

  /** `/^0+(?=\d)/` removed: leading zeros dropped, one digit kept. */
  function StripZeros(s: string): (r: string)
    ensures |r| <= |s|
    ensures s != [] ==> r != []
  {
    if |s| > 1 && s[0] == '0' then StripZeros(s[1..]) else s
  }

  /** A digit string without superfluous leading zeros. */
  predicate Canonical(s: string)
  {
    IsDigits(s) && (|s| == 1 || s[0] != '0')
  }

  function DigitChar(d: nat): (c: char)
    requires d < 10
    ensures IsDigit(c) && c as int - '0' as int == d
  {
    ('0' as int + d) as char
  }

  /** The decimal digits of a non-negative integer. */
  function DecimalString(n: nat): (r: string)
    ensures r != []
    decreases n
  {
    if n < 10 then [DigitChar(n)] else DecimalString(n / 10) + [DigitChar(n % 10)]
  }

  /** 10^21, from where on `Number.prototype.toString` switches to
      exponential notation. */
  const EXPONENTIAL_FROM: nat := 1000000000000000000000

  /** The digits without trailing zeros (one digit is always kept). */
  function StripTrailingZeros(s: string): (r: string)
    ensures s != [] ==> r != []
    ensures |r| <= |s|
    decreases |s|
  {
    if |s| > 1 && s[|s| - 1] == '0' then StripTrailingZeros(s[..|s| - 1]) else s
  }

  /** `n.toString()` for a whole number `n`: its decimal digits below
      10^21, and from there on the exponential form `d.ddde+N` (the
      significant digits, a point when there is more than one, and the
      exponent). */
  function WholeNumberString(n: nat): (r: string)
  {
    if n < EXPONENTIAL_FROM then DecimalString(n)
    else
      var digits := DecimalString(n);
      var significant := StripTrailingZeros(digits);
      [significant[0]] + (if |significant| > 1 then "." + significant[1..] else "")
      + "e+" + DecimalString(|digits| - 1)
  }

  /** `normalizePeerId`: a non-negative bigint as its decimal string, a
      non-negative finite number as the string of its floor, a digit
      string without its leading zeros, anything else nothing. */
  function NormalizePeerId(v: Value): (r: Option<string>)
    ensures r.Some? <==> (v.BigInt? && v.i >= 0) || (v.Num? && v.n.Finite? && v.n.r >= 0.0) || (v.Str? && IsDigits(v.s))
    ensures r.Some? ==> r.value != []
    ensures v.BigInt? && r.Some? ==> Canonical(r.value) && DigitsValue(r.value) == v.i
    ensures v.Str? && r.Some? ==> Canonical(r.value) && DigitsValue(r.value) == DigitsValue(v.s)
  {
    match v
    case BigInt(i) =>
      if i >= 0 then DecimalStringCanonical(i); Some(DecimalString(i)) else None
    case Num(n) =>
      if !n.Finite? || n.r < 0.0 then None else Some(WholeNumberString(n.r.Floor))
    case Str(s) =>
      if IsDigits(s) then StripZerosCanonical(s); Some(StripZeros(s)) else None
    case _ => None
  }

  lemma {:induction false} DecimalStringCanonical(n: nat)
    ensures Canonical(DecimalString(n))
    ensures DigitsValue(DecimalString(n)) == n
    decreases n
  {
    var r := DecimalString(n);
    if n >= 10 {
      DecimalStringCanonical(n / 10);
      assert r[..|r| - 1] == DecimalString(n / 10);
      assert r[0] == DecimalString(n / 10)[0];
    }
  }

  lemma {:induction false} StripZerosCanonical(s: string)
    requires IsDigits(s)
    ensures Canonical(StripZeros(s)) && DigitsValue(StripZeros(s)) == DigitsValue(s)
    decreases |s|
  {
    if |s| > 1 && s[0] == '0' {
      StripZerosCanonical(s[1..]);
      LeadingZeroValue(s);
    }
  }

  /** A leading zero adds nothing to the value. */
  lemma {:induction false} LeadingZeroValue(s: string)
    requires |s| > 0 && s[0] == '0'
    ensures DigitsValue(s) == DigitsValue(s[1..])
    decreases |s|
  {
    if |s| > 1 {
      var init := s[..|s| - 1];
      LeadingZeroValue(init);
      assert init[1..] == s[1..][..|s[1..]| - 1];
      assert s[1..][|s[1..]| - 1] == s[|s| - 1];
    } else {
      assert s[1..] == [];
      assert s[..0] == [];
    }
  }

  lemma StripZerosOfCanonical(s: string)
    requires Canonical(s)
    ensures StripZeros(s) == s
  {
  }

  /** A canonical digit string is its own peer id. */
  lemma CanonicalPeerId(s: string)
    requires Canonical(s)
    ensures NormalizePeerId(Str(s)) == Some(s)
  {
    StripZerosOfCanonical(s);
  }

  /** A number from 10^21 on, which `toString` writes in exponential
      notation. */
  predicate ExponentialNumber(v: Value)
  {
    v.Num? && v.n.Finite? && v.n.r >= EXPONENTIAL_FROM as real
  }

  /** Every peer id, except that of a number from 10^21 on, is a canonical
      digit string, and so normalizes to itself. */
  lemma PeerIdCanonical(v: Value)
    ensures var r := NormalizePeerId(v);
            r.Some? && !ExponentialNumber(v) ==> Canonical(r.value) && NormalizePeerId(Str(r.value)) == r
  {
    var r := NormalizePeerId(v);
    if r.Some? && !ExponentialNumber(v) {
      if v.Str? {
        StripZerosCanonical(v.s);
      } else if v.BigInt? {
        DecimalStringCanonical(v.i);
      } else {
        DecimalStringCanonical(v.n.r.Floor);
      }
      CanonicalPeerId(r.value);
    }
  }

  /** A number from 10^21 on yields a peer id in exponential notation,
      which is no digit string: normalizing it again gives nothing. */
  lemma ExponentialPeerId(n: nat)
    requires n >= EXPONENTIAL_FROM
    ensures var r := NormalizePeerId(Num(Finite(n as real)));
            r.Some? && !IsDigits(r.value) && NormalizePeerId(Str(r.value)).None?
  {
    assert (n as real).Floor == n;
    var digits := DecimalString(n);
    var significant := StripTrailingZeros(digits);
    var head := [significant[0]] + (if |significant| > 1 then "." + significant[1..] else "");
    var r := head + "e+" + DecimalString(|digits| - 1);
    assert r == WholeNumberString(n);
    assert r[|head|] == 'e';
  }

  /** A digit string keeps its value, and any other string is no peer id. */
  lemma PeerIdOfString(s: string)
    ensures IsDigits(s) ==> NormalizePeerId(Str(s)).Some? && DigitsValue(NormalizePeerId(Str(s)).value) == DigitsValue(s)
    ensures !IsDigits(s) ==> NormalizePeerId(Str(s)).None?
  {
    if IsDigits(s) {
      StripZerosCanonical(s);
    }
  }

  /** 2^53: every whole number up to here is exactly a double, and
      `toString` prints its exact decimal digits. */
  const SAFE_INTEGER_LIMIT: nat := 9007199254740992

  /** A number, the same bigint and its decimal string name the same peer,
      for whole numbers up to 2^53. */
  lemma PeerIdForms(n: nat)
    ensures n <= SAFE_INTEGER_LIMIT ==> NormalizePeerId(Num(Finite(n as real))) == Some(DecimalString(n))
    ensures NormalizePeerId(BigInt(n)) == Some(DecimalString(n))
    ensures NormalizePeerId(Str(DecimalString(n))) == Some(DecimalString(n))
  {
    assert (n as real).Floor == n;
    DecimalStringCanonical(n);
    StripZerosOfCanonical(DecimalString(n));
  }

  /** Leading zeros name the same peer: "007" is "7". */
  lemma PeerIdLeadingZeros()
    ensures NormalizePeerId(Str("007")) == Some("7")
  {
    var s := "007";
    assert IsDigits(s) by {
      forall k | 0 <= k < |s| ensures IsDigit(s[k]) { }
    }
    assert s[1..] == "07" && s[1..][1..] == "7";
    assert StripZeros(s) == StripZeros("07") == StripZeros("7") == "7";
  }

  // ----- the line list -----

  /** An entry of the Loro movable list: a line map, or a value of another
      kind that a peer put there. */
  datatype Item = LineMap(fields: map<string, Value>) | Other(v: Value)

  /** `map.get(key)` */
  function Field(fields: map<string, Value>, key: string): Value
  {
    if key in fields then fields[key] else Undefined
  }

  /** The id a line map is known by; "" for an entry without one. */
  function ItemId(item: Item): string
  {
    if item.LineMap? then EnsureString(Field(item.fields, "id")) else ""
  }

  /** The entry `_findLine` stops at: a line map with id `id`. */
  predicate HasId(item: Item, id: string)
  {
    item.LineMap? && ItemId(item) == id
  }

  /** The first line map with id `id` at or after `from`. */
  function FindFrom(lines: seq<Item>, id: string, from: nat): (r: Option<nat>)
    ensures r.Some? ==> from <= r.value < |lines| && HasId(lines[r.value], id)
    ensures r.Some? ==> forall k :: from <= k < r.value ==> !HasId(lines[k], id)
    ensures r.None? ==> forall k :: from <= k < |lines| ==> !HasId(lines[k], id)
    decreases |lines| - from
  {
    if from >= |lines| then None
    else if HasId(lines[from], id) then Some(from)
    else FindFrom(lines, id, from + 1)
  }

  /** `_findLine`: nothing for the empty id, else the first line map with
      that id. */
  function FindLineIn(lines: seq<Item>, id: string): (r: Option<nat>)
    ensures id == "" ==> r.None?
  {
    if id == "" then None else FindFrom(lines, id, 0)
  }

  /** `_setIfChanged` on a line map: the map is written only when the
      stored value differs, and afterwards holds `value` at `key` and
      everything else as before. */
  function SetField(fields: map<string, Value>, key: string, value: Value): (r: map<string, Value>)
    ensures Field(r, key) == value
    ensures forall other :: other != key ==> Field(r, other) == Field(fields, other)
    ensures Field(fields, key) == value ==> r == fields
  {
    if Field(fields, key) == value then fields else fields[key := value]
  }

  /** Loro's `insertContainer(i, …)` */
  function Insert(lines: seq<Item>, i: nat, item: Item): (r: seq<Item>)
    requires i <= |lines|
    ensures |r| == |lines| + 1 && r[i] == item
    ensures forall k :: 0 <= k < i ==> r[k] == lines[k]
    ensures forall k :: i < k < |r| ==> r[k] == lines[k - 1]
  {
    lines[..i] + [item] + lines[i..]
  }

  /** Where the entry at `k` after `move(from, to)` was before: Loro takes
      the entry out at `from` and puts it back in at `to`, so the ones in
      between shift by one towards `from`. */
  function MoveSource(from: nat, to: nat, k: nat): nat
  {
    if k == to then from
    else if from < to && from <= k < to then k + 1
    else if to < from && to < k <= from then k - 1
    else k
  }

  /** Loro's `move(from, to)`: the entry leaves `from` and ends up at
      `to`. */
  function Move(lines: seq<Item>, from: nat, to: nat): (r: seq<Item>)
    requires from < |lines| && to < |lines|
    ensures |r| == |lines| && r[to] == lines[from]
    ensures forall k :: 0 <= k < |lines| ==> MoveSource(from, to, k) < |lines| && r[k] == lines[MoveSource(from, to, k)]
  {
    if from < to then lines[..from] + lines[from + 1..to + 1] + [lines[from]] + lines[to + 1..]
    else if to < from then lines[..to] + [lines[from]] + lines[to..from] + lines[from + 1..]
    else lines
  }

  /** The id a snapshot line asks for (`ensureString(line.id)`). */
  function TargetId(target: Value): string
  {
    EnsureString(Get(target, "id"))
  }

  /** The four `_setIfChanged` calls for a snapshot line given id `id`. */
  function Written(fields: map<string, Value>, id: string, target: Value): map<string, Value>
  {
    var withId := SetField(fields, "id", Str(id));
    var withText := SetField(withId, "text", Str(EnsureString(Get(target, "text"))));
    var withIndent := SetField(withText, "indent", IndexValue(EnsureIndex(Get(target, "indent"))));
    SetField(withIndent, "collapsed", Bool(EnsureBoolean(Get(target, "collapsed"))))
  }

  /** Where snapshot line `i` goes: inserted at `i` when no entry has its
      id, else moved there; `None` where Loro rejects the index as out of
      bounds. */
  function Place(lines: seq<Item>, target: Value, i: nat): (r: Option<seq<Item>>)
    ensures r.Some? ==> i < |r.value| && r.value[i].LineMap?
  {
    match FindLineIn(lines, TargetId(target))
    case None => if i <= |lines| then Some(Insert(lines, i, LineMap(map[]))) else None
    case Some(j) =>
      if j == i then Some(lines)
      else if i < |lines| then Some(Move(lines, j, i))
      else None
  }

  /** The state of `applySnapshot`'s first loop: the list, the ids seen,
      and whether a Loro call has thrown. */
  datatype Progress = Progress(lines: seq<Item>, seen: set<string>, thrown: bool)

  /** One pass of the first loop, for snapshot line `i`; `fallbackId(i)` is
      the id `_generateFallbackId` would make for it. */
  function Step(p: Progress, target: Value, i: nat, fallbackId: nat -> string): Progress
  {
    if p.thrown || !IsObject(target) then p
    else
      match Place(p.lines, target, i)
      case None => p.(thrown := true)
      case Some(placed) =>
        var id := if TargetId(target) != "" then TargetId(target) else fallbackId(i);
        Progress(placed[i := LineMap(Written(placed[i].fields, id, target))], p.seen + {id}, false)
  }

  /** The first loop over the first `n` snapshot lines. */
  function Reconcile(lines: seq<Item>, targets: seq<Value>, fallbackId: nat -> string, n: nat): Progress
    requires n <= |targets|
  {
    if n == 0 then Progress(lines, {}, false)
    else Step(Reconcile(lines, targets, fallbackId, n - 1), targets[n - 1], n - 1, fallbackId)
  }

  /** An entry the second loop keeps: a line map whose id was seen. */
  predicate Kept(item: Item, seen: set<string>)
  {
    item.LineMap? && ItemId(item) != "" && ItemId(item) in seen
  }

  /** The entries from `k` on that the second loop keeps, in order. */
  function PruneFrom(lines: seq<Item>, seen: set<string>, k: nat): seq<Item>
    decreases |lines| - k
  {
    if k >= |lines| then []
    else (if Kept(lines[k], seen) then [lines[k]] else []) + PruneFrom(lines, seen, k + 1)
  }

  /** A line as `toSnapshot` reports it. */
  datatype LineRecord = LineRecord(id: string, text: string, indent: nat, collapsed: bool)

  function Record(fields: map<string, Value>): LineRecord
  {
    LineRecord(EnsureString(Field(fields, "id")), EnsureString(Field(fields, "text")),
               EnsureIndex(Field(fields, "indent")), EnsureBoolean(Field(fields, "collapsed")))
  }

  /** `toSnapshot`'s lines for the first `n` entries: the line maps, in
      order. */
  function RecordsUpTo(lines: seq<Item>, n: nat): seq<LineRecord>
    requires n <= |lines|
  {
    if n == 0 then []
    else RecordsUpTo(lines, n - 1) + (if lines[n - 1].LineMap? then [Record(lines[n - 1].fields)] else [])
  }

  /** The snapshot line `target` with id `id`, normalized. */
  function TargetRecord(target: Value, id: string): LineRecord
  {
    LineRecord(id, EnsureString(Get(target, "text")), EnsureIndex(Get(target, "indent")),
               EnsureBoolean(Get(target, "collapsed")))
  }

  /** A written line map reads back as the normalized snapshot line. */
  lemma WrittenRecord(fields: map<string, Value>, id: string, target: Value)
    ensures Record(Written(fields, id, target)) == TargetRecord(target, id)
    ensures ItemId(LineMap(Written(fields, id, target))) == id
  {
    IndexValueRoundTrip(EnsureIndex(Get(target, "indent")));
  }

  // ----- reconciliation by id -----

  /** Snapshot lines that are objects with non-empty, distinct ids. */
  predicate WellKeyed(targets: seq<Value>)
  {
    && (forall k :: 0 <= k < |targets| ==> IsObject(targets[k]) && TargetId(targets[k]) != "")
    && (forall a, b :: 0 <= a < b < |targets| ==> TargetId(targets[a]) != TargetId(targets[b]))
  }

  /** A list of line maps with non-empty, distinct ids. */
  predicate DistinctLineMaps(lines: seq<Item>)
  {
    && (forall k :: 0 <= k < |lines| ==> lines[k].LineMap? && ItemId(lines[k]) != "")
    && (forall a, b :: 0 <= a < b < |lines| ==> ItemId(lines[a]) != ItemId(lines[b]))
  }

  function TargetIds(targets: seq<Value>, n: nat): set<string>
    requires n <= |targets|
  {
    set k | 0 <= k < n :: TargetId(targets[k])
  }

  /** The normalized snapshot lines. */
  function TargetRecords(targets: seq<Value>): (r: seq<LineRecord>)
    ensures |r| == |targets|
  {
    seq(|targets|, k requires 0 <= k < |targets| => TargetRecord(targets[k], TargetId(targets[k])))
  }

  /** After `n` snapshot lines: nothing thrown, the first `n` entries are
      those lines, the list still has distinct ids, and their ids were
      seen. */
  ghost predicate Settled(p: Progress, targets: seq<Value>, n: nat)
    requires n <= |targets|
  {
    && !p.thrown && n <= |p.lines| && DistinctLineMaps(p.lines)
    && p.seen == TargetIds(targets, n)
    && LeadingRecords(p.lines, targets, n)
  }

  /** The first `n` entries are line maps holding the first `n` snapshot
      lines. */
  ghost predicate LeadingRecords(lines: seq<Item>, targets: seq<Value>, n: nat)
    requires n <= |lines| && n <= |targets|
  {
    forall k :: 0 <= k < n ==> lines[k].LineMap? && Record(lines[k].fields) == TargetRecord(targets[k], TargetId(targets[k]))
  }

  /** Writing line map `item` with a new id at `n` keeps ids distinct. */
  lemma WriteKeepsDistinct(placed: seq<Item>, n: nat, item: Item)
    requires n < |placed| && item.LineMap? && ItemId(item) != ""
    requires forall k :: 0 <= k < |placed| && k != n ==> placed[k].LineMap? && ItemId(placed[k]) != ""
    requires forall k :: 0 <= k < |placed| && k != n ==> ItemId(placed[k]) != ItemId(item)
    requires forall a, b :: 0 <= a < b < |placed| && a != n && b != n ==> ItemId(placed[a]) != ItemId(placed[b])
    ensures DistinctLineMaps(placed[n := item])
  {
  }

  /** The entry a well-keyed snapshot line finds lies at or after its own
      position. */
  lemma FoundAfterSettled(p: Progress, targets: seq<Value>, n: nat)
    requires n < |targets| && WellKeyed(targets) && Settled(p, targets, n)
    ensures var found := FindLineIn(p.lines, TargetId(targets[n]));
            found.Some? ==> n <= found.value
  {
    var found := FindLineIn(p.lines, TargetId(targets[n]));
    if found.Some? && found.value < n {
      assert false;
    }
  }

  /** The placed list, away from position `n`, holds the other entries
      once each, none with id `id`, and before `n` the entries as they
      were. */
  ghost predicate PlacedAround(lines: seq<Item>, placed: seq<Item>, n: nat, id: string)
    requires n < |placed| && n <= |lines|
  {
    && (forall k :: 0 <= k < n ==> placed[k] == lines[k])
    && (forall k :: 0 <= k < |placed| && k != n ==> placed[k].LineMap? && ItemId(placed[k]) != "" && ItemId(placed[k]) != id)
    && (forall a, b :: 0 <= a < b < |placed| && a != n && b != n ==> ItemId(placed[a]) != ItemId(placed[b]))
  }

  lemma PlacedByInsert(lines: seq<Item>, n: nat, id: string)
    requires n <= |lines| && DistinctLineMaps(lines)
    requires forall k :: 0 <= k < |lines| ==> !HasId(lines[k], id)
    ensures PlacedAround(lines, Insert(lines, n, LineMap(map[])), n, id)
  {
    var placed := Insert(lines, n, LineMap(map[]));
    forall a, b | 0 <= a < b < |placed| && a != n && b != n
      ensures ItemId(placed[a]) != ItemId(placed[b])
    {
      assert placed[a] == lines[if a < n then a else a - 1];
      assert placed[b] == lines[if b < n then b else b - 1];
    }
  }

  lemma PlacedInPlace(lines: seq<Item>, n: nat, id: string)
    requires n < |lines| && DistinctLineMaps(lines) && HasId(lines[n], id)
    ensures PlacedAround(lines, lines, n, id)
  {
  }

  lemma PlacedByMove(lines: seq<Item>, j: nat, n: nat, id: string)
    requires n < j < |lines| && DistinctLineMaps(lines) && HasId(lines[j], id)
    ensures PlacedAround(lines, Move(lines, j, n), n, id)
  {
    var placed := Move(lines, j, n);
    forall a, b | 0 <= a < b < |placed| && a != n && b != n
      ensures ItemId(placed[a]) != ItemId(placed[b])
    {
      assert MoveSource(j, n, a) != MoveSource(j, n, b);
    }
  }

  /** Placing a snapshot line of a settled list. */
  lemma PlacedDistinct(p: Progress, targets: seq<Value>, n: nat, placed: seq<Item>)
    requires n < |targets| && WellKeyed(targets) && Settled(p, targets, n)
    requires Place(p.lines, targets[n], n) == Some(placed)
    ensures PlacedAround(p.lines, placed, n, TargetId(targets[n]))
  {
    var id := TargetId(targets[n]);
    FoundAfterSettled(p, targets, n);
    match FindLineIn(p.lines, id)
    case None => PlacedByInsert(p.lines, n, id);
    case Some(j) =>
      if j == n {
        PlacedInPlace(p.lines, n, id);
      } else {
        PlacedByMove(p.lines, j, n, id);
      }
  }

  lemma {:induction false} StepSettled(p: Progress, targets: seq<Value>, n: nat, fallbackId: nat -> string)
    requires n < |targets| && WellKeyed(targets) && Settled(p, targets, n)
    ensures Settled(Step(p, targets[n], n, fallbackId), targets, n + 1)
  {
    var target := targets[n];
    var id := TargetId(target);
    var placed := Place(p.lines, target, n);
    FoundAfterSettled(p, targets, n);
    assert placed.Some?;
    PlacedDistinct(p, targets, n, placed.value);
    var item := LineMap(Written(placed.value[n].fields, id, target));
    WrittenRecord(placed.value[n].fields, id, target);
    WriteKeepsDistinct(placed.value, n, item);
    var q := Step(p, target, n, fallbackId);
    assert q.lines == placed.value[n := item];
    assert q.seen == TargetIds(targets, n + 1) by {
      assert TargetIds(targets, n + 1) == TargetIds(targets, n) + {id};
    }
  }

  /** The first loop leaves the list settled after `n` snapshot lines. */
  ghost predicate SettledAfter(lines: seq<Item>, targets: seq<Value>, fallbackId: nat -> string, n: nat)
    requires n <= |targets|
  {
    Settled(Reconcile(lines, targets, fallbackId, n), targets, n)
  }

  /** One more snapshot line keeps the list settled. */
  lemma ReconcileStepSettled(lines: seq<Item>, targets: seq<Value>, fallbackId: nat -> string, n: nat)
    requires n < |targets| && WellKeyed(targets) && SettledAfter(lines, targets, fallbackId, n)
    ensures SettledAfter(lines, targets, fallbackId, n + 1)
  {
    StepSettled(Reconcile(lines, targets, fallbackId, n), targets, n, fallbackId);
  }

  lemma {:induction false} ReconcileSettled(lines: seq<Item>, targets: seq<Value>, fallbackId: nat -> string, n: nat)
    requires n <= |targets| && WellKeyed(targets) && DistinctLineMaps(lines)
    ensures SettledAfter(lines, targets, fallbackId, n)
  {
    if n == 0 {
      ReconcileStarts(lines, targets, fallbackId);
    } else {
      ReconcileSettled(lines, targets, fallbackId, n - 1);
      ReconcileStepSettled(lines, targets, fallbackId, n - 1);
    }
  }

  /** Before the first snapshot line the list is settled. */
  lemma ReconcileStarts(lines: seq<Item>, targets: seq<Value>, fallbackId: nat -> string)
    requires DistinctLineMaps(lines)
    ensures SettledAfter(lines, targets, fallbackId, 0)
  {
    assert TargetIds(targets, 0) == {};
  }

  /** The second loop keeps a kept prefix and drops the rest. */
  lemma {:induction false} PruneKeepsPrefix(lines: seq<Item>, seen: set<string>, k: nat, n: nat)
    requires k <= n <= |lines|
    requires forall m :: k <= m < n ==> Kept(lines[m], seen)
    requires forall m :: n <= m < |lines| ==> !Kept(lines[m], seen)
    ensures PruneFrom(lines, seen, k) == lines[k..n]
    decreases |lines| - k
  {
    if k < |lines| {
      PruneKeepsPrefix(lines, seen, k + 1, if k < n then n else k + 1);
      if k < n {
        assert lines[k..n] == [lines[k]] + lines[k + 1..n];
      }
    }
  }

  /** One pass of the second loop at `index`: keeping the entry or
      splicing it out extends the pruned suffix by that entry. */
  lemma PruneStepAt(before: seq<Item>, seen: set<string>, index: nat, lines: seq<Item>)
    requires index < |before| && lines == before[..index + 1] + PruneFrom(before, seen, index + 1)
    ensures index < |lines| && lines[index] == before[index]
    ensures Kept(before[index], seen) ==> lines == before[..index] + PruneFrom(before, seen, index)
    ensures !Kept(before[index], seen) ==> lines[..index] + lines[index + 1..] == before[..index] + PruneFrom(before, seen, index)
  {
    var rest := PruneFrom(before, seen, index + 1);
    assert before[..index + 1] == before[..index] + [before[index]];
    if Kept(before[index], seen) {
      AppendAssoc(before[..index], [before[index]], rest);
    } else {
      assert lines[..index] == before[..index];
      assert lines[index + 1..] == rest;
    }
  }

  /** Of a list of line maps, `toSnapshot` reports every entry. */
  lemma {:induction false} RecordsOfLineMaps(lines: seq<Item>, n: nat)
    requires n <= |lines| && forall k :: 0 <= k < n ==> lines[k].LineMap?
    ensures |RecordsUpTo(lines, n)| == n
    ensures forall k :: 0 <= k < n ==> RecordsUpTo(lines, n)[k] == Record(lines[k].fields)
  {
    if n > 0 {
      RecordsOfLineMaps(lines, n - 1);
    }
  }

  /** A settled list keeps exactly its first `|targets|` entries through
      the second loop, and they read back as the snapshot's lines. */
  lemma SettledReadsBack(p: Progress, targets: seq<Value>)
    requires WellKeyed(targets) && Settled(p, targets, |targets|)
    ensures var result := PruneFrom(p.lines, p.seen, 0);
            RecordsUpTo(result, |result|) == TargetRecords(targets)
  {
    var n := |targets|;
    forall m | 0 <= m < n
      ensures Kept(p.lines[m], p.seen)
    {
      assert Record(p.lines[m].fields).id == TargetId(targets[m]);
    }
    forall m | n <= m < |p.lines|
      ensures !Kept(p.lines[m], p.seen)
    {
      if ItemId(p.lines[m]) in p.seen {
        assert false;
      }
    }
    PruneKeepsPrefix(p.lines, p.seen, 0, n);
    var result := PruneFrom(p.lines, p.seen, 0);
    RecordsOfLineMaps(result, |result|);
  }

  /** The first loop followed by the second: for a well-keyed snapshot and
      a list of line maps with distinct ids, nothing throws and the list
      reads back as exactly the snapshot's lines, normalized, in the
      snapshot's order. */
  lemma ApplyReconciles(lines: seq<Item>, targets: seq<Value>, fallbackId: nat -> string)
    requires WellKeyed(targets) && DistinctLineMaps(lines)
    ensures var p := Reconcile(lines, targets, fallbackId, |targets|);
            var result := PruneFrom(p.lines, p.seen, 0);
            !p.thrown && RecordsUpTo(result, |result|) == TargetRecords(targets)
  {
    ReconcileSettled(lines, targets, fallbackId, |targets|);
    SettledReadsBack(Reconcile(lines, targets, fallbackId, |targets|), targets);
  }

  // ----- the document -----

  /** `_viewState` */
  datatype ViewState = ViewState(cursor: Option<Point>, selection: Option<Selection>, scrollTop: real, scrollLeft: real)

  /** What `toSnapshot` returns. */
  datatype Snapshot = Snapshot(lines: seq<LineRecord>, cursor: Option<Point>, selection: Option<Selection>,
                               scrollTop: real, scrollLeft: real)

  /** `snapshot && Array.isArray(snapshot.lines)` */
  predicate HasLines(snapshot: Value)
  {
    Get(snapshot, "lines").Arr?
  }

  /** The view state `applySnapshot` takes from a snapshot. */
  function ViewOf(snapshot: Value): ViewState
  {
    ViewState(ClonePoint(Get(snapshot, "cursor")), CloneSelection(Get(snapshot, "selection")),
              EnsureNumber(Get(snapshot, "scrollTop")), EnsureNumber(Get(snapshot, "scrollLeft")))
  }

  /** Once a Loro call has thrown, the rest of the first loop does
      nothing. */
  lemma {:induction false} ThrownStays(lines: seq<Item>, targets: seq<Value>, fallbackId: nat -> string, i: nat, n: nat)
    requires i <= n <= |targets| && Reconcile(lines, targets, fallbackId, i).thrown
    ensures Reconcile(lines, targets, fallbackId, n) == Reconcile(lines, targets, fallbackId, i)
    decreases n - i
  {
    if i < n {
      ThrownStays(lines, targets, fallbackId, i, n - 1);
    }
  }

  class LoroDocument {
    /** The peer id given to the Loro document. */
    var peerId: string
    /** The movable list `lines`. */
    var lines: seq<Item>
    var version: nat
    var viewState: ViewState
    /** The number of map writes made, each of which Loro turns into an
        update for the other peers. */
    ghost var writes: nat

    /** `new LoroDocument({ peerId })`: the normalized peer id, or the one
        `generateNumericPeerId` drew, and an empty list. */
    constructor (peer: Value, generatedPeerId: string)
      ensures NormalizePeerId(peer).Some? ==> peerId == NormalizePeerId(peer).value
      ensures NormalizePeerId(peer).None? ==> peerId == generatedPeerId
      ensures lines == [] && version == 0 && viewState == ViewState(None, None, 0.0, 0.0)
    {
      var normalized := NormalizePeerId(peer);
      peerId := if normalized.Some? then normalized.value else generatedPeerId;
      lines := [];
      version := 0;
      viewState := ViewState(None, None, 0.0, 0.0);
      writes := 0;
    }

    /** `importUpdate(bytes)`: only a byte array is imported, and then the
        version moves on; `merged` is the list after Loro merges it. */
    method ImportUpdate(isBytes: bool, merged: seq<Item>)
      modifies this`lines, this`version
      ensures isBytes ==> lines == merged && version == old(version) + 1
      ensures !isBytes ==> lines == old(lines) && version == old(version)
    {
      if !isBytes {
        return;
      }
      lines := merged;
      version := version + 1;
    }

    /** `_findLine` */
    method FindLine(lineId: string) returns (r: Option<nat>)
      ensures r == FindLineIn(lines, lineId)
    {
      if lineId == "" {
        return None;
      }
      var i := 0;
      while i < |lines|
        invariant i <= |lines|
        invariant FindFrom(lines, lineId, 0) == FindFrom(lines, lineId, i)
      {
        var entry := lines[i];
        if entry.LineMap? && ItemId(entry) == lineId {
          return Some(i);
        }
        i := i + 1;
      }
      return None;
    }

    /** `_setIfChanged` on entry `i`: nothing for an entry that is not a
        line map or that already holds `value`; one write otherwise. */
    method SetIfChanged(i: nat, key: string, value: Value)
      requires i < |lines|
      modifies this`lines, this`writes
      ensures old(lines[i]).LineMap? ==> lines == old(lines)[i := LineMap(SetField(old(lines[i]).fields, key, value))]
      ensures !old(lines[i]).LineMap? ==> lines == old(lines)
      ensures writes == old(writes) + (if old(lines[i]).LineMap? && Field(old(lines[i]).fields, key) != value then 1 else 0)
    {
      var container := lines[i];
      if !container.LineMap? {
        return;
      }
      var current := Field(container.fields, key);
      if current != value {
        lines := lines[i := LineMap(container.fields[key := value])];
        writes := writes + 1;
      }
    }

    /** The body of `applySnapshot`'s first loop for snapshot line `i`,
        an object: `thrown` where Loro rejects the insert or move
        position. */
    method PlaceLine(target: Value, i: nat, fallbackId: nat -> string, seen: set<string>)
      returns (thrown: bool, id: string)
      requires IsObject(target)
      modifies this`lines, this`writes
      ensures var q := Step(Progress(old(lines), seen, false), target, i, fallbackId);
              q.thrown == thrown && q.lines == lines && (!thrown ==> q.seen == seen + {id})
    {
      var requestedId := EnsureString(Get(target, "id"));
      var existing := FindLine(requestedId);
      if existing.None? {
        if i > |lines| {
          return true, "";
        }
        lines := Insert(lines, i, LineMap(map[]));
      } else if existing.value != i {
        if i >= |lines| {
          return true, "";
        }
        lines := Move(lines, existing.value, i);
      }
      id := if requestedId != "" then requestedId else fallbackId(i);
      WriteLine(i, id, target);
      thrown := false;
    }

    /** The four `_setIfChanged` calls on line map `i`. */
    method WriteLine(i: nat, id: string, target: Value)
      requires i < |lines| && lines[i].LineMap?
      modifies this`lines, this`writes
      ensures lines == old(lines)[i := LineMap(Written(old(lines[i]).fields, id, target))]
    {
      SetIfChanged(i, "id", Str(id));
      SetIfChanged(i, "text", Str(EnsureString(Get(target, "text"))));
      SetIfChanged(i, "indent", IndexValue(EnsureIndex(Get(target, "indent"))));
      SetIfChanged(i, "collapsed", Bool(EnsureBoolean(Get(target, "collapsed"))));
    }

    /** `applySnapshot`'s second loop: from the end, every entry that is
        not a line map with a seen id is deleted. */
    method DeleteUnseen(seen: set<string>)
      modifies this`lines
      ensures lines == PruneFrom(old(lines), seen, 0)
    {
      ghost var before := lines;
      var index := |lines| - 1;
      while index >= 0
        invariant -1 <= index < |before|
        invariant lines == before[..index + 1] + PruneFrom(before, seen, index + 1)
      {
        PruneStepAt(before, seen, index, lines);
        var entry := lines[index];
        var entryId := if entry.LineMap? then ItemId(entry) else "";
        if entryId == "" || entryId !in seen {
          lines := lines[..index] + lines[index + 1..];
        }
        index := index - 1;
      }
    }

    /** `applySnapshot(snapshot)`: nothing without a `lines` array;
        otherwise the list is reconciled with the snapshot's lines by id,
        the version moves on and the view state is taken over. Where a Loro
        call throws, the method stops there. */
    method ApplySnapshot(snapshot: Value, fallbackId: nat -> string) returns (thrown: bool)
      modifies this`lines, this`version, this`viewState, this`writes
      ensures !HasLines(snapshot) ==> !thrown && lines == old(lines) && version == old(version)
                                      && viewState == old(viewState)
      ensures HasLines(snapshot) ==>
                var targets := Get(snapshot, "lines").items;
                var p := Reconcile(old(lines), targets, fallbackId, |targets|);
                && thrown == p.thrown
                && (thrown ==> lines == p.lines && version == old(version) && viewState == old(viewState))
                && (!thrown ==> lines == PruneFrom(p.lines, p.seen, 0) && version == old(version) + 1
                                && viewState == ViewOf(snapshot))
    {
      if !HasLines(snapshot) {
        return false;
      }
      var seen;
      seen, thrown := PlaceAll(Get(snapshot, "lines").items, fallbackId);
      if thrown {
        return;
      }
      DeleteUnseen(seen);
      version := version + 1;
      viewState := ViewOf(snapshot);
    }

    /** `applySnapshot`'s first loop, up to the end or to a Loro call that
        throws. */
    method PlaceAll(targets: seq<Value>, fallbackId: nat -> string) returns (seen: set<string>, thrown: bool)
      modifies this`lines, this`writes
      ensures Reconcile(old(lines), targets, fallbackId, |targets|) == Progress(lines, seen, thrown)
    {
      ghost var before := lines;
      seen := {};
      var i := 0;
      while i < |targets|
        invariant i <= |targets|
        invariant Reconcile(before, targets, fallbackId, i) == Progress(lines, seen, false)
      {
        seen, thrown := PlaceNext(before, targets, fallbackId, i, seen);
        if thrown {
          ThrownStays(before, targets, fallbackId, i + 1, |targets|);
          return;
        }
        i := i + 1;
      }
      thrown := false;
    }

    /** The body of the first loop for snapshot line `i`. */
    method PlaceNext(ghost before: seq<Item>, targets: seq<Value>, fallbackId: nat -> string, i: nat, seen: set<string>)
      returns (seen': set<string>, thrown: bool)
      requires i < |targets| && Reconcile(before, targets, fallbackId, i) == Progress(lines, seen, false)
      modifies this`lines, this`writes
      ensures Reconcile(before, targets, fallbackId, i + 1) == Progress(lines, seen', thrown)
    {
      var target := targets[i];
      seen' := seen;
      thrown := false;
      if IsObject(target) {
        var id;
        thrown, id := PlaceLine(target, i, fallbackId, seen);
        if !thrown {
          seen' := seen + {id};
        }
      }
    }

    /** `toSnapshot`: the line maps in order, normalized, and a copy of the
        view state. */
    method ToSnapshot() returns (s: Snapshot)
      ensures s == Snapshot(RecordsUpTo(lines, |lines|), viewState.cursor, viewState.selection,
                            viewState.scrollTop, viewState.scrollLeft)
    {
      var records: seq<LineRecord> := [];
      var i := 0;
      while i < |lines|
        invariant i <= |lines| && records == RecordsUpTo(lines, i)
      {
        var entry := lines[i];
        if entry.LineMap? {
          records := records + [Record(entry.fields)];
        }
        i := i + 1;
      }
      var cursor := ClonePoint(OptionalValue(viewState.cursor, PointValue));
      var selection := CloneSelection(OptionalValue(viewState.selection, SelectionValue));
      ViewCopied(viewState);
      s := Snapshot(records, cursor, selection, EnsureNumber(Num(Finite(viewState.scrollTop))),
                    EnsureNumber(Num(Finite(viewState.scrollLeft))));
    }
  }

  /** Cloning a stored view state gives it back. */
  lemma ViewCopied(v: ViewState)
    ensures ClonePoint(OptionalValue(v.cursor, PointValue)) == v.cursor
    ensures CloneSelection(OptionalValue(v.selection, SelectionValue)) == v.selection
  {
    if v.cursor.Some? {
      CloneRoundTrip(v.cursor.value, Selection(v.cursor.value, v.cursor.value));
    }
    if v.selection.Some? {
      CloneRoundTrip(v.selection.value.start, v.selection.value);
    }
  }
}
