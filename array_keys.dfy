/** PHP array keys. When a value indexes a PHP array, an int, a bool and a
    string holding the canonical decimal form of an integer in the 64-bit
    range all become integer keys; any other string stays a string key. So
    `5` and `"5"` index one slot, and so do `true`, `1` and `"1"`, while
    `"05"`, `"5.0"` and `"-0"` stay strings. The unique-value index of
    SimulatorHandler.php (lines 1008, 1016 and 1288) is such an array. */
module ArrayKeys {
  import opened Base
  import opened Ids

  datatype ArrayKey = IntKey(i: int) | StrKey(s: string)

  const PhpIntMax: int := 0x7FFF_FFFF_FFFF_FFFF
  const PhpIntMin: int := -0x8000_0000_0000_0000

  predicate InPhpRange(i: int) {
    PhpIntMin <= i <= PhpIntMax
  }

  /** Decimal digits without a leading zero, "0" itself aside. */
  predicate CanonicalDigits(s: string) {
    1 <= |s| && AllDigits(s) && (s[0] != '0' || |s| == 1)
  }

  /** PHP's string conversion of an integer. */
  function Render(i: int): (s: string)
    ensures 1 <= |s|
  {
    if i >= 0 then Decimal(i) else "-" + Decimal(-i)
  }

  /** The integer a string names when PHP would use it as an integer key. */
  function IntegerString(s: string): (r: Option<int>)
    ensures r.Some? ==> InPhpRange(r.value)
  {
    if CanonicalDigits(s) && ParseDecimal(s) <= PhpIntMax then Some(ParseDecimal(s))
    else if 2 <= |s| && s[0] == '-' && s[1] != '0' && CanonicalDigits(s[1..]) && ParseDecimal(s[1..]) <= -PhpIntMin
    then Some(0 - ParseDecimal(s[1..]))
    else None
  }

  /** The key a value indexes an array slot with. */
  function KeyOfValue(v: Value): (k: ArrayKey)
    ensures v.Int? ==> k == IntKey(v.i)
    ensures v.Bool? ==> k == IntKey(if v.b then 1 else 0)
    ensures v.Null? ==> k == StrKey("")
  {
    match v
    case Null => StrKey("")
    case Bool(b) => IntKey(if b then 1 else 0)
    case Int(i) => IntKey(i)
    case Str(s) =>
      match IntegerString(s)
      case Some(i) => IntKey(i)
      case None => StrKey(s)
  }

  lemma {:induction false} DecimalCanonical(n: nat)
    ensures CanonicalDigits(Decimal(n))
    ensures n >= 1 ==> Decimal(n)[0] != '0'
    decreases n
  {
    if n >= 10 {
      DecimalCanonical(n / 10);
      assert Decimal(n)[0] == Decimal(n / 10)[0];
    }
  }

  lemma {:induction false} ParsePositive(s: string)
    requires CanonicalDigits(s) && s[0] != '0'
    ensures ParseDecimal(s) >= 1
    decreases |s|
  {
    if |s| > 1 {
      ParsePositive(s[..|s| - 1]);
    }
  }

  lemma {:induction false} DecimalOfParse(s: string)
    requires CanonicalDigits(s)
    ensures Decimal(ParseDecimal(s)) == s
    decreases |s|
  {
    if |s| > 1 {
      var t := s[..|s| - 1];
      var d := DigitValue(s[|s| - 1]);
      DecimalOfParse(t);
      ParsePositive(t);
      var n := ParseDecimal(s);
      assert n == ParseDecimal(t) * 10 + d;
      assert n / 10 == ParseDecimal(t) && n % 10 == d;
      assert Digit(d) == s[|s| - 1];
      assert s == t + [s[|s| - 1]];
    }
  }

  lemma IntegerKeyIsRendering(s: string, i: int)
    requires KeyOfValue(Str(s)) == IntKey(i)
    ensures InPhpRange(i) && s == Render(i)
  {
    if CanonicalDigits(s) && ParseDecimal(s) <= PhpIntMax {
      DecimalOfParse(s);
    } else {
      var t := s[1..];
      DecimalOfParse(t);
      assert i == 0 - ParseDecimal(t);
      assert s == "-" + t;
    }
  }

  lemma RenderingIsIntegerKey(i: int)
    requires InPhpRange(i)
    ensures KeyOfValue(Str(Render(i))) == IntKey(i)
  {
    if i >= 0 {
      DecimalCanonical(i);
      ParseDecimalOfDecimal(i);
    } else {
      var t := Decimal(-i);
      DecimalCanonical(-i);
      ParseDecimalOfDecimal(-i);
      assert Render(i)[1..] == t;
      assert !CanonicalDigits(Render(i));
    }
  }

  /** A string shares its slot with the integer `i` exactly when it is PHP's
      rendering of `i` and `i` is a 64-bit integer. */
  lemma StringKeyIsInteger(s: string, i: int)
    ensures KeyOfValue(Str(s)) == IntKey(i) <==> InPhpRange(i) && s == Render(i)
  {
    if KeyOfValue(Str(s)) == IntKey(i) {
      IntegerKeyIsRendering(s, i);
    }
    if InPhpRange(i) && s == Render(i) {
      RenderingIsIntegerKey(i);
    }
  }

  /** The collisions PHP's casts produce, and strings they leave alone. */
  lemma KeyExamples()
    ensures KeyOfValue(Str("5")) == KeyOfValue(Int(5))
    ensures KeyOfValue(Str("1")) == KeyOfValue(Bool(true)) == KeyOfValue(Int(1))
    ensures KeyOfValue(Str("-7")) == KeyOfValue(Int(-7))
    ensures KeyOfValue(Str("05")) == StrKey("05")
    ensures KeyOfValue(Str("-0")) == StrKey("-0")
    ensures KeyOfValue(Str("1.1")) == StrKey("1.1")
  {
    RenderingIsIntegerKey(5);
    RenderingIsIntegerKey(1);
    RenderingIsIntegerKey(-7);
  }

  /** Any other string keeps its own string key. */
  lemma OtherStringsStayStrings(s: string)
    requires forall i :: InPhpRange(i) ==> s != Render(i)
    ensures KeyOfValue(Str(s)) == StrKey(s)
  {
    if IntegerString(s).Some? {
      StringKeyIsInteger(s, IntegerString(s).value);
    }
  }
}
