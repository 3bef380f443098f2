/**
 * `clean_price` (src/transformation/transform_data.py, lines 42-52): a
 * price cell becomes an integer number of pesos, or `int()` raises.
 */
module Prices {
  import opened Wrappers
  import opened PyStr
  import opened Records
  import opened Dates
  import opened Frames

  /** `str(prc)` for a cell that is not NaN. */
  function CellText(c: Cell): (r: string)
    ensures c.Text? ==> r == c.s
    ensures c.Whole? ==> ParseInt(r) == Some(c.i)
    ensures c == Missing ==> r == "nan"
  {
    match c
    case Missing => "nan"
    case Text(s) => s
    case Flag(b) => if b then "True" else "False"
    case Whole(i) => ParseIntOfIntToString(i); IntToString(i)
    case When(d) => FormatDate(d) + " 00:00:00"
  }

  /** The character set of `rstrip('.0')`. */
  predicate DotOrZero(c: char) {
    c == '.' || c == '0'
  }

  /** `str(prc).replace(' ', '').replace('$', '').replace(',', '')` */
  function Unformatted(text: string): (r: string)
    ensures ' ' !in r && '$' !in r && ',' !in r
    ensures forall x :: x in r ==> x in text
  {
    DeleteChar(DeleteChar(DeleteChar(text, ' '), '$'), ',')
  }

  /**
   * The text `clean_price` hands to `int()`: spaces, `$` and `,` deleted (each
   * `replace(c, '')`, see `ReplaceCharDeletes`), a trailing `.0` stripped
   * together with every `.` and `0` before it, and then every `.` deleted.
   */
  function PriceDigits(text: string): (r: string)
    ensures ' ' !in r && '$' !in r && ',' !in r && '.' !in r
  {
    var t := Unformatted(text);
    var u := if '.' in t && EndsWith(t, ".0") then RStripWhile(t, DotOrZero) else t;
    assert forall x :: x in u ==> x in t;
    DeleteChar(u, '.')
  }

  /** `clean_price(prc)`: NaN passes through; anything else becomes an `int` or raises `ValueError`. */
  function CleanPrice(c: Cell): (r: Result<Cell, Error>)
    ensures c == Missing ==> r == Success(Missing)
    ensures c != Missing && r.Success? ==> r.value.Whole?
    ensures c != Missing ==> (r.Success? <==> ParseInt(PriceDigits(CellText(c))).Some?)
  {
    if c == Missing then Success(Missing)
    else
      var digits := PriceDigits(CellText(c));
      match ParseInt(digits)
      case None => Failure(InvalidLiteral(digits))
      case Some(n) => Success(Whole(n))
  }

  /** A text price cleans to the integer its remaining digits spell. */
  lemma CleanPriceOfText(s: string, n: int)
    requires ParseInt(PriceDigits(s)) == Some(n)
    ensures CleanPrice(Text(s)) == Success(Whole(n))
  {
    assert CellText(Text(s)) == s;
  }

  /** An integer price comes back unchanged: `clean_price(n) == n`. */
  lemma CleanPriceOfWhole(n: int)
    ensures CleanPrice(Whole(n)) == Success(Whole(n))
  {
    WholeDigits(n);
  }

  /** Both readings of an integer price hand `int()` its own numeral. */
  lemma WholeDigits(n: int)
    ensures PriceDigits(CellText(Whole(n))) == IntToString(n)
    ensures PriceDigitsIntended(CellText(Whole(n))) == IntToString(n)
    ensures ParseInt(IntToString(n)) == Some(n)
  {
    var s := IntToString(n);
    NumeralPlain(n);
    PlainPriceText(s);
    ParseIntOfIntToString(n);
  }

  /** An integer numeral has no space, `$`, `,` or `.`. */
  lemma NumeralPlain(n: int)
    ensures var s := IntToString(n); ' ' !in s && '$' !in s && ',' !in s && '.' !in s
  {
    IntToStringChars(n);
  }

  /** Text with nothing to remove goes to `int()` as it is, either way the decimal part is read. */
  lemma PlainPriceText(s: string)
    requires ' ' !in s && '$' !in s && ',' !in s && '.' !in s
    ensures PriceDigits(s) == s && PriceDigitsIntended(s) == s
  {
    UnformattedAbsent(s);
    DeleteCharAbsent(s, '.');
    assert !EndsWith(s, ".0") by {
      if |s| >= 2 {
        assert s[|s| - 2..][0] == s[|s| - 2];
      }
    }
  }

  /** Cleaning a cleaned price changes nothing. */
  lemma CleanPriceIdempotent(c: Cell)
    requires CleanPrice(c).Success?
    ensures CleanPrice(CleanPrice(c).value) == CleanPrice(c)
  {
    if c != Missing {
      CleanPriceOfWhole(CleanPrice(c).value.i);
    }
  }

  /**
   * A peso amount written with `.` between groups of three digits, as the
   * sites show `12.990`.
   */
  function Grouped(n: nat): (r: string)
    decreases n
  {
    if n < 1000 then NatToString(n)
    else
      assert Pow10(3) == 1000;
      Grouped(n / 1000) + "." + Pad(n % 1000, 3)
  }

  /** Three more digits after a numeral: the value scales by a thousand. */
  lemma DigitsValueAppend3(x: string, t: string)
    requires AllDigits(x) && AllDigits(t) && |t| == 3
    ensures AllDigits(x + t)
    ensures DigitsValue(x + t) == DigitsValue(x) * 1000 + DigitsValue(t)
  {
    var s := x + t;
    var s1, s2 := x + t[..2], x + t[..1];
    assert s[..|s| - 1] == s1 && s1[..|s1| - 1] == s2 && s2[..|s2| - 1] == x;
    assert s[|s| - 1] == t[2] && s1[|s1| - 1] == t[1] && s2[|s2| - 1] == t[0];
    assert DigitsValue(s) == DigitsValue(s1) * 10 + DigitValue(t[2]);
    assert DigitsValue(s1) == DigitsValue(s2) * 10 + DigitValue(t[1]);
    assert DigitsValue(s2) == DigitsValue(x) * 10 + DigitValue(t[0]);
    assert t[..2][..1] == t[..1] && t[..1][..0] == [];
    assert DigitsValue(t) == DigitsValue(t[..2]) * 10 + DigitValue(t[2]);
    assert DigitsValue(t[..2]) == DigitsValue(t[..1]) * 10 + DigitValue(t[1]);
    assert DigitsValue(t[..1]) == DigitValue(t[0]);
  }

  /** Deleting the dots of a grouped amount leaves its digits. */
  lemma {:induction false} GroupedDigits(n: nat)
    ensures AllDigits(DeleteChar(Grouped(n), '.')) && |DeleteChar(Grouped(n), '.')| >= 1
    ensures DigitsValue(DeleteChar(Grouped(n), '.')) == n
    decreases n
  {
    if n < 1000 {
      DeleteCharAbsent(NatToString(n), '.');
    } else {
      assert Pow10(3) == 1000;
      GroupedDigits(n / 1000);
      var head := Grouped(n / 1000);
      var tail := Pad(n % 1000, 3);
      assert Grouped(n) == head + "." + tail;
      DeleteDotBetween(head, tail);
      DigitsValueAppend3(DeleteChar(head, '.'), tail);
      assert n == (n / 1000) * 1000 + n % 1000;
    }
  }

  /** Deleting dots around one dot before a run of digits. */
  lemma DeleteDotBetween(head: string, tail: string)
    requires AllDigits(tail)
    ensures DeleteChar(head + "." + tail, '.') == DeleteChar(head, '.') + tail
  {
    var h := head + ".";
    assert '.' !in tail;
    DeleteCharAbsent(tail, '.');
    DeleteCharAppend(h, tail, '.');
    assert DeleteChar(h + tail, '.') == DeleteChar(h, '.') + tail;
    DeleteCharAppend(head, ".", '.');
    assert DeleteChar(".", '.') == [] + DeleteChar([], '.');
    assert DeleteChar(h, '.') == DeleteChar(head, '.');
  }

  /** `int(t)` on a non-empty run of digits is their value. */
  lemma ParseIntOfDigits(t: string)
    requires AllDigits(t) && |t| >= 1
    ensures ParseInt(t) == Some(DigitsValue(t) as int)
  {
    DigitNotSpace(t[0]);
    DigitNotSpace(t[|t| - 1]);
    StripUnchanged(t);
    assert t[0] != '-' && t[0] != '+';
  }

  /** A grouped amount holds only digits and dots, and its last two characters are digits. */
  lemma {:induction false} GroupedChars(n: nat)
    ensures forall c :: c in Grouped(n) ==> IsDigit(c) || c == '.'
    ensures IsDigit(Grouped(n)[|Grouped(n)| - 1])
    ensures |Grouped(n)| >= 2 ==> IsDigit(Grouped(n)[|Grouped(n)| - 2])
    decreases n
  {
    if n >= 1000 {
      GroupedChars(n / 1000);
      assert Pow10(3) == 1000;
      var head := Grouped(n / 1000);
      var tail := Pad(n % 1000, 3);
      var g := (head + ".") + tail;
      assert Grouped(n) == g;
      assert forall c :: c in tail ==> IsDigit(c);
      assert forall c :: c in g ==> c in head || c == '.' || c in tail;
      assert g[|g| - 1] == tail[2] && g[|g| - 2] == tail[1];
    }
  }

  /**
   * The prices the sites publish, `$12.990` or `$ 12.990`, become the
   * integer amount: `$`, the space and the thousands dots all go.
   */
  lemma CleanPriceOfPesos(lead: string, n: nat)
    requires lead == "$" || lead == "$ "
    ensures CleanPrice(Text(lead + Grouped(n))) == Success(Whole(n))
  {
    var g := Grouped(n);
    PesosDigits(lead, n);
    GroupedDigits(n);
    ParseIntOfDigits(DeleteChar(g, '.'));
    CleanPriceOfText(lead + g, n);
  }
  /** Both readings of a published peso price hand `int()` the amount's digits. */
  lemma PesosDigits(lead: string, n: nat)
    requires lead == "$" || lead == "$ "
    ensures PriceDigits(lead + Grouped(n)) == DeleteChar(Grouped(n), '.')
    ensures PriceDigitsIntended(lead + Grouped(n)) == DeleteChar(Grouped(n), '.')
  {
    var g := Grouped(n);
    GroupedChars(n);
    UnformattedAfterSign(lead, g);
    DeleteCharAbsent(g, ',');
    assert !EndsWith(g, ".0") by {
      if |g| >= 2 {
        assert g[|g| - 2] != '.';
        assert g[|g| - 2..][0] == g[|g| - 2];
      }
    }
    PriceDigitsWithoutDecimal(lead + g);
  }


  /**
   * A price written as `$`, a numeral, one `.` and a three-digit group, as
   * the drsimi adapter assembles it, cleans to the numeral times a thousand
   * plus the group, whatever the numeral's size.
   */
  lemma CleanPriceOfThousands(x: nat, y: nat)
    requires y < 1000
    ensures Pow10(3) == 1000
    ensures CleanPrice(Text("$" + NatToString(x) + "." + Pad(y, 3))) == Success(Whole(DigitsValue(NatToString(x) + Pad(y, 3))))
    ensures DigitsValue(NatToString(x) + Pad(y, 3)) == x * 1000 + y
  {
    assert Pow10(3) == 1000;
    var n, t := NatToString(x), Pad(y, 3);
    CleanPriceDotted(n, t);
    DigitsValueAppend3(n, t);
  }

  /** `$`, digits, a dot and three digits: the dot is a thousands separator, so all the digits count. */
  lemma CleanPriceDotted(n: string, t: string)
    requires AllDigits(n) && |n| >= 1 && AllDigits(t) && |t| == 3
    ensures CleanPrice(Text("$" + n + "." + t)) == Success(Whole(DigitsValue(n + t)))
  {
    DottedDigits(n, t);
    DigitsValueAppend3(n, t);
    CleanPriceOfDigits("$" + n + "." + t, n + t);
  }

  /** A text whose remaining digits are a non-empty run of digits cleans to their value. */
  lemma CleanPriceOfDigits(s: string, d: string)
    requires PriceDigits(s) == d && AllDigits(d) && |d| >= 1
    ensures CleanPrice(Text(s)) == Success(Whole(DigitsValue(d)))
  {
    ParseIntOfDigits(d);
    CleanPriceOfText(s, DigitsValue(d));
  }

  /** `int()` is handed the digits on both sides of the dot. */
  lemma DottedDigits(n: string, t: string)
    requires AllDigits(n) && AllDigits(t) && |t| == 3
    ensures PriceDigits("$" + n + "." + t) == n + t
  {
    var g := n + "." + t;
    assert "$" + n + "." + t == "$" + g;
    DottedChars(n, t);
    SignedDottedDigits(g);
    DeleteDotBetween(n, t);
    DeleteCharAbsent(n, '.');
  }

  /** Digits, one dot and more digits. */
  lemma DottedChars(n: string, t: string)
    requires AllDigits(n) && AllDigits(t) && |t| >= 2
    ensures forall c :: c in n + "." + t ==> IsDigit(c) || c == '.'
    ensures |n + "." + t| >= 2 && IsDigit((n + "." + t)[|n + "." + t| - 2])
  {
    var g := n + "." + t;
    assert forall c :: c in g ==> c in n || c == '.' || c in t;
    assert g[|g| - 2] == t[|t| - 2];
  }

  /** After a lone `$`, text made of digits and dots that does not end in `.0` loses only its dots. */
  lemma SignedDottedDigits(g: string)
    requires forall c :: c in g ==> IsDigit(c) || c == '.'
    requires |g| >= 2 && IsDigit(g[|g| - 2])
    ensures PriceDigits("$" + g) == DeleteChar(g, '.')
  {
    UnformattedAfterSign("$", g);
    DeleteCharAbsent(g, ',');
    assert !EndsWith(g, ".0") by {
      assert g[|g| - 2..][0] == g[|g| - 2];
    }
    PriceDigitsWithoutDecimal("$" + g);
  }

  /** After the currency sign and the space after it, `Unformatted` deletes only commas. */
  lemma UnformattedAfterSign(lead: string, g: string)
    requires lead == "$" || lead == "$ "
    requires ' ' !in g && '$' !in g
    ensures Unformatted(lead + g) == DeleteChar(g, ',')
  {
    DeleteCharAppend(lead, g, ' ');
    DeleteCharAbsent(g, ' ');
    assert DeleteChar(lead, ' ') == "$";
    DeleteCharAppend("$", g, '$');
    DeleteCharAbsent(g, '$');
    assert DeleteChar("$", '$') == [];
    var t1 := DeleteChar(lead + g, ' ');
    assert t1 == "$" + g;
    var t2 := DeleteChar(t1, '$');
    assert t2 == [] + g;
    assert t2 == g;
  }

  /** Without a trailing `.0`, only the dots are deleted after the formatting characters. */
  lemma PriceDigitsWithoutDecimal(s: string)
    requires !EndsWith(Unformatted(s), ".0")
    ensures PriceDigits(s) == DeleteChar(Unformatted(s), '.')
  {
  }

  /** `n` with its trailing zeros removed. */
  function DropTrailingZeros(n: nat): (r: nat)
    requires n > 0
    ensures r > 0 && r % 10 != 0
    decreases n
  {
    if n % 10 == 0 then DropTrailingZeros(n / 10) else n
  }

  lemma {:induction false} RStripAppendDropped(a: string, b: string, drop: char -> bool)
    requires forall k :: 0 <= k < |b| ==> drop(b[k])
    ensures RStripWhile(a + b, drop) == RStripWhile(a, drop)
    decreases |b|
  {
    if b == [] {
      assert a + b == a;
    } else {
      assert (a + b)[..|a + b| - 1] == a + b[..|b| - 1];
      RStripAppendDropped(a, b[..|b| - 1], drop);
    }
  }

  lemma {:induction false} RStripNumeral(n: nat)
    requires n > 0
    ensures RStripWhile(NatToString(n), DotOrZero) == NatToString(DropTrailingZeros(n))
    decreases n
  {
    var s := NatToString(n);
    if n % 10 == 0 {
      assert n >= 10;
      assert s == NatToString(n / 10) + ['0'];
      RStripAppendDropped(NatToString(n / 10), ['0'], DotOrZero);
      RStripNumeral(n / 10);
    } else {
      var r := RStripWhile(s, DotOrZero);
      if n >= 10 {
        assert s[|s| - 1] == DigitChar(n % 10);
      }
      assert !DotOrZero(s[|s| - 1]);
      assert |r| == |s|;
    }
  }

  /**
   * The `rstrip('.0')` quirk: a price printed as `<n>.0` loses the trailing
   * zeros of `n` as well as the decimal part, so `100.0` becomes 1.
   */
  lemma CleanPriceDecimalQuirk(n: nat)
    requires n > 0
    ensures CleanPrice(Text(NatToString(n) + ".0")) == Success(Whole(DropTrailingZeros(n)))
  {
    var s := NatToString(n) + ".0";
    DecimalChars(n);
    UnformattedAbsent(s);
    PriceDigitsWithDecimal(s);
    RStripDecimal(n);
    NumeralReadsBack(DropTrailingZeros(n));
    CleanPriceOfText(s, DropTrailingZeros(n));
  }

  lemma DecimalChars(n: nat)
    ensures var s := NatToString(n) + ".0";
      ' ' !in s && '$' !in s && ',' !in s && EndsWith(s, ".0")
  {
    var d := NatToString(n);
    var s := d + ".0";
    assert forall c :: c in s ==> c in d || c == '.' || c == '0';
    assert s[|s| - 2..] == ".0";
  }

  lemma RStripDecimal(n: nat)
    requires n > 0
    ensures RStripWhile(NatToString(n) + ".0", DotOrZero) == NatToString(DropTrailingZeros(n))
  {
    var z := ".0";
    assert DotOrZero(z[0]) && DotOrZero(z[1]);
    RStripAppendDropped(NatToString(n), z, DotOrZero);
    RStripNumeral(n);
  }

  /** A numeral has no dots and reads back as its number. */
  lemma NumeralReadsBack(m: nat)
    ensures ParseInt(DeleteChar(NatToString(m), '.')) == Some(m)
  {
    var digits := NatToString(m);
    assert forall c :: c in digits ==> IsDigit(c);
    DeleteCharAbsent(digits, '.');
    ParseIntOfDigits(digits);
  }

  /** Text without spaces, `$` or `,` is left alone by `Unformatted`. */
  lemma UnformattedAbsent(s: string)
    requires ' ' !in s && '$' !in s && ',' !in s
    ensures Unformatted(s) == s
  {
    DeleteCharAbsent(s, ' ');
    DeleteCharAbsent(s, '$');
    DeleteCharAbsent(s, ',');
  }

  /** With a trailing `.0`, the `rstrip('.0')` runs before the dots are deleted. */
  lemma PriceDigitsWithDecimal(s: string)
    requires EndsWith(Unformatted(s), ".0")
    ensures PriceDigits(s) == DeleteChar(RStripWhile(Unformatted(s), DotOrZero), '.')
  {
    var t := Unformatted(s);
    assert t[|t| - 2] == t[|t| - 2..][0] == '.';
  }

  /**
   * A decimal comma is deleted rather than read as a decimal point: a
   * grouped amount followed by `,0` comes out ten times larger.
   */
  lemma CleanPriceDecimalComma(lead: string, n: nat)
    requires lead == "$" || lead == "$ "
    ensures CleanPrice(Text(lead + Grouped(n) + ",0")) == Success(Whole(10 * n))
  {
    var g := Grouped(n);
    GroupedChars(n);
    UnformattedDecimalComma(lead, g);
    var t := g + "0";
    assert !EndsWith(t, ".0") by {
      assert t[|t| - 2] == g[|g| - 1];
      assert t[|t| - 2..][0] == t[|t| - 2];
    }
    PriceDigitsWithoutDecimal(lead + g + ",0");
    GroupedTimesTen(n);
    CleanPriceOfText(lead + g + ",0", 10 * n);
  }

  /** The sign, a space and the comma go; the `0` after the comma stays. */
  lemma UnformattedDecimalComma(lead: string, g: string)
    requires lead == "$" || lead == "$ "
    requires ' ' !in g && '$' !in g && ',' !in g
    ensures Unformatted(lead + g + ",0") == g + "0"
  {
    assert lead + g + ",0" == lead + (g + ",0");
    UnformattedAfterSign(lead, g + ",0");
    DeleteCharAppend(g, ",0", ',');
    DeleteCharAbsent(g, ',');
    assert DeleteChar(",0", ',') == "0";
  }

  /** A grouped amount followed by a zero reads as ten times the amount once its dots go. */
  lemma GroupedTimesTen(n: nat)
    ensures ParseInt(DeleteChar(Grouped(n) + "0", '.')) == Some(10 * n)
  {
    GroupedDigits(n);
    DottedTimesTen(Grouped(n));
  }

  lemma DottedTimesTen(x: string)
    requires AllDigits(DeleteChar(x, '.')) && |DeleteChar(x, '.')| >= 1
    ensures ParseInt(DeleteChar(x + "0", '.')) == Some(DigitsValue(DeleteChar(x, '.')) * 10)
  {
    DeleteCharAppend(x, "0", '.');
    assert DeleteChar("0", '.') == "0";
    DigitsValueAppendZero(DeleteChar(x, '.'));
    ParseIntOfDigits(DeleteChar(x, '.') + "0");
  }

  /** A zero after a numeral multiplies its value by ten. */
  lemma DigitsValueAppendZero(x: string)
    requires AllDigits(x)
    ensures AllDigits(x + "0")
    ensures DigitsValue(x + "0") == DigitsValue(x) * 10
  {
    var d := x + "0";
    assert d[..|d| - 1] == x && d[|d| - 1] == '0';
  }

  /** One step of the grouping: the thousands, a dot, and the last three digits. */
  lemma GroupedStep(n: nat)
    requires n >= 1000
    ensures Pow10(3) == 1000
    ensures Grouped(n) == Grouped(n / 1000) + "." + Pad(n % 1000, 3)
  {
    assert Pow10(3) == 1000;
  }

  /** Three digits, zero-padded, written out one digit at a time. */
  lemma PadThree(n: nat)
    requires n < 1000
    ensures Pow10(3) == 1000 && Pow10(2) == 100 && Pow10(1) == 10
    ensures Pad(n, 3) == [DigitChar(n / 10 / 10 % 10), DigitChar(n / 10 % 10), DigitChar(n % 10)]
  {
    assert Pow10(3) == 1000 && Pow10(2) == 100 && Pow10(1) == 10;
    var a := n / 10;
    var b := a / 10;
    assert a < 100 && b < 10;
    assert Pad(n, 3) == Pad(a, 2) + [DigitChar(n % 10)];
    assert Pad(a, 2) == Pad(b, 1) + [DigitChar(a % 10)];
    assert Pad(b, 1) == Pad(b / 10, 0) + [DigitChar(b % 10)] == [DigitChar(b % 10)];
  }

  lemma GroupedExample12990()
    ensures Grouped(12990) == "12.990"
  {
    GroupedStep(12990);
    assert Grouped(12) == NatToString(12) == "12";
    PadThree(990);
  }

  lemma GroupedExample1234()
    ensures Grouped(1234) == "1.234"
  {
    GroupedStep(1234);
    assert Grouped(1) == NatToString(1) == "1";
    PadThree(234);
  }

  /** `$12.990` is 12990 pesos. */
  lemma CleanPriceExamplePesos()
    ensures CleanPrice(Text("$12.990")) == Success(Whole(12990))
  {
    GroupedExample12990();
    assert "$" + Grouped(12990) == "$12.990";
    CleanPriceOfPesos("$", 12990);
  }

  /** `$1.234,0` becomes 12340. */
  lemma CleanPriceExampleComma()
    ensures CleanPrice(Text("$1.234,0")) == Success(Whole(12340))
  {
    GroupedExample1234();
    assert "$" + Grouped(1234) + ",0" == "$1.234,0";
    CleanPriceDecimalComma("$", 1234);
  }

  /** `100.0` becomes 1, not 100. */
  lemma CleanPriceExampleHundred()
    ensures CleanPrice(Text("100.0")) == Success(Whole(1))
  {
    NumeralExample100();
    CleanPriceDecimalQuirk(100);
    DropTrailingZerosExample100();
  }

  lemma NumeralExample100()
    ensures NatToString(100) + ".0" == "100.0"
  {
    assert NatToString(1) == "1";
    assert NatToString(10) == "10";
  }

  lemma DropTrailingZerosExample100()
    ensures DropTrailingZeros(100) == 1
  {
    assert DropTrailingZeros(10) == 1;
  }

  /** A bare `$` leaves nothing for `int()`, which raises. */
  lemma CleanPriceExampleSign()
    ensures CleanPrice(Text("$")) == Failure(InvalidLiteral(""))
  {
    assert DeleteChar("$", ' ') == "$";
    assert DeleteChar("$", '$') == "";
    assert Unformatted("$") == "";
    assert PriceDigits("$") == "";
    StripUnchanged("");
  }

  /** `rstrip('.0')` strips `0.0` to nothing. */
  lemma RStripZeroDecimal()
    ensures RStripWhile("0.0", DotOrZero) == ""
  {
    assert RStripWhile("0", DotOrZero) == "";
    RStripAppendDropped("0", ".0", DotOrZero);
    assert "0" + ".0" == "0.0";
  }

  /** `0.0` is stripped to nothing, and `int()` raises. */
  lemma CleanPriceExampleZero()
    ensures CleanPrice(Text("0.0")) == Failure(InvalidLiteral(""))
  {
    UnformattedAbsent("0.0");
    assert EndsWith("0.0", ".0");
    PriceDigitsWithDecimal("0.0");
    RStripZeroDecimal();
    assert PriceDigits("0.0") == "";
    StripUnchanged("");
  }

  // ---------------------------------------------------------------------
  // The decimal part, as lines 47-49 evidently mean to remove it
  // ---------------------------------------------------------------------

  /**
   * `PriceDigits` with the decimal part removed as the comment on line 47
   * says: only the final `.0` goes, so the zeros of the amount stay.
   */
  function PriceDigitsIntended(text: string): (r: string)
    ensures ' ' !in r && '$' !in r && ',' !in r && '.' !in r
  {
    var t := Unformatted(text);
    var u := if EndsWith(t, ".0") then t[..|t| - 2] else t;
    assert forall x :: x in u ==> x in t;
    DeleteChar(u, '.')
  }

  /** `clean_price` with `PriceDigitsIntended` in place of `PriceDigits`. */
  function CleanPriceIntended(c: Cell): (r: Result<Cell, Error>)
    ensures c == Missing ==> r == Success(Missing)
    ensures c != Missing && r.Success? ==> r.value.Whole?
    ensures c != Missing ==> (r.Success? <==> ParseInt(PriceDigitsIntended(CellText(c))).Some?)
  {
    if c == Missing then Success(Missing)
    else
      var digits := PriceDigitsIntended(CellText(c));
      match ParseInt(digits)
      case None => Failure(InvalidLiteral(digits))
      case Some(n) => Success(Whole(n))
  }

  /** The two agree on every price whose text does not end in `.0` once formatting is removed. */
  lemma CleanPricesAgree(c: Cell)
    requires c == Missing || !EndsWith(Unformatted(CellText(c)), ".0")
    ensures CleanPriceIntended(c) == CleanPrice(c)
  {
  }

  /** A price printed as `<n>.0` reads as `n`. */
  lemma CleanPriceIntendedDecimal(n: nat)
    ensures CleanPriceIntended(Text(NatToString(n) + ".0")) == Success(Whole(n))
  {
    var d := NatToString(n);
    var s := d + ".0";
    assert CellText(Text(s)) == s;
    IntendedDropsDecimal(d);
    NumeralReadsBack(n);
    assert ParseInt(PriceDigitsIntended(s)) == Some(n);
  }

  /** For a digit string, the intended rewrite drops the final `.0` and nothing else. */
  lemma IntendedDropsDecimal(d: string)
    requires AllDigits(d)
    ensures PriceDigitsIntended(d + ".0") == DeleteChar(d, '.')
  {
    var s := d + ".0";
    assert forall k :: 0 <= k < |s| ==> IsDigit(s[k]) || s[k] == '.';
    UnformattedAbsent(s);
    assert s[|s| - 2..] == ".0";
    assert s[..|s| - 2] == d;
  }

  /** An integer price comes back unchanged. */
  lemma CleanPriceIntendedOfWhole(n: int)
    ensures CleanPriceIntended(Whole(n)) == Success(Whole(n))
  {
    WholeDigits(n);
  }

  /** Cleaning a cleaned price changes nothing. */
  lemma CleanPriceIntendedIdempotent(c: Cell)
    requires CleanPriceIntended(c).Success?
    ensures CleanPriceIntended(CleanPriceIntended(c).value) == CleanPriceIntended(c)
  {
    if c != Missing {
      CleanPriceIntendedOfWhole(CleanPriceIntended(c).value.i);
    }
  }

  /** The prices the sites publish clean to the same amount either way. */
  lemma CleanPriceIntendedOfPesos(lead: string, n: nat)
    requires lead == "$" || lead == "$ "
    ensures CleanPriceIntended(Text(lead + Grouped(n))) == Success(Whole(n))
  {
    var g := Grouped(n);
    PesosDigits(lead, n);
    GroupedDigits(n);
    ParseIntOfDigits(DeleteChar(g, '.'));
    assert CellText(Text(lead + g)) == lead + g;
  }

  /**
   * `str()` of a price that pandas holds as a float, `12990.0`: as written
   * it cleans to 1299, while the intended reading gives 12990.
   */
  lemma CleanPriceExampleFloatText()
    ensures CleanPrice(Text("12990.0")) == Success(Whole(1299))
    ensures CleanPriceIntended(Text("12990.0")) == Success(Whole(12990))
  {
    NumeralExample12990();
    CleanPriceDecimalQuirk(12990);
    DropTrailingZerosExample12990();
    CleanPriceIntendedDecimal(12990);
  }

  lemma NumeralExample12990()
    ensures NatToString(12990) + ".0" == "12990.0"
  {
    assert NatToString(1) == "1";
    assert NatToString(12) == "12";
    assert NatToString(129) == "129";
    assert NatToString(1299) == "1299";
  }

  lemma DropTrailingZerosExample12990()
    ensures DropTrailingZeros(12990) == 1299
  {
    assert DropTrailingZeros(1299) == 1299;
  }
}
