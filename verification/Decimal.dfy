/** The C library text conversions the column macros rely on: `%d` printing, `strtol` with
    base 0, and the space-separated speed list built by `set_supported_speeds`. */
module Decimal {

  predicate FitsInt(v: int)
  {
    -0x8000_0000 <= v < 0x8000_0000
  }

  /** The C type `int`. */
  type CInt = v: int | FitsInt(v)

  function Digit(d: nat): char
    requires d < 10
  {
    '0' + d as char
  }

  function DecNat(n: nat): (s: string)
    ensures |s| >= 1
    ensures forall i :: 0 <= i < |s| ==> '0' <= s[i] <= '9'
    ensures s[0] == '0' ==> n == 0
  {
    if n < 10 then [Digit(n)] else DecNat(n / 10) + [Digit(n % 10)]
  }

  /** `%d` */
  function Dec(v: int): (s: string)
    ensures |s| >= 1 && ' ' !in s
  {
    if v < 0 then "-" + DecNat(-v) else DecNat(v)
  }

  /** Value of a digit or letter in any base up to 36; 36 for every other character. */
  function DigitValue(c: char): nat
  {
    if '0' <= c <= '9' then c as int - '0' as int
    else if 'a' <= c <= 'z' then c as int - 'a' as int + 10
    else if 'A' <= c <= 'Z' then c as int - 'A' as int + 10
    else 36
  }

  /** Accumulates digits until the first character that is not one in the base. */
  function Scan(s: string, base: nat, acc: nat): nat
  {
    if s == [] || DigitValue(s[0]) >= base then acc
    else Scan(s[1..], base, acc * base + DigitValue(s[0]))
  }

  predicate IsSpace(c: char)
  {
    c == ' ' || '\t' <= c <= '\r'
  }

  function SkipSpace(s: string): string
  {
    if s != [] && IsSpace(s[0]) then SkipSpace(s[1..]) else s
  }

  /** The magnitude after the sign: 0x selects base 16, another leading 0 base 8. */
  function Magnitude(u: string): nat
  {
    if u != [] && u[0] == '0' then
      if |u| >= 3 && (u[1] == 'x' || u[1] == 'X') && DigitValue(u[2]) < 16
      then Scan(u[2..], 16, 0)
      else Scan(u, 8, 0)
    else Scan(u, 10, 0)
  }

  /** Result saturated to a 64-bit `long`. */
  function ClampLong(v: int): int
  {
    if v < -0x8000_0000_0000_0000 then -0x8000_0000_0000_0000
    else if v > 0x7FFF_FFFF_FFFF_FFFF then 0x7FFF_FFFF_FFFF_FFFF
    else v
  }

  /** `strtol(s, NULL, 0)` */
  function Strtol(s: string): int
  {
    var t := SkipSpace(s);
    if t != [] && t[0] == '-' then ClampLong(0 - Magnitude(t[1..]) as int)
    else if t != [] && t[0] == '+' then ClampLong(Magnitude(t[1..]))
    else ClampLong(Magnitude(t))
  }

  /** Scanning a printed number leaves its value in the accumulator. */
  lemma {:induction false} ScanPrinted(n: nat, rest: string)
    ensures Scan(DecNat(n) + rest, 10, 0) == Scan(rest, 10, n)
  {
    var d := [Digit(n % 10)] + rest;
    assert d[0] == Digit(n % 10) && d[1..] == rest;
    if n < 10 {
      assert DecNat(n) + rest == d;
    } else {
      assert DecNat(n) + rest == DecNat(n / 10) + d;
      ScanPrinted(n / 10, d);
      assert Scan(d, 10, n / 10) == Scan(rest, 10, n / 10 * 10 + n % 10);
    }
  }

  lemma {:induction false} MagnitudePrinted(n: nat, rest: string)
    requires rest == [] || (DigitValue(rest[0]) >= 10 && rest[0] != 'x' && rest[0] != 'X')
    ensures Magnitude(DecNat(n) + rest) == n
  {
    var u := DecNat(n) + rest;
    assert u[0] == DecNat(n)[0];
    if n == 0 {
      assert u[1..] == rest;
      assert Scan(u, 8, 0) == Scan(rest, 8, 0);
    } else {
      ScanPrinted(n, rest);
    }
  }

  lemma {:induction false} StrtolMinus(n: nat, rest: string)
    requires n <= 0x8000_0000
    requires rest == [] || (DigitValue(rest[0]) >= 10 && rest[0] != 'x' && rest[0] != 'X')
    ensures Strtol("-" + (DecNat(n) + rest)) == 0 - n
  {
    MagnitudePrinted(n, rest);
    var s := "-" + (DecNat(n) + rest);
    assert s[1..] == DecNat(n) + rest;
  }

  lemma {:induction false} StrtolPlain(n: nat, rest: string)
    requires n < 0x8000_0000
    requires rest == [] || (DigitValue(rest[0]) >= 10 && rest[0] != 'x' && rest[0] != 'X')
    ensures Strtol(DecNat(n) + rest) == n
  {
    MagnitudePrinted(n, rest);
    assert (DecNat(n) + rest)[0] == DecNat(n)[0];
  }

  /** Reading back `%d` text, even with further text behind it, gives the number. */
  lemma {:induction false} StrtolPrinted(v: int, rest: string)
    requires FitsInt(v)
    requires rest == [] || (DigitValue(rest[0]) >= 10 && rest[0] != 'x' && rest[0] != 'X')
    ensures Strtol(Dec(v) + rest) == v
  {
    if v < 0 {
      StrtolMinus(-v, rest);
      assert "-" + DecNat(-v) + rest == "-" + (DecNat(-v) + rest);
    } else {
      StrtolPlain(v, rest);
    }
  }

  /** `strtol` with base 0 inverts `%d` on every int. */
  lemma {:induction false} DecRoundTrip(v: CInt)
    ensures Strtol(Dec(v)) == v
  {
    assert Dec(v) + [] == Dec(v);
    StrtolPrinted(v, []);
  }

  /** The speeds as they are published. */
  lemma SpeedTexts()
    ensures Dec(0) == "0" && Dec(10000) == "10000" && Dec(40000) == "40000" && Dec(100000) == "100000"
  {
    assert DecNat(1) == "1" && DecNat(4) == "4";
    assert DecNat(10) == "10" && DecNat(40) == "40";
    assert DecNat(100) == "100" && DecNat(400) == "400";
    assert DecNat(1000) == "1000" && DecNat(4000) == "4000";
    assert DecNat(10000) == "10000" && DecNat(40000) == "40000";
  }

  /** A text that `strtol` reads as 10000 without being the `%d` form of 10000. */
  lemma {:induction false} HexTextReadsAsSpeed()
    ensures Strtol("0x2710") == 10000 && "0x2710" != Dec(10000)
  {
    var u := "0x2710";
    assert u[2..] == "2710" && "2710"[1..] == "710" && "710"[1..] == "10" && "10"[1..] == "0" && "0"[1..] == "";
    assert Scan("10", 16, 0x27) == Scan("0", 16, 0x271) == Scan("", 16, 0x2710) == 10000;
    assert Scan("2710", 16, 0) == Scan("710", 16, 2) == Scan("10", 16, 0x27);
    assert Magnitude(u) == 10000;
    assert Dec(10000)[0] != '0';
  }

  /** A number outside the range of a `long` is read as the nearest end of the range. */
  lemma StrtolSaturates(n: nat)
    requires n > 0x8000_0000_0000_0000
    ensures Strtol(DecNat(n)) == 0x7FFF_FFFF_FFFF_FFFF
    ensures Strtol("-" + DecNat(n)) == -0x8000_0000_0000_0000
  {
    MagnitudePrinted(n, []);
    assert DecNat(n) + [] == DecNat(n);
    assert ("-" + DecNat(n))[1..] == DecNat(n);
  }

  /** A leading zero selects base 8, blanks and a plus sign are skipped, and reading stops at the first
      character that is not a digit. */
  lemma StrtolForms()
    ensures Strtol(" \t+010.5") == 8
  {
    var s := " \t+010.5";
    assert s[1..] == "\t+010.5" && s[1..][1..] == "+010.5";
    assert SkipSpace("+010.5") == "+010.5" && SkipSpace("\t+010.5") == "+010.5";
    var u := "010.5";
    assert "+010.5"[1..] == u && u[1..] == "10.5" && "10.5"[1..] == "0.5" && "0.5"[1..] == ".5";
    assert Scan(".5", 8, 8) == 8;
    assert Scan("0.5", 8, 1) == 8;
    assert Scan("10.5", 8, 0) == 8;
    assert Scan(u, 8, 0) == 8;
  }

  // ---- the supported-speeds list ----

  /** The decimal forms of the speeds, joined by single spaces. */
  function SpeedsText(speeds: seq<int>): string
  {
    if speeds == [] then ""
    else
      var last := |speeds| - 1;
      SpeedsText(speeds[..last]) + (if last == 0 then "" else " ") + Dec(speeds[last])
  }

  lemma SpeedsAppend(speeds: seq<int>, v: int)
    ensures SpeedsText(speeds + [v]) == SpeedsText(speeds) + (if speeds == [] then "" else " ") + Dec(v)
  {
  }

  /** Splits at every space. */
  function Split(s: string): (r: seq<string>)
    ensures |r| >= 1
  {
    if s == [] then [""]
    else
      var r := Split(s[..|s| - 1]);
      var c := s[|s| - 1];
      if c == ' ' then r + [""] else r[..|r| - 1] + [r[|r| - 1] + [c]]
  }

  function ParseAll(words: seq<string>): seq<int>
  {
    if words == [] then []
    else ParseAll(words[..|words| - 1]) + [Strtol(words[|words| - 1])]
  }

  lemma {:induction false} SplitWord(w: string)
    requires ' ' !in w
    ensures Split(w) == [w]
  {
    if w != [] {
      SplitWord(w[..|w| - 1]);
      assert w == w[..|w| - 1] + [w[|w| - 1]];
    }
  }

  lemma {:induction false} SplitAppend(a: string, w: string)
    requires ' ' !in w
    ensures Split(a + " " + w) == Split(a) + [w]
  {
    var s := a + " " + w;
    if w == [] {
      assert s[..|s| - 1] == a;
    } else {
      var v := w[..|w| - 1];
      assert s[..|s| - 1] == a + " " + v;
      SplitAppend(a, v);
      assert w == v + [w[|w| - 1]];
    }
  }

  lemma {:induction false} ParseAllAppend(words: seq<string>, w: string)
    ensures ParseAll(words + [w]) == ParseAll(words) + [Strtol(w)]
  {
  }

  /** The speeds column determines the list it was built from, for every non-empty list. */
  lemma {:induction false} SpeedsRoundTrip(speeds: seq<int>)
    requires speeds != [] && forall i :: 0 <= i < |speeds| ==> FitsInt(speeds[i])
    ensures ParseAll(Split(SpeedsText(speeds))) == speeds
  {
    var init, w := speeds[..|speeds| - 1], speeds[|speeds| - 1];
    DecRoundTrip(w);
    assert speeds == init + [w];
    if init == [] {
      assert SpeedsText(speeds) == "" + Dec(w) == Dec(w);
      SplitWord(Dec(w));
      ParseAllAppend([], Dec(w));
      assert [] + [Dec(w)] == [Dec(w)];
    } else {
      SpeedsRoundTrip(init);
      SplitAppend(SpeedsText(init), Dec(w));
      ParseAllAppend(Split(SpeedsText(init)), Dec(w));
    }
  }
}
