/** The diagnostics page: the readings, thresholds and flags `pm_set_a2` extracts, in the raw units
    of section 9.2 of SFF-8472 (whole degrees, 100 microvolt, 2 microampere, 0.1 microwatt), and the
    text comparison of SET_FLOAT_STRING. */
module Dom {
  import opened Bits
  import opened Decimal
  import opened Hex

  // ---- values ----

  /** `(msb << 8) | lsb` */
  function Word(msb: byte, lsb: byte): nat
  {
    Or(Shl(msb, 8), lsb)
  }

  /** `char`, a signed 8-bit integer. */
  function Signed8(b: byte): int
  {
    if b >= 128 then b - 256 else b
  }

  /** The temperature as computed: `msb + (float)(lsb / 256)`, an integer division. */
  function Degrees(msb: byte, lsb: byte): int
  {
    Signed8(msb) + lsb / 256
  }

  /** The 16-bit two's complement value, in 1/256 degree. */
  function Signed16(w: nat): int
  {
    if w >= 32768 then w - 65536 else w
  }

  /** A reading is its big-endian 16-bit word, so readings and thresholds of one kind compare as
      their bytes do. */
  lemma WordIsBigEndian(msb: byte, lsb: byte)
    ensures Word(msb, lsb) == 256 * msb + lsb
  {
    assert Pow2(8) == 256;
    Shl8(msb);
    OrIsSum(8, msb, lsb);
  }

  lemma WordOrder(a: byte, b: byte, c: byte, d: byte)
    ensures Word(a, b) < Word(c, d) <==> a < c || (a == c && b < d)
  {
    WordIsBigEndian(a, b);
    WordIsBigEndian(c, d);
  }

  /** The temperature is the measured one rounded down to whole degrees, below zero too. */
  lemma DegreesIsFloor(msb: byte, lsb: byte)
    ensures Degrees(msb, lsb) == Signed16(Word(msb, lsb)) / 256
    ensures var w := 256 * (msb as int) + lsb; Signed16(Word(msb, lsb)) == if msb >= 0x80 then w - 0x1_0000 else w
    ensures -128 <= Degrees(msb, lsb) <= 127
  {
    WordIsBigEndian(msb, lsb);
  }

  // ---- the SFP+ page ----

  /** High alarm, low alarm, high warning, low warning. */
  datatype Levels<T> = Levels(highAlarm: T, lowAlarm: T, highWarning: T, lowWarning: T)

  datatype Quantity = Quantity(reading: int, thresholds: Levels<int>, flags: Levels<bool>)

  /** The statements of the SFP+ case, in the order temperature, supply voltage, bias current,
      transmitted power, received power. */
  function SfpDom(a2: Page): (r: seq<Quantity>)
    ensures |r| == 5
  {
    [Quantity(Degrees(a2[96], a2[97]),
              Levels(Degrees(a2[0], a2[1]), Degrees(a2[2], a2[3]), Degrees(a2[4], a2[5]), Degrees(a2[6], a2[7])),
              Levels(Bit(a2[112], 7), Bit(a2[112], 6), Bit(a2[116], 7), Bit(a2[116], 6))),
     Quantity(Word(a2[98], a2[99]),
              Levels(Word(a2[8], a2[9]), Word(a2[10], a2[11]), Word(a2[12], a2[13]), Word(a2[14], a2[15])),
              Levels(Bit(a2[112], 5), Bit(a2[112], 4), Bit(a2[116], 5), Bit(a2[116], 4))),
     Quantity(Word(a2[100], a2[101]),
              Levels(Word(a2[16], a2[17]), Word(a2[18], a2[19]), Word(a2[20], a2[21]), Word(a2[22], a2[23])),
              Levels(Bit(a2[112], 3), Bit(a2[112], 2), Bit(a2[116], 3), Bit(a2[116], 2))),
     Quantity(Word(a2[102], a2[103]),
              Levels(Word(a2[24], a2[25]), Word(a2[26], a2[27]), Word(a2[28], a2[29]), Word(a2[30], a2[31])),
              Levels(Bit(a2[112], 1), Bit(a2[112], 0), Bit(a2[116], 1), Bit(a2[116], 0))),
     Quantity(Word(a2[104], a2[105]),
              Levels(Word(a2[32], a2[33]), Word(a2[34], a2[35]), Word(a2[36], a2[37]), Word(a2[38], a2[39])),
              Levels(Bit(a2[113], 7), Bit(a2[113], 6), Bit(a2[117], 7), Bit(a2[117], 6)))]
  }

  /** The value of quantity q at a byte offset. */
  function ValueAt(a2: Page, q: nat, offset: nat): int
    requires offset < 127
  {
    if q == 0 then Degrees(a2[offset], a2[offset + 1]) else Word(a2[offset], a2[offset + 1])
  }

  /** Flag number k of a flag area, counted from the highest bit of its first byte. */
  function FlagAt(a2: Page, area: nat, k: nat): bool
    requires area + k / 8 < 128
  {
    Bit(a2[area + k / 8], 7 - k % 8)
  }

  /** One rule for all five quantities: readings from byte 96, thresholds from byte 0, eight bytes
      each, alarms from byte 112 and warnings from byte 116, two bits each. */
  lemma SfpLayout(a2: Page, q: nat)
    requires q < 5
    ensures SfpDom(a2)[q] ==
            Quantity(ValueAt(a2, q, 96 + 2 * q),
                     Levels(ValueAt(a2, q, 8 * q), ValueAt(a2, q, 8 * q + 2),
                            ValueAt(a2, q, 8 * q + 4), ValueAt(a2, q, 8 * q + 6)),
                     Levels(FlagAt(a2, 112, 2 * q), FlagAt(a2, 112, 2 * q + 1),
                            FlagAt(a2, 116, 2 * q), FlagAt(a2, 116, 2 * q + 1)))
  {
    hide Bit, Word, Degrees;
    if q == 0 {
    } else if q == 1 {
    } else if q == 2 {
    } else if q == 3 {
    } else {
      assert q == 4;
    }
  }

  // ---- the QSFP page ----

  datatype Lane = Lane(txBias: nat, txFlags: Levels<bool>, rxPower: nat, rxFlags: Levels<bool>)

  /** The statements of the QSFP case for lanes 1 to 4. */
  function QsfpLanes(a2: Page): (r: seq<Lane>)
    ensures |r| == 4
  {
    [Lane(Word(a2[42], a2[43]), Levels(Bit(a2[11], 7), Bit(a2[11], 6), Bit(a2[11], 5), Bit(a2[11], 4)),
          Word(a2[34], a2[35]), Levels(Bit(a2[9], 7), Bit(a2[9], 6), Bit(a2[9], 5), Bit(a2[9], 4))),
     Lane(Word(a2[44], a2[45]), Levels(Bit(a2[11], 3), Bit(a2[11], 2), Bit(a2[11], 1), Bit(a2[11], 0)),
          Word(a2[36], a2[37]), Levels(Bit(a2[9], 3), Bit(a2[9], 2), Bit(a2[9], 1), Bit(a2[9], 0))),
     Lane(Word(a2[46], a2[47]), Levels(Bit(a2[12], 7), Bit(a2[12], 6), Bit(a2[12], 5), Bit(a2[12], 4)),
          Word(a2[38], a2[39]), Levels(Bit(a2[10], 7), Bit(a2[10], 6), Bit(a2[10], 5), Bit(a2[10], 4))),
     Lane(Word(a2[48], a2[49]), Levels(Bit(a2[12], 3), Bit(a2[12], 2), Bit(a2[12], 1), Bit(a2[12], 0)),
          Word(a2[40], a2[41]), Levels(Bit(a2[10], 3), Bit(a2[10], 2), Bit(a2[10], 1), Bit(a2[10], 0)))]
  }

  /** The four flags of lane k of a flag area: one nibble per lane, highest first. */
  function LaneFlags(a2: Page, area: nat, k: nat): Levels<bool>
    requires k < 4 && area < 120
  {
    Levels(FlagAt(a2, area, 4 * k), FlagAt(a2, area, 4 * k + 1),
           FlagAt(a2, area, 4 * k + 2), FlagAt(a2, area, 4 * k + 3))
  }

  /** One rule for all four lanes. */
  lemma QsfpLayout(a2: Page, k: nat)
    requires k < 4
    ensures QsfpLanes(a2)[k] ==
            Lane(Word(a2[42 + 2 * k], a2[43 + 2 * k]), LaneFlags(a2, 11, k),
                 Word(a2[34 + 2 * k], a2[35 + 2 * k]), LaneFlags(a2, 9, k))
  {
    hide Bit, Word;
    if k == 0 {
    } else if k == 1 {
    } else if k == 2 {
    } else {
      assert k == 3;
    }
  }

  datatype Monitors = Monitors(temperature: int, voltage: nat)

  /** The statements of the QSFP case for the module itself. */
  function QsfpMonitors(a2: Page): Monitors
  {
    Monitors(Degrees(a2[22], a2[23]), Word(a2[26], a2[27]))
  }

  /** The module's temperature is the signed word of bytes 22 and 23, in 1/256 degree, rounded down;
      its supply voltage is the word of bytes 26 and 27. */
  lemma QsfpMonitorsExact(a2: Page)
    ensures var m := QsfpMonitors(a2);
            && -128 <= m.temperature <= 127
            && 256 * m.temperature <= Signed16(256 * (a2[22] as int) + a2[23]) < 256 * (m.temperature + 1)
            && m.voltage == 256 * (a2[26] as int) + a2[27]
  {
    DegreesIsFloor(a2[22], a2[23]);
    WordIsBigEndian(a2[22], a2[23]);
    WordIsBigEndian(a2[26], a2[27]);
  }

  // ---- SET_FLOAT_STRING ----

  /** `%4.2f` of a whole number. */
  function WholeText(v: int): string
  {
    Dec(v) + ".00"
  }

  /** `%4.2f` of h hundredths. */
  function HundredthsText(h: nat): string
  {
    DecNat(h / 100) + ['.', Digit(h / 10 % 10), Digit(h % 10)]
  }

  /** Rounding to the nearest hundredth, with any rule for ties. */
  ghost predicate Nearest(round: real -> int)
  {
    forall x: real :: -0.5 <= 100.0 * x - round(x) as real <= 0.5
  }

  /** SET_FLOAT_STRING: the stored text is kept when `strtol` of it, which stops at the decimal point,
      equals the new value. */
  function SetFloat(column: Option<string>, v: real, printed: string): string
  {
    if column.Some? && Strtol(column.value) as real == v then column.value else printed
  }

  /** Temperatures are whole degrees, so the comparison never leaves a stale one. */
  lemma TemperatureFresh(column: Option<string>, v: CInt)
    requires column.Some? ==> exists t: int :: FitsInt(t) && column.value == WholeText(t)
    ensures SetFloat(column, v as real, WholeText(v)) == WholeText(v)
  {
    if column.Some? {
      var t: int :| FitsInt(t) && column.value == WholeText(t);
      StrtolPrinted(t, ".00");
    }
  }

  lemma HundredthsRead(h: nat)
    requires h / 100 < 0x8000_0000
    ensures Strtol(HundredthsText(h)) == h / 100
  {
    StrtolPlain(h / 100, ['.', Digit(h / 10 % 10), Digit(h % 10)]);
  }

  lemma SameFraction(whole: string, a: char, b: char, c: char, d: char)
    requires whole + ['.', a, b] == whole + ['.', c, d]
    ensures a == c && b == d
  {
    var n := |whole|;
    assert (whole + ['.', a, b])[n + 1] == a && (whole + ['.', c, d])[n + 1] == c;
    assert (whole + ['.', a, b])[n + 2] == b && (whole + ['.', c, d])[n + 2] == d;
  }

  lemma Places(h: nat)
    ensures h == 100 * (h / 100) + 10 * (h / 10 % 10) + h % 10
  {
  }

  lemma DigitInjective(d: nat, e: nat)
    requires d < 10 && e < 10 && Digit(d) == Digit(e)
    ensures d == e
  {
  }

  lemma HundredthsInjective(g: nat, h: nat)
    requires g / 100 < 0x8000_0000 && h / 100 < 0x8000_0000 && HundredthsText(g) == HundredthsText(h)
    ensures g == h
  {
    hide DecNat, Strtol, Digit;
    HundredthsRead(g);
    HundredthsRead(h);
    var gt, go, ht, ho := g / 10 % 10, g % 10, h / 10 % 10, h % 10;
    SameFraction(DecNat(g / 100), Digit(gt), Digit(go), Digit(ht), Digit(ho));
    DigitInjective(gt, ht);
    DigitInjective(go, ho);
    Places(g);
    Places(h);
  }

  /** A reading that is not negative: a 16-bit word in its unit. */
  predicate Reading(x: real)
  {
    0.0 <= x < 65536.0
  }

  lemma RoundedReading(round: real -> int, x: real)
    requires Nearest(round) && Reading(x)
    ensures 0 <= round(x) <= 6553600
    ensures x == x.Floor as real ==> round(x) == 100 * x.Floor
  {
  }

  /** Fractional quantities can go stale: after g was stored, the new value v is not stored exactly
      when v is a whole number and the text of g has the same integer part with a fraction. */
  lemma FractionStale(round: real -> int, g: real, v: real)
    requires Nearest(round) && Reading(g) && Reading(v)
    ensures 0 <= round(g) && 0 <= round(v)
    ensures SetFloat(Some(HundredthsText(round(g))), v, HundredthsText(round(v))) == HundredthsText(round(v))
            <==> !(v == v.Floor as real && round(g) / 100 == v.Floor && round(g) % 100 != 0)
  {
    hide HundredthsText;
    RoundedReading(round, g);
    RoundedReading(round, v);
    HundredthsRead(round(g));
    if HundredthsText(round(g)) == HundredthsText(round(v)) {
      HundredthsInjective(round(g), round(v));
    }
  }

  /** 3.30 V followed by 3.00 V leaves "3.30". */
  lemma StaleVoltage(round: real -> int)
    requires Nearest(round)
    ensures 0 <= round(3.3) && 0 <= round(3.0)
    ensures SetFloat(Some(HundredthsText(round(3.3))), 3.0, HundredthsText(round(3.0))) == "3.30"
    ensures HundredthsText(round(3.0)) == "3.00"
  {
    assert round(3.3) == 330 && round(3.0) == 300;
    assert DecNat(3) == "3";
    StrtolPlain(3, ".30");
  }

  /** The two forms of `%4.2f` agree on whole numbers. */
  lemma WholeHundredths(v: nat)
    ensures HundredthsText(100 * v) == WholeText(v)
  {
  }
}
