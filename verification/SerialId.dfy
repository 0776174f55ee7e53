/** The serial-ID page: the byte layout shared by the SFP+ and QSFP structures, the module
    classification of `pm_parse`, and its vendor fields. Offsets count from the start of the
    128-byte page; both structures put `vendor_name` at 20, `vendor_oui` at 37,
    `vendor_part_number` at 40, `vendor_revision` at 56, the first check code at 63,
    `options` at 64, `vendor_serial_number` at 68, `diag_monitor_type` at 92 and the second
    check code at 95. Byte 3 is the first byte of `transceiver` and of `spec_compliance`. */
module SerialId {
  import opened Bits
  import Checksum
  import Hex

  /** The connector named by the hardware description: "SFP_PLUS", "QSFP_PLUS", "QSFP28", or a text
      that `strcmp` matches with none of them. */
  datatype SocketType = SfpPlus | QsfpPlus | Qsfp28 | Other(name: string)

  /** The sockets `pm_parse` and `pm_read_module_state` handle. */
  predicate Known(socket: SocketType)
  {
    !socket.Other?
  }

  predicate IsQsfp(socket: SocketType)
  {
    socket.QsfpPlus? || socket.Qsfp28?
  }

  // ---- classification ----

  datatype ModuleType =
    | SfpSr
    | QsfpLr4 | QsfpSr4 | QsfpCr4
    | Qsfp28Sr4 | Qsfp28Lr4 | Qsfp28Cwdm4 | Qsfp28Psm4 | Qsfp28Cr4 | Qsfp28Clr4
    | Unknown

  /** The text of the published connector. */
  function ConnectorText(m: ModuleType): (s: string)
    ensures |s| > 0 && (s[0] == 'u' <==> m.Unknown?)
  {
    match m
    case SfpSr => "SFP_SR"
    case QsfpLr4 => "QSFP_LR4"
    case QsfpSr4 => "QSFP_SR4"
    case QsfpCr4 => "QSFP_CR4"
    case Qsfp28Sr4 => "QSFP28_SR4"
    case Qsfp28Lr4 => "QSFP28_LR4"
    case Qsfp28Cwdm4 => "QSFP28_CWDM4"
    case Qsfp28Psm4 => "QSFP28_PSM4"
    case Qsfp28Cr4 => "QSFP28_CR4"
    case Qsfp28Clr4 => "QSFP28_CLR4"
    case Unknown => "unknown"
  }

  /** The text of the published status. */
  function StatusText(supported: bool): (s: string)
    ensures |s| > 0 && (s[0] == 's' <==> supported)
  {
    if supported then "supported" else "unrecognized"
  }

  /** What `pm_parse` concludes about a module; the speed is in megabits per second, and optical
      modules have a laser. */
  datatype ModuleKind = ModuleKind(moduleType: ModuleType, supported: bool, speed: nat, optical: bool)

  const UNRECOGNIZED := ModuleKind(Unknown, false, 0, false)

  /** The 40G compliance bits of byte 131 of SFF-8436. */
  function Kind40G(page: Page): ModuleKind
  {
    if Bit(page[3], 1) then ModuleKind(QsfpLr4, true, 40000, true)
    else if Bit(page[3], 2) then ModuleKind(QsfpSr4, true, 40000, true)
    else if Bit(page[3], 3) then ModuleKind(QsfpCr4, true, 40000, false)
    else UNRECOGNIZED
  }

  /** The extended compliance code, byte 192 of SFF-8636. */
  function Kind100G(code: byte): ModuleKind
  {
    if code == 0x02 then ModuleKind(Qsfp28Sr4, true, 100000, true)
    else if code == 0x03 then ModuleKind(Qsfp28Lr4, true, 100000, true)
    else if code == 0x06 then ModuleKind(Qsfp28Cwdm4, true, 100000, true)
    else if code == 0x07 then ModuleKind(Qsfp28Psm4, true, 100000, true)
    else if code == 0x0B then ModuleKind(Qsfp28Cr4, true, 100000, false)
    else if code == 0x17 then ModuleKind(Qsfp28Clr4, true, 100000, true)
    else UNRECOGNIZED
  }

  /** Every SFP+ module takes the 10G SR branch: the other guards are switched off in the source. */
  function Classify(socket: SocketType, page: Page): (k: ModuleKind)
    requires Known(socket)
    ensures k.supported <==> !k.moduleType.Unknown?
    ensures k.supported <==> k.speed != 0
    ensures k.optical ==> k.supported
    ensures k.speed <= 100000
  {
    if socket.SfpPlus? then ModuleKind(SfpSr, true, 10000, true)
    else if socket.Qsfp28? && Bit(page[3], 7) then Kind100G(page[64])
    else Kind40G(page)
  }

  /** The classification read backwards: which pages give each module type. In particular only the
      first 40G bit counts, and with the extended bit a QSFP28 page is judged by its code alone. */
  lemma ClassifyBackwards(socket: SocketType, page: Page)
    requires Known(socket)
    ensures var m, ext := Classify(socket, page).moduleType, socket.Qsfp28? && Bit(page[3], 7);
            && (m.SfpSr? <==> socket.SfpPlus?)
            && (m.QsfpLr4? <==> IsQsfp(socket) && !ext && Bit(page[3], 1))
            && (m.QsfpSr4? <==> IsQsfp(socket) && !ext && !Bit(page[3], 1) && Bit(page[3], 2))
            && (m.QsfpCr4? <==> IsQsfp(socket) && !ext && !Bit(page[3], 1) && !Bit(page[3], 2) && Bit(page[3], 3))
            && (m.Qsfp28Sr4? <==> ext && page[64] == 0x02)
            && (m.Qsfp28Lr4? <==> ext && page[64] == 0x03)
            && (m.Qsfp28Cwdm4? <==> ext && page[64] == 0x06)
            && (m.Qsfp28Psm4? <==> ext && page[64] == 0x07)
            && (m.Qsfp28Cr4? <==> ext && page[64] == 0x0B)
            && (m.Qsfp28Clr4? <==> ext && page[64] == 0x17)
            && (Classify(socket, page).optical <==> !m.Unknown? && !m.QsfpCr4? && !m.Qsfp28Cr4?)
            && Classify(socket, page).speed ==
                 (if m.Unknown? then 0 else if m.SfpSr? then 10000 else if ext then 100000 else 40000)
  {
  }

  // ---- the bit `pm_parse` forces ----

  /** The page after `enet_10gbase_sr = 1`: bit 4 of byte 3 in either structure. */
  function ForceSr(page: Page): (r: Page)
  {
    page[3 := SetBit(page[3], 4)]
  }

  /** The forced bit is none of those a QSFP classification reads. */
  lemma ForceSrKeepsKind(socket: SocketType, page: Page)
    requires Known(socket)
    ensures Classify(socket, ForceSr(page)) == Classify(socket, page)
  {
  }

  /** A good page stays good exactly when the bit was set before; otherwise the copy kept in the
      a0 column fails one check, CC_BASE. */
  lemma ForceSrChecksum(page: Page)
    requires Checksum.SumVerify(page) == 0
    ensures Checksum.SumVerify(ForceSr(page)) == if Bit(page[3], 4) then 0 else 1
  {
    assert Pow2(4) == 16;
    var b := SetBit(page[3], 4);
    if Bit(page[3], 4) {
      assert ForceSr(page) == page;
    } else {
      assert b != page[3];
      Checksum.OneByteNoticed(page, 3, b);
    }
  }

  // ---- diagnostics capability ----

  /** `set_a2_read_request`: whether the page announces diagnostics the daemon can read. */
  predicate WantsA2(socket: SocketType, page: Page)
  {
    var d := page[92];
    if socket.SfpPlus? then Bit(d, 6) && Bit(d, 5) && Bit(d, 3) && !Bit(d, 2)
    else IsQsfp(socket) && Bit(d, 3)
  }

  lemma BitPair(x: nat)
    ensures x % 4 == 2 * (x / 2 % 2) + x % 2
  {
  }

  /** The same in numbers: for SFP+ bits 6 and 5 are set, bit 3 is set and bit 2 is not; for QSFP bit 3
      is set. No other byte and no other bit matters. */
  lemma WantsA2Exact(socket: SocketType, page: Page)
    ensures WantsA2(socket, page) <==>
            match socket
            case SfpPlus => page[92] / 32 % 4 == 3 && page[92] / 4 % 4 == 2
            case QsfpPlus => page[92] / 8 % 2 == 1
            case Qsfp28 => page[92] / 8 % 2 == 1
            case Other(_) => false
  {
    hide Bit;
    var d := page[92];
    BitOfByte(d);
    BitPair(d / 4);
    BitPair(d / 32);
  }

  // ---- vendor fields ----

  const SPACE: byte := 0x20

  function Spaces(n: nat): (s: seq<byte>)
    ensures |s| == n && forall i :: 0 <= i < n ==> s[i] == 0x20
  {
    seq(n, i => SPACE)
  }

  function Chars(bytes: seq<byte>): (s: string)
    ensures |s| == |bytes|
  {
    seq(|bytes|, i requires 0 <= i < |bytes| => bytes[i] as char)
  }

  lemma CharsInjective(a: seq<byte>, b: seq<byte>)
    requires Chars(a) == Chars(b)
    ensures a == b
  {
    assert |a| == |b|;
    forall i | 0 <= i < |a| ensures a[i] == b[i] {
      assert Chars(a)[i] == Chars(b)[i];
    }
  }

  /** A C string: the bytes before the first NUL. */
  function CStr(bytes: seq<byte>): seq<byte>
  {
    if bytes == [] || bytes[0] == 0 then [] else [bytes[0]] + CStr(bytes[1..])
  }

  /** The field without its trailing spaces; the first byte is never removed. */
  function StripTail(field: seq<byte>): (r: seq<byte>)
    requires field != []
    ensures r != []
  {
    if |field| > 1 && field[|field| - 1] == SPACE then StripTail(field[..|field| - 1]) else field
  }

  /** The text `pm_parse` passes to SET_STRING for a space-padded field. */
  function FieldText(field: seq<byte>): string
    requires field != []
  {
    Chars(CStr(StripTail(field)))
  }

  lemma {:induction false} CStrStops(a: seq<byte>, z: seq<byte>)
    requires z != [] && z[0] == 0
    ensures CStr(a + z) == CStr(a)
  {
    if a == [] {
      assert a + z == z;
    } else {
      assert (a + z)[1..] == a[1..] + z;
      CStrStops(a[1..], z);
    }
  }

  lemma {:induction false} CStrWhole(a: seq<byte>)
    requires 0 !in a
    ensures CStr(a) == a
  {
    if a != [] {
      CStrWhole(a[1..]);
      assert a == [a[0]] + a[1..];
    }
  }

  /** The copy-and-strip code: memcpy into a buffer one byte longer, terminate, and overwrite
      trailing spaces with NUL in place. */
  method StripField(field: seq<byte>) returns (text: string)
    requires field != []
    ensures text == FieldText(field)
  {
    var n := |field|;
    var buf := new byte[n + 1](i => if 0 <= i < n then field[i] else 0);
    var idx := n - 1;
    assert field[..n] == field;
    while idx > 0 && buf[idx] == SPACE
      invariant 0 <= idx < n
      invariant forall i :: 0 <= i <= idx ==> buf[i] == field[i]
      invariant forall i :: idx < i <= n ==> buf[i] == 0
      invariant StripTail(field) == StripTail(field[..idx + 1])
    {
      assert field[..idx + 1][..idx] == field[..idx];
      buf[idx] := 0;
      idx := idx - 1;
    }
    assert buf[..] == field[..idx + 1] + buf[idx + 1..];
    CStrStops(field[..idx + 1], buf[idx + 1..]);
    text := Chars(CStr(buf[..]));
  }

  /** Stripping removes spaces only, and all that can be removed. */
  lemma {:induction false} StripTailExact(field: seq<byte>, g: seq<byte>)
    requires field != [] && g != []
    ensures StripTail(field) == g <==>
            |g| <= |field| && field == g + Spaces(|field| - |g|) && (|g| == 1 || g[|g| - 1] != SPACE)
  {
    var n := |field| - 1;
    if |field| > 1 && field[n] == SPACE {
      StripTailExact(field[..n], g);
      if |g| <= n {
        assert field == field[..n] + [SPACE];
        assert g + Spaces(|field| - |g|) == g + Spaces(n - |g|) + [SPACE];
      }
    } else {
      assert field + Spaces(0) == field;
    }
  }

  /** For a NUL-free field the published text is the one string that, padded with spaces, is the
      field and does not itself end in a space (an all-space field gives a single space). */
  lemma {:induction false} FieldTextExact(field: seq<byte>, g: seq<byte>)
    requires field != [] && g != [] && 0 !in field
    ensures FieldText(field) == Chars(g) <==>
            |g| <= |field| && field == g + Spaces(|field| - |g|) && (|g| == 1 || g[|g| - 1] != SPACE)
  {
    StripTailExact(field, StripTail(field));
    var r := StripTail(field);
    assert forall b :: b in r ==> b in field;
    CStrWhole(r);
    StripTailExact(field, g);
    if Chars(r) == Chars(g) { CharsInjective(r, g); }
  }

  /** Stripping a field that is stripped already changes nothing. */
  lemma {:induction false} StripIdempotent(field: seq<byte>)
    requires field != []
    ensures StripTail(StripTail(field)) == StripTail(field)
  {
    StripTailExact(field, StripTail(field));
    var r := StripTail(field);
    StripTailExact(r, r);
    assert r == r + Spaces(0);
  }

  /** `%02x` with lower-case digits. */
  function LowerHex(d: nat): (c: char)
    requires d < 16
    ensures Hex.Convert(c) == Hex.Some(d)
    ensures '0' <= c <= '9' || 'a' <= c <= 'f'
  {
    if d < 10 then '0' + d as char else 'a' + (d - 10) as char
  }

  /** `pm_oui_format`: eight characters, which with the NUL is exactly the nine-byte buffer; the pairs
      between the dashes read back as the three bytes. */
  function OuiText(oui: seq<byte>): (s: string)
    requires |oui| == 3
    ensures |s| + 1 == 9 && s[2] == s[5] == '-'
    ensures Hex.ConvertPair(s[0], s[1]) == Hex.Some(oui[0])
    ensures Hex.ConvertPair(s[3], s[4]) == Hex.Some(oui[1])
    ensures Hex.ConvertPair(s[6], s[7]) == Hex.Some(oui[2])
    ensures forall k :: 0 <= k < 8 && k % 3 != 2 ==> '0' <= s[k] <= '9' || 'a' <= s[k] <= 'f'
  {
    [LowerHex(oui[0] / 16), LowerHex(oui[0] % 16), '-',
     LowerHex(oui[1] / 16), LowerHex(oui[1] % 16), '-',
     LowerHex(oui[2] / 16), LowerHex(oui[2] % 16)]
  }
}
