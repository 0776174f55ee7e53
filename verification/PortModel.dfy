/** A port of the daemon as a value, and what each operation of src/plug.c, src/pm_detect.c and
    the column macros makes of it. */
module PortModel {
  import opened Bits
  import opened Decimal
  import opened Columns
  import opened SerialId
  import opened Hex

  type Uuid = nat

  const MAX_SPLIT_COUNT: nat := 4

  /** What the hardware description says about a port. */
  datatype YamlPort = YamlPort(pluggable: bool, socket: SocketType)

  /** `pm_port_t`, with the columns as texts. */
  datatype PortState = PortState(
    instance: string,
    uuid: Uuid,
    subsystem: string,
    device: YamlPort,
    cols: map<Column, string>,
    changed: bool,
    hwEnable: bool,
    split: bool,
    subports: seq<bool>,
    present: bool,
    retry: bool,
    a2Requested: bool,
    optical: bool,
    portEnable: nat)

  // ---- column writes ----

  /** A plain assignment that records whether it changed anything. */
  function Assign(p: PortState, c: Column, text: string): PortState
  {
    p.(cols := p.cols[c := text], changed := p.changed || p.cols != p.cols[c := text])
  }

  /** An assignment that always marks the port. */
  function Overwrite(p: PortState, c: Column, text: string): PortState
  {
    p.(cols := p.cols[c := text], changed := true)
  }

  function Clear(p: PortState, gone: set<Column>): PortState
  {
    p.(cols := p.cols - gone, changed := p.changed || p.cols.Keys * gone != {})
  }

  lemma ClearTwice(p: PortState, a: set<Column>, b: set<Column>)
    ensures Clear(Clear(p, a), b) == Clear(p, a + b)
  {
  }

  /** A text that SET_INT_STRING wrote. */
  ghost predicate IsDec(text: string)
  {
    exists v: int :: FitsInt(v) && text == Dec(v)
  }

  /** The integer columns hold `%d` texts; all their writers keep it so. */
  ghost predicate Canonical(cols: map<Column, string>)
  {
    forall c :: c in cols && IsInt(c) ==> IsDec(cols[c])
  }

  /** On such a column the `strtol` comparison of SET_INT_STRING is a text comparison. */
  lemma IntSkipIsTextSkip(text: string, v: CInt)
    requires IsDec(text)
    ensures Strtol(text) == v <==> text == Dec(v)
  {
    var w: int :| FitsInt(w) && text == Dec(w);
    DecRoundTrip(w);
    DecRoundTrip(v);
  }

  // ---- pm_parse ----

  /** The classification columns. */
  function KindCols(kind: ModuleKind): map<Column, string>
  {
    map[Connector := ConnectorText(kind.moduleType),
        ConnectorStatus := StatusText(kind.supported),
        MaxSpeed := Dec(kind.speed),
        SupportedSpeeds := SpeedsText([kind.speed])]
  }

  /** The vendor columns: page contents for QSFP, fixed texts for SFP+ (which leaves the OUI alone). */
  function VendorCols(socket: SocketType, page: Page): map<Column, string>
  {
    if socket.SfpPlus? then
      map[VendorName := "vendor_name",
          VendorPartNumber := "vendor_part_numb",
          VendorRevision := "rev",
          VendorSerialNumber := "serial_number"]
    else
      map[VendorName := FieldText(page[20..36]),
          VendorOui := OuiText(page[37..40]),
          VendorPartNumber := FieldText(page[40..56]),
          VendorRevision := FieldText(page[56..58]),
          VendorSerialNumber := FieldText(page[68..84])]
  }

  /** Everything a successful parse writes, as a function of the connector and the page alone. */
  function PageCols(socket: SocketType, page: Page): map<Column, string>
    requires Known(socket)
  {
    KindCols(Classify(socket, page)) + VendorCols(socket, page) + map[A0 := HexText(ForceSr(page))]
  }

  const CLEARED: set<Column> := {CableTechnology, CableLength, PowerMode}

  /** The port after parsing a page for a known connector. */
  function Parsed(p: PortState, page: Page): PortState
    requires Known(p.device.socket)
  {
    var c := p.device.socket;
    p.(cols := p.cols - CLEARED + PageCols(c, page), changed := true, optical := Classify(c, page).optical)
  }

  /** Columns `pm_delete_all_data` deletes: all but the connector. */
  const DELETED: set<Column> :=
    {ConnectorStatus, SupportedSpeeds, CableTechnology, CableLength, MaxSpeed, PowerMode, VendorName,
     VendorOui, VendorPartNumber, VendorRevision, VendorSerialNumber, A0, A2, A0Uppers}

  /** `pm_parse` with its return code. */
  function Parse(p: PortState, page: Page): (PortState, int)
  {
    if !p.device.pluggable then (p, 0)
    else if !Known(p.device.socket) then (Overwrite(Clear(p, DELETED), Connector, ConnectorText(Unknown)), -1)
    else (Parsed(p, page), 0)
  }

  // ---- pm_read_module_state ----

  /** A module is read once: absence, read failure and the checksum are not acted on. */
  function ReadModule(p: PortState, page: Page): PortState
  {
    var c := p.device.socket;
    if !Known(c) || (p.present && !p.retry) then p
    else Parse(p, page).0.(present := true, retry := false, a2Requested := p.a2Requested || WantsA2(c, page))
  }

  /** A port marked for retry is read again although it is present; a request for diagnostics made
      before is not taken back. */
  lemma RetryReadsAgain(p: PortState, page: Page)
    requires p.device.pluggable && !p.device.socket.Other? && p.present && p.retry
    ensures var q := ReadModule(p, page);
            && q == p.(cols := p.cols - CLEARED + PageCols(p.device.socket, page), changed := true, retry := false,
                       optical := q.optical, a2Requested := q.a2Requested)
            && (p.a2Requested ==> q.a2Requested)
  {
  }

  // ---- pm_configure_port (simulation build) ----

  /** One disable bit per lane, lane 0 lowest. */
  function SplitMask(subports: seq<bool>): nat
  {
    if subports == [] then 0
    else (if subports[0] then 0 else 1) + 2 * SplitMask(subports[1..])
  }

  function EnableValue(socket: SocketType, hwEnable: bool, split: bool, subports: seq<bool>): nat
  {
    if IsQsfp(socket) then
      if split then SplitMask(subports) else if hwEnable then 0x00 else 0x0f
    else if hwEnable then 1 else 0
  }

  function Configured(p: PortState): PortState
  {
    p.(portEnable := EnableValue(p.device.socket, p.hwEnable, p.split, p.subports))
  }

  /** The register agrees with the configuration the port remembers. */
  predicate RegisterAgrees(p: PortState)
  {
    p.portEnable == EnableValue(p.device.socket, p.hwEnable, p.split, p.subports)
  }

  // ---- creation, reconfiguration, publication ----

  /** A port as `ovsdb_if_intf_create` leaves it: zeroed, then configured. */
  function NewPort(instance: string, uuid: Uuid, subsystem: string, device: YamlPort, hwEnable: bool): PortState
  {
    Configured(PortState(instance, uuid, subsystem, device, map[], false, hwEnable, false,
                         [false, false, false, false], false, false, false, false, 0))
  }

  /** `ovsdb_if_intf_modify` */
  function Modified(p: PortState, hwEnable: bool): PortState
  {
    if p.hwEnable != hwEnable then Configured(p.(hwEnable := hwEnable)) else p
  }

  /** The keys of the published map. */
  datatype PmKey = KeyConnector | KeyConnectorStatus | KeySupportedSpeeds | KeyMaxSpeed

  function ColumnOf(key: PmKey): Column
  {
    match key
    case KeyConnector => Connector
    case KeyConnectorStatus => ConnectorStatus
    case KeySupportedSpeeds => SupportedSpeeds
    case KeyMaxSpeed => MaxSpeed
  }

  type PmMap = map<PmKey, string>

  /** The map published in the interface row: the non-NULL columns among four. */
  function PmInfo(cols: map<Column, string>): PmMap
  {
    map key: PmKey | ColumnOf(key) in cols :: cols[ColumnOf(key)]
  }

  /** Each key has its own column, and shows nothing else. */
  lemma PmInfoShows(cols: map<Column, string>)
    ensures var info := PmInfo(cols);
            && (KeyConnector in info <==> Connector in cols)
            && (Connector in cols ==> info[KeyConnector] == cols[Connector])
            && (KeyConnectorStatus in info <==> ConnectorStatus in cols)
            && (ConnectorStatus in cols ==> info[KeyConnectorStatus] == cols[ConnectorStatus])
            && (KeySupportedSpeeds in info <==> SupportedSpeeds in cols)
            && (SupportedSpeeds in cols ==> info[KeySupportedSpeeds] == cols[SupportedSpeeds])
            && (KeyMaxSpeed in info <==> MaxSpeed in cols)
            && (MaxSpeed in cols ==> info[KeyMaxSpeed] == cols[MaxSpeed])
  {
  }

  // ---- properties of the parse ----

  lemma KindColsShow(k: ModuleKind, vendor: map<Column, string>, a0: string, base: map<Column, string>)
    requires vendor.Keys !! KindCols(k).Keys
    ensures var cols := base + (KindCols(k) + vendor + map[A0 := a0]);
            && {Connector, ConnectorStatus, MaxSpeed, SupportedSpeeds} <= cols.Keys
            && cols[Connector] == ConnectorText(k.moduleType)
            && cols[ConnectorStatus] == StatusText(k.supported)
            && cols[MaxSpeed] == Dec(k.speed)
            && cols[SupportedSpeeds] == SpeedsText([k.speed])
  {
  }

  lemma VendorApart(socket: SocketType, page: Page, k: ModuleKind)
    ensures VendorCols(socket, page).Keys !! KindCols(k).Keys
  {
  }

  /** The classification columns of a parsed port, spelled out. */
  lemma ParsedKindCols(p: PortState, page: Page)
    requires Known(p.device.socket)
    ensures var cols, k := Parsed(p, page).cols, Classify(p.device.socket, page);
            && {Connector, ConnectorStatus, MaxSpeed, SupportedSpeeds} <= cols.Keys
            && cols[Connector] == ConnectorText(k.moduleType)
            && cols[ConnectorStatus] == StatusText(k.supported)
            && cols[MaxSpeed] == Dec(k.speed)
            && cols[SupportedSpeeds] == SpeedsText([k.speed])
  {
    var s := p.device.socket;
    var k := Classify(s, page);
    VendorApart(s, page, k);
    KindColsShow(k, VendorCols(s, page), HexText(ForceSr(page)), p.cols - CLEARED);
  }

  /** The texts of a classification agree with each other. */
  lemma KindTextsConsistent(k: ModuleKind)
    requires (k.supported <==> !k.moduleType.Unknown?) && (k.supported <==> k.speed != 0) && k.speed <= 100000
    ensures StatusText(k.supported) == "supported" <==> ConnectorText(k.moduleType) != "unknown"
    ensures StatusText(k.supported) == "supported" <==> Dec(k.speed) != "0"
    ensures StatusText(k.supported) == "supported" <==> k.supported
    ensures SpeedsText([k.speed]) == Dec(k.speed)
  {
  }

  /** The published facts about a parsed module agree with each other, for every page. */
  lemma ParsedConsistent(p: PortState, page: Page)
    requires Known(p.device.socket)
    ensures var q := Parsed(p, page);
            && {Connector, ConnectorStatus, MaxSpeed, SupportedSpeeds} <= q.cols.Keys
            && (q.cols[ConnectorStatus] == "supported" <==> q.cols[Connector] != "unknown")
            && (q.cols[ConnectorStatus] == "supported" <==> q.cols[MaxSpeed] != "0")
            && (q.optical ==> q.cols[ConnectorStatus] == "supported")
            && q.cols[SupportedSpeeds] == q.cols[MaxSpeed]
  {
    ParsedKindCols(p, page);
    KindTextsConsistent(Classify(p.device.socket, page));
  }

  /** Which columns a QSFP parse writes. */
  lemma QsfpColumns(socket: SocketType, page: Page)
    requires IsQsfp(socket)
    ensures PageCols(socket, page).Keys ==
            {Connector, ConnectorStatus, MaxSpeed, SupportedSpeeds,
             VendorName, VendorOui, VendorPartNumber, VendorRevision, VendorSerialNumber, A0}
  {
  }

  lemma ForgetsEither(a: map<Column, string>, b: map<Column, string>, pc: map<Column, string>, c: Column)
    requires c in CLEARED || c in pc
    ensures c in a - CLEARED + pc <==> c in b - CLEARED + pc
    ensures c in a - CLEARED + pc ==> (a - CLEARED + pc)[c] == (b - CLEARED + pc)[c]
  {
  }

  lemma HandledColumn(c: Column)
    requires !c.A2? && !c.A0Uppers?
    ensures c in CLEARED ||
            c in {Connector, ConnectorStatus, MaxSpeed, SupportedSpeeds,
                  VendorName, VendorOui, VendorPartNumber, VendorRevision, VendorSerialNumber, A0}
  {
  }

  /** For a QSFP port no trace of earlier contents survives in the columns a parse handles. */
  lemma ParseForgets(p: PortState, q: PortState, page: Page, c: Column)
    requires p.device.socket == q.device.socket && IsQsfp(p.device.socket)
    requires !c.A2? && !c.A0Uppers?
    ensures var a, b := Parsed(p, page).cols, Parsed(q, page).cols;
            (c in a <==> c in b) && (c in a ==> a[c] == b[c])
  {
    HandledColumn(c);
    QsfpColumns(p.device.socket, page);
    ForgetsEither(p.cols, q.cols, PageCols(p.device.socket, page), c);
  }

  /** Padded with spaces to the width of its field. */
  function Padded(name: seq<byte>, width: nat): seq<byte>
    requires |name| <= width
  {
    name + Spaces(width - |name|)
  }

  /** A text a vendor field can carry: no NUL, no space at the end. */
  predicate FieldName(name: seq<byte>, width: nat)
  {
    0 < |name| <= width && 0 !in name && name[|name| - 1] != SPACE
  }

  lemma PaddedReads(name: seq<byte>, width: nat)
    requires FieldName(name, width)
    ensures FieldText(Padded(name, width)) == Chars(name)
  {
    FieldTextExact(Padded(name, width), name);
  }

  lemma MergeShows(base: map<Column, string>, kind: map<Column, string>, v: map<Column, string>, a0: string, c: Column)
    requires c in v && c != A0
    ensures var cols := base + (kind + v + map[A0 := a0]); c in cols && cols[c] == v[c]
  {
  }

  lemma ParsedVendorCol(p: PortState, page: Page, c: Column)
    requires Known(p.device.socket) && c in VendorCols(p.device.socket, page)
    ensures c in Parsed(p, page).cols && Parsed(p, page).cols[c] == VendorCols(p.device.socket, page)[c]
  {
    hide Classify, KindCols, HexText, ForceSr, FieldText, OuiText;
    var s := p.device.socket;
    assert A0 !in VendorCols(s, page);
    MergeShows(p.cols - CLEARED, KindCols(Classify(s, page)), VendorCols(s, page), HexText(ForceSr(page)), c);
  }

  /** Three pairs of digits between dashes that read as these bytes. */
  predicate ShowsOui(text: string, a: byte, b: byte, c: byte)
  {
    && |text| == 8 && text[2] == '-' && text[5] == '-'
    && ConvertPair(text[0], text[1]) == Some(a) && ConvertPair(text[3], text[4]) == Some(b)
    && ConvertPair(text[6], text[7]) == Some(c)
  }

  /** Whatever names a QSFP vendor wrote into the page come out in the columns. */
  lemma VendorRoundTrip(p: PortState, page: Page, name: seq<byte>, part: seq<byte>, revision: seq<byte>,
                        serial: seq<byte>)
    requires IsQsfp(p.device.socket)
    requires FieldName(name, 16) && page[20..36] == Padded(name, 16)
    requires FieldName(part, 16) && page[40..56] == Padded(part, 16)
    requires FieldName(revision, 2) && page[56..58] == Padded(revision, 2)
    requires FieldName(serial, 16) && page[68..84] == Padded(serial, 16)
    ensures var cols := Parsed(p, page).cols;
            && {VendorName, VendorPartNumber, VendorRevision, VendorSerialNumber} <= cols.Keys
            && cols[VendorName] == Chars(name) && cols[VendorPartNumber] == Chars(part)
            && cols[VendorRevision] == Chars(revision) && cols[VendorSerialNumber] == Chars(serial)
    ensures VendorOui in Parsed(p, page).cols
    ensures ShowsOui(Parsed(p, page).cols[VendorOui], page[37], page[38], page[39])
  {
    hide Padded, FieldText, OuiText, FieldName, Parsed;
    assert OuiText(page[37..40]) == OuiText([page[37], page[38], page[39]]) by {
      assert page[37..40] == [page[37], page[38], page[39]];
    }
    ParsedVendorCol(p, page, VendorOui);
    PaddedReads(name, 16);
    PaddedReads(part, 16);
    PaddedReads(revision, 2);
    PaddedReads(serial, 16);
    ParsedVendorCol(p, page, VendorName);
    ParsedVendorCol(p, page, VendorPartNumber);
    ParsedVendorCol(p, page, VendorRevision);
    ParsedVendorCol(p, page, VendorSerialNumber);
  }

  /** The published map, key by key, is the classification of the page. */
  lemma PublishedIsClassification(p: PortState, page: Page)
    requires Known(p.device.socket)
    ensures var info, k := PmInfo(Parsed(p, page).cols), Classify(p.device.socket, page);
            && KeyConnector in info && info[KeyConnector] == ConnectorText(k.moduleType)
            && KeyConnectorStatus in info && info[KeyConnectorStatus] == StatusText(k.supported)
            && KeySupportedSpeeds in info && info[KeySupportedSpeeds] == Dec(k.speed)
            && KeyMaxSpeed in info && info[KeyMaxSpeed] == Dec(k.speed)
  {
    hide ConnectorText, StatusText, Dec, Parsed;
    ParsedKindCols(p, page);
    KindTextsConsistent(Classify(p.device.socket, page));
  }

  /** What a parsed port publishes, text by text, and whether its module has a laser. */
  ghost predicate Reports(q: PortState, connector: string, status: string, speed: string, laser: bool)
  {
    && q.optical == laser
    && PmInfo(q.cols) == map[KeyConnector := connector, KeyConnectorStatus := status,
                             KeySupportedSpeeds := speed, KeyMaxSpeed := speed]
  }

  lemma ReportsKind(p: PortState, page: Page, k: ModuleKind)
    requires Known(p.device.socket) && Classify(p.device.socket, page) == k
    ensures Reports(Parsed(p, page), ConnectorText(k.moduleType), StatusText(k.supported), Dec(k.speed), k.optical)
  {
    hide ConnectorText, StatusText, Dec, Classify, PageCols, PmInfo;
    PublishedIsClassification(p, page);
    var info := PmInfo(Parsed(p, page).cols);
    var texts := map[KeyConnector := ConnectorText(k.moduleType), KeyConnectorStatus := StatusText(k.supported),
                     KeySupportedSpeeds := Dec(k.speed), KeyMaxSpeed := Dec(k.speed)];
    forall key: PmKey ensures key in info && key in texts && info[key] == texts[key] {
      match key { case KeyConnector => case KeyConnectorStatus => case KeySupportedSpeeds => case KeyMaxSpeed => }
    }
    assert info == texts;
  }

  /** Whatever its page says, an SFP+ module is published as a 10G SR module. */
  lemma SfpPublishes(p: PortState, page: Page)
    requires p.device.socket.SfpPlus?
    ensures Reports(Parsed(p, page), "SFP_SR", "supported", "10000", true)
  {
    hide Parsed, Reports;
    ReportsKind(p, page, ModuleKind(SfpSr, true, 10000, true));
    SpeedTexts();
  }

  /** A QSFP+ module, or a QSFP28 module without the extended bit: the lowest of bits 1 to 3 of byte 3
      that is set decides. */
  lemma QsfpPublishes(p: PortState, page: Page)
    requires p.device.socket.QsfpPlus? || (p.device.socket.Qsfp28? && page[3] / 128 % 2 == 0)
    ensures var q, lr, sr, cr := Parsed(p, page), page[3] / 2 % 2, page[3] / 4 % 2, page[3] / 8 % 2;
            && (lr == 1 ==> Reports(q, "QSFP_LR4", "supported", "40000", true))
            && (lr == 0 && sr == 1 ==> Reports(q, "QSFP_SR4", "supported", "40000", true))
            && (lr == 0 && sr == 0 && cr == 1 ==> Reports(q, "QSFP_CR4", "supported", "40000", false))
            && (lr == 0 && sr == 0 && cr == 0 ==> Reports(q, "unknown", "unrecognized", "0", false))
  {
    hide Parsed, Reports, Bit, Dec;
    BitOfByte(page[3]);
    ReportsKind(p, page, Kind40G(page));
    SpeedTexts();
  }

  /** A QSFP28 module with the extended bit is judged by byte 64 alone. */
  lemma Qsfp28Publishes(p: PortState, page: Page)
    requires p.device.socket.Qsfp28? && page[3] / 128 % 2 == 1
    ensures var q, code := Parsed(p, page), page[64];
            && (code == 0x02 ==> Reports(q, "QSFP28_SR4", "supported", "100000", true))
            && (code == 0x03 ==> Reports(q, "QSFP28_LR4", "supported", "100000", true))
            && (code == 0x06 ==> Reports(q, "QSFP28_CWDM4", "supported", "100000", true))
            && (code == 0x07 ==> Reports(q, "QSFP28_PSM4", "supported", "100000", true))
            && (code == 0x0B ==> Reports(q, "QSFP28_CR4", "supported", "100000", false))
            && (code == 0x17 ==> Reports(q, "QSFP28_CLR4", "supported", "100000", true))
            && (code !in {0x02, 0x03, 0x06, 0x07, 0x0B, 0x17} ==> Reports(q, "unknown", "unrecognized", "0", false))
  {
    hide Parsed, Reports, Bit, Dec;
    BitOfByte(page[3]);
    ReportsKind(p, page, Kind100G(page[64]));
    SpeedTexts();
  }

  /** What a parse publishes does not depend on the port's earlier columns. */
  lemma PublishedColumns(p: PortState, page: Page)
    requires Known(p.device.socket)
    ensures PmInfo(Parsed(p, page).cols) == PmInfo(PageCols(p.device.socket, page))
  {
    hide ConnectorText, StatusText, Dec, SpeedsText, VendorCols, HexText;
    var s := p.device.socket;
    var k := Classify(s, page);
    VendorApart(s, page, k);
    KindColsShow(k, VendorCols(s, page), HexText(ForceSr(page)), map[]);
    assert map[] + PageCols(s, page) == PageCols(s, page);
    var a, b := Parsed(p, page).cols, PageCols(s, page);
    ParsedKindCols(p, page);
    forall key: PmKey ensures ColumnOf(key) in a && ColumnOf(key) in b && a[ColumnOf(key)] == b[ColumnOf(key)] {
      match key { case KeyConnector => case KeyConnectorStatus => case KeySupportedSpeeds => case KeyMaxSpeed => }
    }
  }

  /** Which columns an SFP+ parse writes. */
  lemma SfpColumns(page: Page)
    ensures PageCols(SfpPlus, page).Keys ==
            {Connector, ConnectorStatus, MaxSpeed, SupportedSpeeds,
             VendorName, VendorPartNumber, VendorRevision, VendorSerialNumber, A0}
  {
  }

  predicate NotWritten(socket: SocketType, c: Column)
  {
    match c
    case CableTechnology | CableLength | PowerMode | A2 | A0Uppers => true
    case VendorOui => socket.SfpPlus?
    case _ => false
  }

  lemma WritesNothingElse(socket: SocketType, page: Page, c: Column)
    requires Known(socket) && NotWritten(socket, c)
    ensures c !in PageCols(socket, page)
  {
    hide PageCols;
    if socket.SfpPlus? {
      SfpColumns(page);
    } else {
      QsfpColumns(socket, page);
    }
    assert c !in PageCols(socket, page).Keys;
  }

  lemma OtherColumns(cols: map<Column, string>, written: map<Column, string>, c: Column)
    requires c !in written
    ensures var r := cols - CLEARED + written;
            && (c in r <==> c in cols && c !in CLEARED)
            && (c in r ==> r[c] == cols[c])
  {
  }

  /** What a parse leaves alone and what it deletes: the diagnostics columns stay, the cable and power
      columns go, an SFP+ parse keeps the OUI, and of the port itself only the mark and the laser flag
      change. */
  lemma ParseTouches(p: PortState, page: Page, c: Column)
    requires Known(p.device.socket)
    ensures var q := Parsed(p, page);
            && q == p.(cols := q.cols, changed := true, optical := q.optical)
            && (c in {CableTechnology, CableLength, PowerMode} ==> c !in q.cols)
            && (c in {A2, A0Uppers} || (p.device.socket.SfpPlus? && c == VendorOui) ==>
                  && (c in q.cols <==> c in p.cols)
                  && (c in p.cols ==> q.cols[c] == p.cols[c]))
  {
    hide PageCols, Classify;
    if NotWritten(p.device.socket, c) {
      WritesNothingElse(p.device.socket, page, c);
      OtherColumns(p.cols, PageCols(p.device.socket, page), c);
    }
  }

  /** The vendor columns of an SFP+ port are fixed texts. */
  lemma SfpVendorTexts(p: PortState, page: Page)
    requires p.device.socket.SfpPlus?
    ensures var cols := Parsed(p, page).cols;
            && VendorName in cols && cols[VendorName] == "vendor_name"
            && VendorPartNumber in cols && cols[VendorPartNumber] == "vendor_part_numb"
            && VendorRevision in cols && cols[VendorRevision] == "rev"
            && VendorSerialNumber in cols && cols[VendorSerialNumber] == "serial_number"
  {
    hide Parsed;
    ParsedVendorCol(p, page, VendorName);
    ParsedVendorCol(p, page, VendorPartNumber);
    ParsedVendorCol(p, page, VendorRevision);
    ParsedVendorCol(p, page, VendorSerialNumber);
  }

  /** A pluggable port with a connector the daemon does not know loses all columns but the connector,
      which becomes "unknown", and the parse fails. */
  lemma ParseUnknownSocket(p: PortState, page: Page)
    requires p.device.pluggable && p.device.socket.Other?
    ensures Parse(p, page) == (p.(cols := map[Connector := "unknown"], changed := true), -1)
  {
    OnlyConnectorLeft(p.cols);
  }

  lemma OnlyConnectorLeft(cols: map<Column, string>)
    ensures (cols - DELETED)[Connector := "unknown"] == map[Connector := "unknown"]
  {
    forall c: Column | c !in DELETED ensures c == Connector {
    }
  }

  /** The published map is the classification: it depends on byte 3 and byte 64 of the page, for an
      SFP+ port on nothing at all, and never on a check code. */
  lemma PublishedDependsOn(p: PortState, q: PortState, page: Page, other: Page)
    requires p.device.socket == q.device.socket && Known(p.device.socket)
    requires p.device.socket.SfpPlus? || (page[3] == other[3] && page[64] == other[64])
    ensures PmInfo(Parsed(p, page).cols) == PmInfo(Parsed(q, other).cols)
  {
    hide ConnectorText, StatusText, Dec, SpeedsText, PageCols;
    ParsedKindCols(p, page);
    ParsedKindCols(q, other);
    assert Classify(p.device.socket, page) == Classify(q.device.socket, other);
    var a, b := Parsed(p, page).cols, Parsed(q, other).cols;
    forall key: PmKey ensures ColumnOf(key) in a && ColumnOf(key) in b && a[ColumnOf(key)] == b[ColumnOf(key)] {
      match key { case KeyConnector => case KeyConnectorStatus => case KeySupportedSpeeds => case KeyMaxSpeed => }
    }
  }

  /** Without the extended-compliance bit a QSFP28 port parses a page as a QSFP+ port does. */
  lemma Qsfp28FallsBack(p: PortState, q: PortState, page: Page)
    requires p.device.socket.Qsfp28? && q == p.(device := p.device.(socket := QsfpPlus))
    requires !Bit(page[3], 7)
    ensures Parsed(p, page).cols == Parsed(q, page).cols && Parsed(p, page).optical == Parsed(q, page).optical
  {
  }

  /** `b | 0x10` in numbers. */
  function WithBit4(b: byte): byte
  {
    if b / 16 % 2 == 1 then b else b + 16
  }

  /** The a0 column decodes to the page with bit 4 of byte 3 set, so it fails the checksum of a good
      page exactly when the module had not set that bit itself. */
  lemma KeptPage(p: PortState, page: Page)
    requires Known(p.device.socket)
    ensures A0 in Parsed(p, page).cols
    ensures var kept := page[3 := WithBit4(page[3])];
            && DecodePairs(RemoveSpaces(Parsed(p, page).cols[A0])) == Some(kept)
            && (Checksum.SumVerify(page) == 0 ==> Checksum.SumVerify(kept) == if page[3] / 16 % 2 == 1 then 0 else 1)
  {
    hide Bit, Checksum.SumVerify, KindCols, VendorCols, Classify;
    HexRoundTrip(ForceSr(page));
    BitOfByte(page[3]);
    assert Pow2(4) == 16;
    assert Parsed(p, page).cols[A0] == HexText(ForceSr(page));
    if Checksum.SumVerify(page) == 0 {
      ForceSrChecksum(page);
    }
  }

  // ---- properties of the mask ----

  /** Bit i of the split mask is set exactly when lane i is disabled. */
  lemma {:induction false} SplitMaskBits(subports: seq<bool>, i: nat)
    ensures Bit(SplitMask(subports), i) <==> i < |subports| && !subports[i]
    decreases i
  {
    if subports == [] {
      BitOfZero(i);
    } else if i > 0 {
      SplitMaskBits(subports[1..], i - 1);
      assert SplitMask(subports) / 2 == SplitMask(subports[1..]);
    }
  }

  /** Configuring a split QSFP port sets exactly the disable bits of its disabled lanes. */
  lemma SplitRegister(p: PortState, i: nat)
    requires p.device.socket in {QsfpPlus, Qsfp28} && p.split
    ensures Bit(Configured(p).portEnable, i) <==> i < |p.subports| && !p.subports[i]
  {
    SplitMaskBits(p.subports, i);
  }

  /** When all four lanes agree, splitting makes no difference to the register. */
  lemma SplitMaskUniform(enable: bool, socket: SocketType)
    requires IsQsfp(socket)
    ensures EnableValue(socket, enable, true, [enable, enable, enable, enable])
            == EnableValue(socket, enable, false, [enable, enable, enable, enable])
  {
    var e := enable;
    assert [e, e, e, e][1..] == [e, e, e] && [e, e, e][1..] == [e, e] && [e, e][1..] == [e] && [e][1..] == [];
    assert SplitMask([e]) == if e then 0 else 1;
    assert SplitMask([e, e]) == if e then 0 else 3;
    assert SplitMask([e, e, e]) == if e then 0 else 7;
  }
}
