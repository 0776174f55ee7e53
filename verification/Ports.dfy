/** `pm_port_t` as an object: the column macros of include/pmd.h.in, and the operations of
    src/pm_detect.c and src/plug.c that work through them. Every method is proved against the
    corresponding function of PortModel, and keeps the ownership discipline of the columns. */
module Ports {
  import opened Bits
  import opened Decimal
  import opened Columns
  import opened SerialId
  import opened Hex
  import opened PortModel

  // ---- small facts about column maps ----

  lemma AssignCases(p: PortState, c: Column, text: string)
    ensures c in p.cols && p.cols[c] == text ==> Assign(p, c, text) == p
    ensures !(c in p.cols && p.cols[c] == text) ==> Assign(p, c, text) == Overwrite(p, c, text)
  {
  }

  lemma ClearOne(p: PortState, c: Column)
    ensures c in p.cols ==> Clear(p, {c}) == p.(cols := p.cols - {c}, changed := true)
    ensures c !in p.cols ==> Clear(p, {c}) == p
  {
    if c in p.cols {
      assert c in p.cols.Keys * {c};
    } else {
      assert p.cols - {c} == p.cols;
      assert p.cols.Keys * {c} == {};
    }
  }

  lemma CanonicalPut(cols: map<Column, string>, c: Column, text: string)
    requires Canonical(cols) && (IsInt(c) ==> IsDec(text))
    ensures Canonical(cols[c := text])
  {
  }

  lemma CanonicalCut(cols: map<Column, string>, c: Column)
    requires Canonical(cols)
    ensures Canonical(cols - {c})
  {
  }

  lemma SpeedsNone()
    ensures SpeedsText([]) == ""
  {
  }

  lemma KindChain(m: map<Column, string>, a: string, b: string, s: string, t: string)
    ensures m[Connector := a][ConnectorStatus := b][MaxSpeed := s][SupportedSpeeds := t]
              - {CableTechnology} - {CableLength}
            == m - {CableTechnology, CableLength}
               + map[Connector := a, ConnectorStatus := b, MaxSpeed := s, SupportedSpeeds := t]
  {
  }

  lemma SfpChain(m: map<Column, string>, a: string, b: string, s: string, t: string)
    ensures m[VendorName := a][VendorPartNumber := b][VendorRevision := s][VendorSerialNumber := t]
            == m + map[VendorName := a, VendorPartNumber := b, VendorRevision := s, VendorSerialNumber := t]
  {
  }

  lemma QsfpChain(m: map<Column, string>, a: string, o: string, b: string, s: string, t: string)
    ensures m[VendorName := a][VendorOui := o][VendorPartNumber := b][VendorRevision := s][VendorSerialNumber := t]
            == m + map[VendorName := a, VendorOui := o, VendorPartNumber := b, VendorRevision := s,
                       VendorSerialNumber := t]
  {
  }

  lemma ParseChain(m: map<Column, string>, k: map<Column, string>, v: map<Column, string>, a0: string)
    requires PowerMode !in k
    ensures (m - {CableTechnology, CableLength} + k - {PowerMode} + v)[A0 := a0]
            == m - CLEARED + (k + v + map[A0 := a0])
  {
  }

  lemma KindLeavesPower(k: ModuleKind)
    ensures PowerMode !in KindCols(k)
  {
  }

  class Port {
    const heap: Heap
    const instance: string
    const uuid: Uuid
    const subsystem: string
    const device: YamlPort
    var cells: Cells
    var changed: bool
    var hwEnable: bool
    var split: bool
    var subports: seq<bool>
    var present: bool
    var retry: bool
    var a2Requested: bool
    var optical: bool
    var portEnable: nat

    /** The port owns exactly the blocks its columns point to. */
    ghost predicate Valid()
      reads this, heap
    {
      && heap.Valid()
      && Owns(cells, heap.live)
      && Canonical(Texts(cells, heap.live))
      && |subports| == MAX_SPLIT_COUNT
    }

    ghost function View(): PortState
      reads this, heap
    {
      PortState(instance, uuid, subsystem, device, Texts(cells, heap.live), changed, hwEnable, split,
                subports, present, retry, a2Requested, optical, portEnable)
    }

    /** The rest of the heap, which no operation of this port may touch. */
    ghost function Others(): Live
      reads this, heap
    {
      Foreign(cells, heap.live)
    }

    /** `calloc` and the assignments of `ovsdb_if_intf_create`, before the port is configured. */
    constructor (heap: Heap, instance: string, uuid: Uuid, subsystem: string, device: YamlPort, hwEnable: bool)
      requires heap.Valid()
      ensures this.heap == heap && this.instance == instance && this.uuid == uuid
      ensures Valid() && Others() == heap.live && cells == map[]
      ensures Configured(View()) == NewPort(instance, uuid, subsystem, device, hwEnable)
    {
      this.heap, this.instance, this.uuid, this.subsystem, this.device := heap, instance, uuid, subsystem, device;
      this.hwEnable := hwEnable;
      cells, changed, split := map[], false, false;
      subports := [false, false, false, false];
      present, retry, a2Requested, optical, portEnable := false, false, false, false, 0;
    }

    // ---- the column macros ----

    /** SET_STATIC_STRING */
    method SetStatic(c: Column, value: string)
      requires Valid() && IsStatic(c)
      modifies this
      ensures Valid() && Others() == old(Others())
      ensures View() == Overwrite(old(View()), c, value)
    {
      StoreLiteral(cells, heap.live, c, value);
      CanonicalPut(Texts(cells, heap.live), c, value);
      cells := cells[c := Literal(value)];
      changed := true;
    }

    /** `free(port->field)`: the column dangles until it is assigned again. */
    method FreeCell(c: Column)
      requires Valid() && !IsStatic(c)
      modifies heap
      ensures heap.Valid() && heap.live == Freed(cells, old(heap.live), c)
    {
      if c in cells {
        heap.Free(cells[c].addr);
      }
    }

    /** Free the old text, store a copy of the new one and mark the port. */
    method Store(c: Column, value: string)
      requires Valid() && !IsStatic(c) && (IsInt(c) ==> IsDec(value))
      modifies this, heap
      ensures Valid() && Others() == old(Others())
      ensures View() == Overwrite(old(View()), c, value)
    {
      hide Owns, Canonical, Texts, Addrs;
      ghost var live := heap.live;
      CanonicalPut(Texts(cells, live), c, value);
      FreeCell(c);
      var a := heap.Alloc(value);
      Replace(cells, live, c, a, value);
      cells := cells[c := Block(a)];
      changed := true;
    }

    /** SET_STRING: compare, and write only a different text. The outcome is a plain assignment, and
        the port is marked exactly when the text changes. */
    method SetString(c: Column, value: string)
      requires Valid() && !IsStatic(c) && !IsInt(c)
      modifies this, heap
      ensures Valid() && Others() == old(Others())
      ensures View() == Assign(old(View()), c, value)
    {
      AssignCases(View(), c, value);
      if c !in cells || heap.live[cells[c].addr] != value {
        Store(c, value);
      }
    }

    /** SET_INT_STRING: compare through `strtol`, and write only a different number. */
    method SetInt(c: Column, value: CInt)
      requires Valid() && IsInt(c)
      modifies this, heap
      ensures Valid() && Others() == old(Others())
      ensures View() == Assign(old(View()), c, Dec(value))
    {
      AssignCases(View(), c, Dec(value));
      assert FitsInt(value) && IsDec(Dec(value));
      if c in cells {
        assert IsDec(Texts(cells, heap.live)[c]);
        IntSkipIsTextSkip(heap.live[cells[c].addr], value);
      }
      if c !in cells || Strtol(heap.live[cells[c].addr]) != value {
        Store(c, Dec(value));
      }
    }

    /** SET_BINARY */
    method SetBinary(c: Column, value: seq<byte>)
      requires Valid() && !IsStatic(c) && !IsInt(c)
      modifies this, heap
      ensures Valid() && Others() == old(Others())
      ensures View() == Overwrite(old(View()), c, HexText(value))
    {
      var ascii, len := HexToAscii(value);
      Store(c, ascii[..len]);
    }

    /** DELETE: the column is set to NULL and nothing is freed. */
    method Delete(c: Column)
      requires Valid() && IsStatic(c)
      modifies this
      ensures Valid() && Others() == old(Others())
      ensures View() == Clear(old(View()), {c})
    {
      ghost var live := heap.live;
      Remove(cells, live, c);
      CanonicalCut(Texts(cells, live), c);
      ClearOne(View(), c);
      if c in cells {
        cells := cells - {c};
        changed := true;
      }
    }

    /** DELETE_FREE: the column's block is freed and the column is set to NULL. */
    method DeleteFree(c: Column)
      requires Valid() && !IsStatic(c)
      modifies this, heap
      ensures Valid() && Others() == old(Others())
      ensures View() == Clear(old(View()), {c})
    {
      ghost var live := heap.live;
      Remove(cells, live, c);
      CanonicalCut(Texts(cells, live), c);
      ClearOne(View(), c);
      if c in cells {
        heap.Free(cells[c].addr);
        cells := cells - {c};
        changed := true;
      }
    }

    // ---- pm_detect.c ----

    /** The loop of `set_supported_speeds`: the text grows by repeated `asprintf`, and each
        intermediate text is freed. The result is NULL for an empty list. */
    method BuildSpeeds(speeds: seq<int>) returns (block: Option<Addr>)
      requires heap.Valid()
      modifies heap
      ensures heap.Valid() && (block.None? <==> speeds == [])
      ensures block.None? ==> heap.live == old(heap.live)
      ensures block.Some? ==>
                && block.value !in old(heap.live)
                && heap.live == old(heap.live)[block.value := SpeedsText(speeds)]
    {
      hide Dec, SpeedsText;
      block := None;
      SpeedsNone();
      assert speeds[..0] == [];
      for idx := 0 to |speeds|
        invariant heap.Valid() && (block.None? <==> idx == 0)
        invariant block.None? ==> heap.live == old(heap.live)
        invariant block.Some? ==>
                    && block.value !in old(heap.live)
                    && heap.live == old(heap.live)[block.value := SpeedsText(speeds[..idx])]
      {
        SpeedsAppend(speeds[..idx], speeds[idx]);
        assert speeds[..idx + 1] == speeds[..idx] + [speeds[idx]];
        var longer := heap.Alloc((if block.None? then "" else heap.live[block.value])
                                 + (if idx == 0 then "" else " ") + Dec(speeds[idx]));
        if block.Some? {
          heap.Free(block.value);
        }
        assert heap.live == old(heap.live)[longer := SpeedsText(speeds[..idx + 1])];
        block := Some(longer);
      }
      assert speeds[..|speeds|] == speeds;
    }

    /** `set_supported_speeds`: the column's old text is freed first, the list's text replaces it. */
    method SetSupportedSpeeds(speeds: seq<int>)
      requires Valid()
      modifies this, heap
      ensures Valid() && Others() == old(Others())
      ensures View() == if speeds == [] then Clear(old(View()), {SupportedSpeeds}).(changed := true)
                        else Overwrite(old(View()), SupportedSpeeds, SpeedsText(speeds))
    {
      hide SpeedsText;
      ghost var live := heap.live;
      FreeCell(SupportedSpeeds);
      var block := BuildSpeeds(speeds);
      changed := true;
      if block.Some? {
        CanonicalPut(Texts(cells, live), SupportedSpeeds, SpeedsText(speeds));
        Replace(cells, live, SupportedSpeeds, block.value, SpeedsText(speeds));
        cells := cells[SupportedSpeeds := Block(block.value)];
      } else {
        CanonicalCut(Texts(cells, live), SupportedSpeeds);
        Remove(cells, live, SupportedSpeeds);
        cells := cells - {SupportedSpeeds};
      }
    }

    method SetOptical(value: bool)
      requires Valid()
      modifies this`optical
      ensures Valid() && Others() == old(Others())
      ensures View() == old(View()).(optical := value)
    {
      optical := value;
    }

    /** The six macro lines of one classification branch. */
    method SetModule(k: ModuleKind)
      requires Valid() && FitsInt(k.speed)
      modifies this, heap
      ensures Valid() && Others() == old(Others())
      ensures View() == old(View()).(cols := old(View()).cols - {CableTechnology, CableLength} + KindCols(k),
                                     changed := true, optical := k.optical)
    {
      hide Valid, View, Others;
      ghost var m := View().cols;
      SetOptical(k.optical);
      SetStatic(Connector, ConnectorText(k.moduleType));
      SetStatic(ConnectorStatus, StatusText(k.supported));
      SetInt(MaxSpeed, k.speed);
      SetSupportedSpeeds([k.speed]);
      Delete(CableTechnology);
      DeleteFree(CableLength);
      KindChain(m, ConnectorText(k.moduleType), StatusText(k.supported), Dec(k.speed), SpeedsText([k.speed]));
    }

    /** SET_STRING on a port that is marked already. */
    method SetMarked(c: Column, value: string)
      requires Valid() && View().changed && !IsStatic(c) && !IsInt(c)
      modifies this, heap
      ensures Valid() && Others() == old(Others())
      ensures View() == old(View()).(cols := old(View()).cols[c := value])
    {
      SetString(c, value);
    }

    /** The vendor columns of an SFP+ port. */
    method SetSfpVendor()
      requires Valid() && View().changed
      modifies this, heap
      ensures Valid() && Others() == old(Others())
      ensures View() == old(View()).(cols := old(View()).cols
                + map[VendorName := "vendor_name", VendorPartNumber := "vendor_part_numb",
                      VendorRevision := "rev", VendorSerialNumber := "serial_number"])
    {
      hide Valid, View, Others;
      ghost var m := View().cols;
      SetMarked(VendorName, "vendor_name");
      SetMarked(VendorPartNumber, "vendor_part_numb");
      SetMarked(VendorRevision, "rev");
      SetMarked(VendorSerialNumber, "serial_number");
      SfpChain(m, "vendor_name", "vendor_part_numb", "rev", "serial_number");
    }

    /** The vendor columns of a QSFP port, each copied from the page and stripped. */
    method SetQsfpVendor(page: Page)
      requires Valid() && View().changed
      modifies this, heap
      ensures Valid() && Others() == old(Others())
      ensures View() == old(View()).(cols := old(View()).cols
                + map[VendorName := FieldText(page[20..36]), VendorOui := OuiText(page[37..40]),
                      VendorPartNumber := FieldText(page[40..56]), VendorRevision := FieldText(page[56..58]),
                      VendorSerialNumber := FieldText(page[68..84])])
    {
      hide Valid, View, Others, FieldText, OuiText;
      ghost var m := View().cols;
      var name := StripField(page[20..36]);
      SetMarked(VendorName, name);
      var oui := OuiText(page[37..40]);
      SetMarked(VendorOui, oui);
      var part := StripField(page[40..56]);
      SetMarked(VendorPartNumber, part);
      var revision := StripField(page[56..58]);
      SetMarked(VendorRevision, revision);
      var serial := StripField(page[68..84]);
      SetMarked(VendorSerialNumber, serial);
      QsfpChain(m, name, oui, part, revision, serial);
    }

    method SetVendor(page: Page)
      requires Valid() && View().changed && Known(device.socket)
      modifies this, heap
      ensures Valid() && Others() == old(Others())
      ensures View() == old(View()).(cols := old(View()).cols + VendorCols(device.socket, page))
    {
      hide Valid, View, Others, FieldText, OuiText;
      if device.socket.SfpPlus? {
        SetSfpVendor();
      } else {
        SetQsfpVendor(page);
      }
    }

    /** The two classification switches. */
    method SetKind(page: Page)
      requires Valid() && Known(device.socket)
      modifies this, heap
      ensures Valid() && Others() == old(Others())
      ensures View() == old(View()).(cols := old(View()).cols - {CableTechnology, CableLength}
                                             + KindCols(Classify(device.socket, page)),
                                     changed := true, optical := Classify(device.socket, page).optical)
    {
      var k: ModuleKind;
      if device.socket.SfpPlus? {
        k := ModuleKind(SfpSr, true, 10000, true);
      } else if device.socket.Qsfp28? && Bit(page[3], 7) {
        match page[64] {
          case 0x02 => k := ModuleKind(Qsfp28Sr4, true, 100000, true);
          case 0x03 => k := ModuleKind(Qsfp28Lr4, true, 100000, true);
          case 0x06 => k := ModuleKind(Qsfp28Cwdm4, true, 100000, true);
          case 0x07 => k := ModuleKind(Qsfp28Psm4, true, 100000, true);
          case 0x0B => k := ModuleKind(Qsfp28Cr4, true, 100000, false);
          case 0x17 => k := ModuleKind(Qsfp28Clr4, true, 100000, true);
          case _ => k := UNRECOGNIZED;
        }
      } else if Bit(page[3], 1) {
        k := ModuleKind(QsfpLr4, true, 40000, true);
      } else if Bit(page[3], 2) {
        k := ModuleKind(QsfpSr4, true, 40000, true);
      } else if Bit(page[3], 3) {
        k := ModuleKind(QsfpCr4, true, 40000, false);
      } else {
        k := UNRECOGNIZED;
      }
      SetModule(k);
    }

    /** The part of `pm_parse` after the forced bit, on the page as it then is. */
    method ParseKnown(page: Page)
      requires Valid() && Known(device.socket)
      modifies this, heap
      ensures Valid() && Others() == old(Others())
      ensures View() == old(View()).(cols := old(View()).cols - CLEARED + (KindCols(Classify(device.socket, page))
                                               + VendorCols(device.socket, page) + map[A0 := HexText(page)]),
                                     changed := true, optical := Classify(device.socket, page).optical)
    {
      hide Valid, View, Others, KindCols, VendorCols, HexText, Classify;
      ghost var p := View();
      ghost var k := Classify(device.socket, page);
      SetKind(page);
      Delete(PowerMode);
      SetVendor(page);
      KindLeavesPower(k);
      SetBinary(A0, page);
      ParseChain(p.cols, KindCols(k), VendorCols(device.socket, page), HexText(page));
    }

    /** One more DELETE in a series that started from p. */
    method DeleteMore(c: Column, ghost p: PortState, ghost gone: set<Column>) returns (ghost gone': set<Column>)
      requires Valid() && View() == Clear(p, gone) && IsStatic(c)
      modifies this
      ensures Valid() && Others() == old(Others())
      ensures gone' == gone + {c} && View() == Clear(p, gone')
    {
      ClearTwice(p, gone, {c});
      Delete(c);
      gone' := gone + {c};
    }

    /** One more DELETE_FREE in a series that started from p. */
    method DeleteFreeMore(c: Column, ghost p: PortState, ghost gone: set<Column>) returns (ghost gone': set<Column>)
      requires Valid() && View() == Clear(p, gone) && !IsStatic(c)
      modifies this, heap
      ensures Valid() && Others() == old(Others())
      ensures gone' == gone + {c} && View() == Clear(p, gone')
    {
      ClearTwice(p, gone, {c});
      DeleteFree(c);
      gone' := gone + {c};
    }

    /** The first deletions of `pm_delete_all_data`. */
    method DeleteLinkData(ghost p: PortState) returns (ghost gone: set<Column>)
      requires Valid() && View() == p
      modifies this, heap
      ensures Valid() && Others() == old(Others())
      ensures gone == {ConnectorStatus, SupportedSpeeds, CableTechnology, CableLength, MaxSpeed, PowerMode}
      ensures View() == Clear(p, gone)
    {
      hide Valid, View, Others, Clear;
      ClearNone(p);
      gone := DeleteMore(ConnectorStatus, p, {});
      gone := DeleteFreeMore(SupportedSpeeds, p, gone);
      gone := DeleteMore(CableTechnology, p, gone);
      gone := DeleteFreeMore(CableLength, p, gone);
      gone := DeleteFreeMore(MaxSpeed, p, gone);
      gone := DeleteMore(PowerMode, p, gone);
    }

    /** `pm_delete_all_data`: no block of the port survives. */
    method DeleteAllData()
      requires Valid()
      modifies this, heap
      ensures Valid() && Others() == old(Others())
      ensures View() == Clear(old(View()), DELETED)
      ensures Addrs(cells) == {}
    {
      hide Valid, View, Others, Clear;
      ghost var p := View();
      ghost var gone := DeleteLinkData(p);
      gone := DeleteFreeMore(VendorName, p, gone);
      gone := DeleteFreeMore(VendorOui, p, gone);
      gone := DeleteFreeMore(VendorPartNumber, p, gone);
      gone := DeleteFreeMore(VendorRevision, p, gone);
      gone := DeleteFreeMore(VendorSerialNumber, p, gone);
      gone := DeleteFreeMore(A0, p, gone);
      gone := DeleteFreeMore(A2, p, gone);
      gone := DeleteFreeMore(A0Uppers, p, gone);
      AllDeleted(gone);
      ClearedKeys(p);
      NothingOwnedNow();
    }

    lemma NothingOwnedNow()
      requires Valid() && View().cols.Keys !! DELETED
      ensures Addrs(cells) == {}
    {
    }

    /** `pm_parse`: a page in memory is changed in place, then taken apart. */
    method Parse(a0: array<byte>) returns (rc: int)
      requires Valid() && a0.Length == 128
      modifies this, heap, a0
      ensures Valid() && Others() == old(Others())
      ensures (View(), rc) == PortModel.Parse(old(View()), old(a0[..]))
      ensures rc == if device.pluggable && device.socket.Other? then -1 else 0
      ensures !device.pluggable ==> View() == old(View())
      ensures a0[..] == if device.pluggable && Known(device.socket) then ForceSr(old(a0[..])) else old(a0[..])
    {
      if !device.pluggable {
        return 0;
      }
      if device.socket.Other? {
        DeleteAllData();
        SetStatic(Connector, ConnectorText(Unknown));
        return -1;
      }
      ghost var page := a0[..];
      a0[3] := SetBit(a0[3], 4);
      assert a0[..] == ForceSr(page);
      ForceSrKeepsKind(device.socket, page);
      ForceSrKeepsVendor(device.socket, page);
      ParseKnown(a0[..]);
      return 0;
    }

    // ---- plug.c ----

    lemma ViewFields()
      ensures View().present == present && View().retry == retry && View().device == device
    {
    }

    method MarkRead(wantsA2: bool)
      requires Valid()
      modifies this`present, this`retry, this`a2Requested
      ensures Valid() && Others() == old(Others())
      ensures View() == old(View()).(present := true, retry := false, a2Requested := old(View()).a2Requested || wantsA2)
    {
      present, retry := true, false;
      if wantsA2 {
        a2Requested := true;
      }
    }

    /** `pm_read_module_state`: page is what `pm_read_a0` delivers, zeros if the read fails. The
        answer of the presence read is not used. */
    method ReadModuleState(page: Page)
      requires Valid()
      modifies this, heap
      ensures Valid() && Others() == old(Others())
      ensures View() == ReadModule(old(View()), page)
    {
      hide Valid, View, Others, ForceSr, PortModel.Parse, WantsA2;
      ViewFields();
      if device.socket.Other? {
        return;
      }
      ParseSucceeds(View(), page);
      if !present || retry {
        var a0 := new byte[128](i requires 0 <= i < 128 => page[i]);
        assert a0[..] == page;
        ForceSrKeepsA2(device.socket, page);
        var rc := Parse(a0);
        // pm_parse cannot fail here, so the branch that sets retry is dead
        assert rc == 0;
        MarkRead(WantsA2(device.socket, a0[..]));
      }
    }

    /** The register value of a split QSFP port, built lane by lane. */
    method BuildMask() returns (data: byte)
      requires |subports| == MAX_SPLIT_COUNT
      ensures data == SplitMask(subports)
    {
      data := 0;
      forall k: nat ensures !Bit(0, k) { BitOfZero(k); }
      for idx := 0 to MAX_SPLIT_COUNT
        invariant forall k: nat :: Bit(data, k) <==> k < idx && !subports[k]
      {
        if !subports[idx] {
          data := SetBit(data, idx);
        }
      }
      forall k: nat ensures Bit(data, k) <==> Bit(SplitMask(subports), k) {
        SplitMaskBits(subports, k);
      }
      SameBits(data, SplitMask(subports));
    }

    /** `pm_configure_port` and `pm_configure_qsfp` */
    method Configure()
      requires Valid()
      modifies this`portEnable
      ensures Valid() && Others() == old(Others())
      ensures View() == Configured(old(View()))
    {
      if device.socket.QsfpPlus? || device.socket.Qsfp28? {
        var data: byte := 0x00;
        if split {
          data := BuildMask();
        } else if !hwEnable {
          data := 0x0f;
        }
        portEnable := data;
      } else if hwEnable {
        portEnable := 1;
      } else {
        portEnable := 0;
      }
    }

    /** `if (module->field) smap_add(&pm_info, key, module->field)` */
    method AddKey(m: PmMap, key: PmKey) returns (m': PmMap)
      requires Valid()
      ensures m' == if ColumnOf(key) in View().cols then m[key := View().cols[ColumnOf(key)]] else m
    {
      var c := ColumnOf(key);
      if c in cells {
        m' := m[key := Read(cells[c])];
      } else {
        m' := m;
      }
    }

    /** The map `pm_ovsdb_update` fills from the columns. */
    method BuildPmInfo() returns (m: PmMap)
      requires Valid()
      ensures m == PmInfo(View().cols)
    {
      hide Valid, View;
      m := AddKey(map[], KeyConnector);
      m := AddKey(m, KeyConnectorStatus);
      m := AddKey(m, KeySupportedSpeeds);
      m := AddKey(m, KeyMaxSpeed);
      ghost var cols := View().cols;
      forall key: PmKey ensures key in m <==> ColumnOf(key) in cols
        ensures key in m ==> m[key] == cols[ColumnOf(key)] {
        match key { case KeyConnector => case KeyConnectorStatus => case KeySupportedSpeeds => case KeyMaxSpeed => }
      }
    }

    /** The text a column refers to. */
    function Read(cell: Cell): (text: string)
      requires cell.Block? ==> cell.addr in heap.live
      reads heap
      ensures text == CellText(cell, heap.live)
    {
      match cell
      case Literal(t) => t
      case Block(a) => heap.live[a]
    }

    method ClearChanged()
      requires Valid()
      modifies this`changed
      ensures Valid() && Others() == old(Others())
      ensures View() == old(View()).(changed := false)
    {
      changed := false;
    }

    /** `ovsdb_if_intf_modify` */
    method Modify(enable: bool)
      requires Valid()
      modifies this`hwEnable, this`portEnable
      ensures Valid() && Others() == old(Others())
      ensures View() == Modified(old(View()), enable)
    {
      if hwEnable != enable {
        hwEnable := enable;
        Configure();
      }
    }
  }

  lemma ParseSucceeds(p: PortState, page: Page)
    requires Known(p.device.socket)
    ensures PortModel.Parse(p, page).1 == 0 && PortModel.Parse(p, page).0.a2Requested == p.a2Requested
  {
  }

  lemma ClearNone(p: PortState)
    ensures Clear(p, {}) == p
  {
  }

  lemma AllDeleted(gone: set<Column>)
    requires gone == {ConnectorStatus, SupportedSpeeds, CableTechnology, CableLength, MaxSpeed, PowerMode}
                     + {VendorName} + {VendorOui} + {VendorPartNumber} + {VendorRevision}
                     + {VendorSerialNumber} + {A0} + {A2} + {A0Uppers}
    ensures gone == DELETED
  {
  }

  lemma ClearedKeys(p: PortState)
    ensures Clear(p, DELETED).cols.Keys !! DELETED
  {
  }

  lemma ForceSrKeepsVendor(socket: SocketType, page: Page)
    ensures VendorCols(socket, ForceSr(page)) == VendorCols(socket, page)
  {
    var q := ForceSr(page);
    assert q[20..36] == page[20..36] && q[37..40] == page[37..40] && q[40..56] == page[40..56];
    assert q[56..58] == page[56..58] && q[68..84] == page[68..84];
  }

  lemma ForceSrKeepsA2(socket: SocketType, page: Page)
    ensures WantsA2(socket, ForceSr(page)) == WantsA2(socket, page)
  {
  }
}
