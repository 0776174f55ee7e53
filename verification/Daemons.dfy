/** The daemon with its tables of port objects: src/ovsdb_access.c, `pm_read_state` and the main
    loop of src/pmd.c. Each method is proved to do to the tables and the database what the
    corresponding function of Rounds does, and keeps the heap exactly the blocks that the columns
    of the ports in the table own. */
module Daemons {
  import opened Bits
  import opened Columns
  import opened PortModel
  import opened Ports
  import opened Rounds
  import opened Passes
  import opened Runs

  /** The columns of each port in the table. */
  ghost function CellsOf(intfs: map<string, Port>): map<string, Cells>
    reads intfs.Values
  {
    map n | n in intfs :: intfs[n].cells
  }

  lemma OwnsOf(ports: map<string, Cells>, live: Live, n: string)
    requires Divides(ports, live) && n in ports
    ensures Owns(ports[n], live)
  {
  }

  twostate predicate Untouched(q: Port)
    reads q
  {
    unchanged(q)
  }

  lemma ValuesWith(m: map<string, Port>, n: string, p: Port)
    requires n !in m
    ensures m[n := p].Values == m.Values + {p}
  {
    forall q | q in m.Values ensures q in m[n := p].Values {
      var k :| k in m && m[k] == q;
      assert m[n := p][k] == q;
    }
    assert m[n := p][n] == p;
  }

  lemma ValuesWithout(m: map<string, Port>, n: string)
    requires n in m && forall k :: k in m ==> m[k].instance == k
    ensures (m - {n}).Values == m.Values - {m[n]}
  {
    forall p | p in m.Values - {m[n]} ensures p in (m - {n}).Values {
      var k :| k in m && m[k] == p;
      assert k in m - {n};
    }
  }

  /** The scan of the modules, with the ports in todo still to come. */
  ghost predicate ReadSoFar(before: map<string, PortState>, now: map<string, PortState>, todo: set<string>,
                            pages: map<string, Page>)
  {
    && now.Keys == before.Keys
    && forall n :: n in before ==> now[n] == if n in todo then before[n] else ReadModule(before[n], PageFor(pages, n))
  }

  lemma ReadOneMore(before: map<string, PortState>, now: map<string, PortState>, todo: set<string>,
                    pages: map<string, Page>, n: string)
    requires ReadSoFar(before, now, todo, pages) && n in todo && n in before
    ensures n in now && ReadSoFar(before, now[n := ReadModule(now[n], PageFor(pages, n))], todo - {n}, pages)
  {
  }

  lemma ReadDone(before: map<string, PortState>, now: map<string, PortState>, pages: map<string, Page>)
    requires ReadSoFar(before, now, {}, pages)
    ensures now == ReadAll(pages, before)
  {
  }

  /** Each port is read with its own page, or with zeros if its module delivers none. */
  lemma ReadShows(before: map<string, PortState>, pages: map<string, Page>)
    ensures forall n :: n in before ==>
              && n in ReadAll(pages, before)
              && (n in pages ==> ReadAll(pages, before)[n] == ReadModule(before[n], pages[n]))
              && (n !in pages ==> ReadAll(pages, before)[n] == ReadModule(before[n], seq(128, k => 0)))
  {
  }

  lemma FlagsCleared(db: Db, before: map<string, PortState>)
    ensures forall n :: n in before ==>
              && n in ClearFlags(db, before)
              && (ClearFlags(db, before)[n].changed <==> before[n].changed && before[n].uuid !in db.intfs)
  {
    forall n | n in before
      ensures n in ClearFlags(db, before)
      ensures ClearFlags(db, before)[n].changed <==> before[n].changed && before[n].uuid !in db.intfs
    {
      ClearFlagsExact(db, before, n);
    }
  }

  lemma ReadNone(before: map<string, PortState>, todo: set<string>, pages: map<string, Page>)
    requires todo == before.Keys
    ensures ReadSoFar(before, before, todo, pages)
  {
  }

  /** The deletion of ports whose row is gone, with the names in todo still to come. */
  ghost predicate DropSoFar(db: Db, before: map<string, PortState>, now: map<string, PortState>, todo: set<string>)
  {
    now == map n | n in before && (n in todo || before[n].uuid in db.intfs) :: before[n]
  }

  lemma DropStart(db: Db, before: map<string, PortState>)
    ensures DropSoFar(db, before, before, before.Keys)
  {
  }

  lemma DropOneMore(db: Db, before: map<string, PortState>, now: map<string, PortState>, todo: set<string>, n: string)
    requires DropSoFar(db, before, now, todo) && n in todo && n in before
    ensures n in now && now[n] == before[n]
    ensures DropSoFar(db, before, if before[n].uuid in db.intfs then now else now - {n}, todo - {n})
  {
  }

  lemma DropDone(db: Db, before: map<string, PortState>, now: map<string, PortState>)
    requires DropSoFar(db, before, now, {})
    ensures now == KeepLive(db, before)
  {
  }

  /** What the passes over the interface rows do to the port a row's name leads to. */
  datatype RowPass = ModifyPass | ConfigurePass

  ghost function ApplyRow(pass: RowPass, p: PortState, row: IntfRow): PortState
  {
    if pass.ModifyPass? then Modified(p, HwEnable(row)) else Configured(p)
  }

  /** A pass over the rows, with the rows in todo still to come. */
  ghost predicate RowsSoFar(db: Db, pass: RowPass, before: map<string, PortState>, now: map<string, PortState>,
                            todo: set<Uuid>)
  {
    && now.Keys == before.Keys
    && forall n :: n in before ==>
         now[n] == if HasRow(db, n) && UuidNamed(db, n) !in todo
                   then ApplyRow(pass, before[n], db.intfs[UuidNamed(db, n)]) else before[n]
  }

  lemma RowsStart(db: Db, pass: RowPass, before: map<string, PortState>)
    ensures RowsSoFar(db, pass, before, before, db.intfs.Keys)
  {
  }

  lemma RowsOneMore(db: Db, pass: RowPass, before: map<string, PortState>, now: map<string, PortState>,
                    todo: set<Uuid>, u: Uuid)
    requires DbOk(db) && RowsSoFar(db, pass, before, now, todo) && u in todo && u in db.intfs
    ensures var name := db.intfs[u].name;
            && (name in now <==> name in before)
            && RowsSoFar(db, pass, before,
                         if name in now then now[name := ApplyRow(pass, now[name], db.intfs[u])] else now, todo - {u})
  {
    hide ApplyRow;
    var name := db.intfs[u].name;
    assert HasRow(db, name) && UuidNamed(db, name) == u;
    assert name in now <==> name in now.Keys;
    assert forall n :: HasRow(db, n) && UuidNamed(db, n) == u ==> n == name;
  }

  lemma RowsDone(db: Db, pass: RowPass, before: map<string, PortState>, now: map<string, PortState>)
    requires RowsSoFar(db, pass, before, now, {})
    ensures now == if pass.ModifyPass? then ModifyAll(db, before) else ConfigureAll(db, before)
  {
  }

  /** The flags during publication, with the ports in todo still to come. */
  ghost predicate FlagsSoFar(db: Db, before: map<string, PortState>, now: map<string, PortState>, todo: set<string>)
  {
    && now.Keys == before.Keys
    && forall n :: n in before ==>
         now[n] == if n !in todo && before[n].uuid in db.intfs then before[n].(changed := false) else before[n]
  }

  /** The rows during publication, with the ports in todo still to come: a row with a marked port
      behind us shows the columns of such a port. */
  ghost predicate InfoSoFar(db: Db, before: map<string, PortState>, rows: map<Uuid, IntfRow>, todo: set<string>)
  {
    rows.Keys == db.intfs.Keys && forall u :: u in db.intfs ==> RowSoFar(before, db.intfs[u], rows[u], todo, u)
  }

  ghost predicate RowSoFar(before: map<string, PortState>, row: IntfRow, row': IntfRow, todo: set<string>, u: Uuid)
  {
    || (row' == row && forall n :: n !in todo ==> !Marked(before, n, u))
    || exists n :: n !in todo && Marked(before, n, u) && row' == row.(pmInfo := PmInfo(before[n].cols))
  }

  lemma PubStart(db: Db, ports: map<string, PortState>)
    ensures FlagsSoFar(db, ports, ports, ports.Keys) && InfoSoFar(db, ports, db.intfs, ports.Keys)
  {
  }

  lemma FlagsOneMore(db: Db, before: map<string, PortState>, now: map<string, PortState>, todo: set<string>, n: string)
    requires FlagsSoFar(db, before, now, todo) && n in todo && n in before
    ensures n in now && now[n] == before[n]
    ensures before[n].uuid !in db.intfs || !before[n].changed ==> FlagsSoFar(db, before, now, todo - {n})
    ensures before[n].uuid in db.intfs ==> FlagsSoFar(db, before, now[n := now[n].(changed := false)], todo - {n})
  {
  }

  /** A port that is not published says nothing about any row. */
  lemma InfoSkip(db: Db, before: map<string, PortState>, rows: map<Uuid, IntfRow>, todo: set<string>, n: string)
    requires InfoSoFar(db, before, rows, todo) && n in before
    requires before[n].uuid !in db.intfs || !before[n].changed
    ensures InfoSoFar(db, before, rows, todo - {n})
  {
    hide PmInfo;
    forall u | u in db.intfs ensures RowSoFar(before, db.intfs[u], rows[u], todo - {n}, u) {
      assert RowSoFar(before, db.intfs[u], rows[u], todo, u);
    }
  }

  lemma InfoWrite(db: Db, before: map<string, PortState>, rows: map<Uuid, IntfRow>, todo: set<string>, n: string)
    requires InfoSoFar(db, before, rows, todo) && n in before && before[n].uuid in db.intfs && before[n].changed
    ensures before[n].uuid in rows
    ensures InfoSoFar(db, before,
                      rows[before[n].uuid := rows[before[n].uuid].(pmInfo := PmInfo(before[n].cols))], todo - {n})
  {
    hide PmInfo;
    var v := before[n].uuid;
    assert v in rows.Keys;
    var rows' := rows[v := rows[v].(pmInfo := PmInfo(before[n].cols))];
    forall u | u in db.intfs ensures RowSoFar(before, db.intfs[u], rows'[u], todo - {n}, u) {
      assert RowSoFar(before, db.intfs[u], rows[u], todo, u);
      assert Marked(before, n, v);
    }
  }

  lemma PubDone(db: Db, before: map<string, PortState>, now: map<string, PortState>, rows: map<Uuid, IntfRow>)
    requires FlagsSoFar(db, before, now, {}) && InfoSoFar(db, before, rows, {})
    ensures now == ClearFlags(db, before) && RowsPublished(db, before, rows)
  {
    hide PmInfo;
    forall u | u in db.intfs
      ensures || (rows[u] == db.intfs[u] && forall n :: !Marked(before, n, u))
              || exists n :: Marked(before, n, u) && rows[u] == db.intfs[u].(pmInfo := PmInfo(before[n].cols))
    {
      assert RowSoFar(before, db.intfs[u], rows[u], {}, u);
    }
  }

  class Daemon {
    const heap: Heap
    var yaml: World
    var intfs: map<string, Port>
    var subs: map<string, Uuid>
    var idlSeqno: nat
    var curHwSet: bool

    ghost predicate Valid()
      reads this, heap, intfs.Values
    {
      && heap.Valid()
      && (forall n :: n in intfs ==> intfs[n].instance == n && intfs[n].heap == heap && intfs[n].Valid())
      && Divides(CellsOf(intfs), heap.live)
    }

    ghost function PortsView(): map<string, PortState>
      requires Valid()
      reads this, heap, intfs.Values
    {
      map n | n in intfs :: intfs[n].View()
    }

    ghost function View(): DaemonState
      requires Valid()
      reads this, heap, intfs.Values
    {
      DaemonState(Tables(PortsView(), subs), idlSeqno, curHwSet, yaml)
    }

    /** The tables as `shash_init` leaves them; w is what the library will answer at initialisation. */
    constructor (w: World, heap: Heap, seqno: nat)
      requires heap.Valid() && heap.live == map[]
      ensures this.heap == heap && Valid()
      ensures View() == DaemonState(Tables(map[], map[]), seqno, false, w) && intfs == map[]
    {
      this.yaml, this.heap := w, heap;
      intfs, subs, idlSeqno, curHwSet := map[], map[], seqno, false;
    }

    lemma YamlShown()
      requires Valid()
      ensures View().yaml == yaml
    {
    }

    lemma ValidPort(n: string)
      requires Valid() && n in intfs
      ensures intfs[n] in intfs.Values && intfs[n].heap == heap && intfs[n].Valid()
    {
    }

    /** An operation that works on one port keeps the heap divided between the ports, without leak or
        double ownership, and shows as one changed entry. */
    twostate lemma EntryTouched(n: string)
      requires old(Valid()) && n in intfs && unchanged(`intfs)
      requires intfs[n].Valid() && intfs[n].Others() == old(intfs[n].Others())
      requires forall q :: q in intfs.Values && q != intfs[n] ==> Untouched(q)
      ensures Valid() && PortsView() == old(PortsView())[n := intfs[n].View()]
    {
      hide Canonical, Addrs, Texts, Owns, Divides;
      var cells, live := old(CellsOf(intfs)), old(heap.live);
      OneTouched(cells, live, n, intfs[n].cells, heap.live);
      forall k | k in intfs && k != n
        ensures intfs[k].Valid() && intfs[k].View() == old(intfs[k].View()) && intfs[k].cells == cells[k]
      {
        assert intfs[k] in intfs.Values && intfs[k] != intfs[n];
        assert Untouched(intfs[k]);
        assert cells[k] == intfs[k].cells;
        OwnsOf(cells[n := intfs[n].cells], heap.live, k);
      }
      assert CellsOf(intfs) == cells[n := intfs[n].cells];
    }

    /** The heap exactly: every live block belongs to one column of one port in the table, and every
        owned column's block is live. */
    lemma HeapExact()
      requires Valid()
      ensures forall a :: a in heap.live <==> exists n :: n in intfs && a in Addrs(intfs[n].cells)
      ensures forall n, m :: n in intfs && m in intfs && n != m ==> Addrs(intfs[n].cells) !! Addrs(intfs[m].cells)
      ensures forall n :: n in intfs ==> BlocksDiffer(intfs[n].cells)
      ensures forall n, c :: n in intfs && c in intfs[n].cells ==> (intfs[n].cells[c].Literal? <==> IsStatic(c))
    {
      hide Addrs, Canonical;
      var cells := CellsOf(intfs);
      forall a ensures a in heap.live <==> exists n :: n in intfs && a in Addrs(intfs[n].cells) {
        if a in heap.live {
          var n :| n in cells && a in Addrs(cells[n]);
        } else if n :| n in intfs && a in Addrs(intfs[n].cells) {
          OwnedLive(intfs[n].cells, heap.live, a);
        }
      }
      forall n, m | n in intfs && m in intfs && n != m ensures Addrs(intfs[n].cells) !! Addrs(intfs[m].cells) {
        assert Addrs(cells[n]) !! Addrs(cells[m]);
      }
    }

    // ---- plug.c ----

    method ReadPort(n: string, page: Page)
      requires Valid() && n in intfs
      modifies heap, intfs.Values
      ensures Valid() && PortsView() == old(PortsView())[n := ReadModule(old(PortsView())[n], page)]
    {
      hide Port.Valid, Port.View, Port.Others, Divides, ReadModule;
      ValidPort(n);
      intfs[n].ReadModuleState(page);
      EntryTouched(n);
    }

    lemma ViewKeys()
      requires Valid()
      ensures PortsView().Keys == intfs.Keys
    {
    }

    /** `pm_read_state`: the modules are scanned in table order, which does not matter. */
    method ReadState(pages: map<string, Page>)
      requires Valid()
      modifies heap, intfs.Values
      ensures Valid() && PortsView() == ReadAll(pages, old(PortsView()))
      ensures forall n :: n in old(PortsView()) ==>
                && n in PortsView()
                && (n in pages ==> PortsView()[n] == ReadModule(old(PortsView())[n], pages[n]))
                && (n !in pages ==> PortsView()[n] == ReadModule(old(PortsView())[n], seq(128, k => 0)))
    {
      hide Valid, PortsView, ReadModule, PageFor, ReadSoFar, ReadAll;
      ghost var before := PortsView();
      var todo := intfs.Keys;
      ViewKeys();
      assert ReadSoFar(before, before, todo, pages) by { ReadNone(before, todo, pages); }
      while todo != {}
        invariant Valid() && todo <= before.Keys == intfs.Keys
        invariant ReadSoFar(before, PortsView(), todo, pages)
      {
        var n :| n in todo;
        ReadOneMore(before, PortsView(), todo, pages, n);
        ReadPort(n, PageFor(pages, n));
        todo := todo - {n};
      }
      ReadDone(before, PortsView(), pages);
      ReadShows(before, pages);
    }

    // ---- deletions ----

    /** Dropping a port that owns nothing any more keeps the rest of the table. */
    twostate lemma EntryDropped(n: string)
      requires old(Valid()) && n in old(intfs) && intfs == old(intfs) - {n}
      requires old(intfs)[n].Valid() && Addrs(old(intfs)[n].cells) == {}
      requires old(intfs)[n].Others() == old(intfs[n].Others())
      requires forall q :: q in old(intfs).Values && q != old(intfs)[n] ==> Untouched(q)
      ensures Valid() && PortsView() == old(PortsView()) - {n}
    {
      hide Canonical, Addrs, Texts, Owns, Divides;
      var cells, live, port := old(CellsOf(intfs)), old(heap.live), old(intfs)[n];
      OneTouched(cells, live, n, port.cells, heap.live);
      OneLess(cells[n := port.cells], heap.live, n);
      forall k | k in intfs
        ensures intfs[k].Valid() && intfs[k].View() == old(intfs[k].View()) && intfs[k].cells == cells[k]
      {
        assert intfs[k] in old(intfs).Values && intfs[k] != port;
        assert Untouched(intfs[k]);
        assert cells[k] == intfs[k].cells;
        OwnsOf(cells[n := port.cells], heap.live, k);
      }
      assert CellsOf(intfs) == cells[n := port.cells] - {n};
    }

    /** `shash_delete` and `pmd_free_pm_port`: every module-column block of the port is freed, once. */
    method DropPort(n: string)
      requires Valid() && n in intfs
      modifies this`intfs, heap, intfs.Values
      ensures Valid() && PortsView() == old(PortsView()) - {n}
      ensures intfs == old(intfs) - {n} && intfs.Values <= old(intfs.Values)
    {
      hide Port.Valid, Port.View, Port.Others, Divides, Clear;
      ValidPort(n);
      var port := intfs[n];
      ValuesWithout(intfs, n);
      intfs := intfs - {n};
      port.DeleteAllData();
      EntryDropped(n);
    }

    lemma ViewAt(n: string)
      requires Valid() && n in intfs
      ensures n in PortsView() && PortsView()[n].uuid == intfs[n].uuid && PortsView()[n] == intfs[n].View()
    {
    }

    /** The loop over deleted interfaces. */
    method DropDeleted(db: Db)
      requires Valid()
      modifies this`intfs, heap, intfs.Values
      ensures Valid() && PortsView() == KeepLive(db, old(PortsView()))
      ensures intfs.Values <= old(intfs.Values)
    {
      hide Valid, PortsView, DropSoFar, KeepLive;
      ghost var before := PortsView();
      ViewKeys();
      var todo := intfs.Keys;
      DropStart(db, before);
      while todo != {}
        invariant Valid() && todo <= before.Keys && todo <= intfs.Keys
        invariant DropSoFar(db, before, PortsView(), todo)
        invariant intfs.Values <= old(intfs.Values)
      {
        var n :| n in todo;
        DropOneMore(db, before, PortsView(), todo, n);
        ViewAt(n);
        if intfs[n].uuid !in db.intfs {
          DropPort(n);
        }
        todo := todo - {n};
      }
      DropDone(db, before, PortsView());
    }

    /** The loop over deleted subsystems. */
    method DropDeletedSubs(db: Db)
      modifies this`subs
      ensures subs == KeepLiveSubs(db, old(subs))
    {
      var todo := subs.Keys;
      while todo != {}
        invariant todo <= old(subs).Keys
        invariant subs == map n | n in old(subs) && (n in todo || SubLive(db, old(subs)[n])) :: old(subs)[n]
      {
        hide SubLive;
        var n :| n in todo;
        if !SubLive(db, subs[n]) {
          subs := subs - {n};
        }
        todo := todo - {n};
      }
    }

    // ---- creation ----

    /** `shash_add` of a port that owns nothing yet. */
    method AddEntry(port: Port)
      requires Valid() && port.instance !in intfs && port.heap == heap && port.Valid() && port.cells == map[]
      modifies this`intfs
      ensures intfs == old(intfs)[port.instance := port]
      ensures Valid() && PortsView() == old(PortsView())[port.instance := port.View()]
    {
      hide Port.View, Port.Valid, Divides;
      ghost var cells := CellsOf(intfs);
      OneMore(cells, heap.live, port.instance);
      intfs := intfs[port.instance := port];
      assert CellsOf(intfs) == cells[port.instance := map[]];
    }

    method ConfigureEntry(n: string)
      requires Valid() && n in intfs
      modifies intfs[n]
      ensures Valid() && PortsView() == old(PortsView())[n := Configured(old(PortsView())[n])]
    {
      hide Port.Valid, Port.View, Port.Others, Divides, Configured;
      ValidPort(n);
      intfs[n].Configure();
      EntryTouched(n);
    }

    /** `ovsdb_if_intf_create` */
    method IntfCreate(db: Db, u: Uuid, sub: SubRow)
      requires Valid() && u in db.intfs && db.intfs[u].name !in intfs
      modifies this`intfs
      ensures Valid() && PortsView() == CreateOne(yaml, db, sub, u, old(PortsView()))
      ensures fresh(intfs.Values - old(intfs.Values))
    {
      hide Valid, PortsView, Port.View, Port.Valid, Configured, HwEnable, NewPort;
      var row := db.intfs[u];
      ViewKeys();
      assert row.name !in PortsView().Keys;
      if (sub.name, row.name) !in yaml.yaml {
        return;
      }
      var yamlPort := yaml.yaml[(sub.name, row.name)];
      if !yamlPort.pluggable {
        return;
      }
      HeapValid();
      ghost var before, entries := PortsView(), intfs;
      var port := new Port(heap, row.name, u, sub.name, yamlPort, HwEnable(row));
      assert PortsView() == before && Valid();
      AddEntry(port);
      ValuesWith(entries, row.name, port);
      ConfigureEntry(row.name);
    }

    lemma HeapValid()
      requires Valid()
      ensures heap.Valid()
    {
    }

    /** The interface loop of `ovsdb_if_subsys_process`. */
    method CreateIntfs(db: Db, sub: SubRow)
      requires Valid() && ListsOk(db, sub)
      modifies this`intfs
      ensures Valid() && PortsView() == CreateMissing(yaml, db, sub, |sub.interfaces|, old(PortsView()))
      ensures fresh(intfs.Values - old(intfs.Values))
    {
      hide Valid, PortsView;
      for i := 0 to |sub.interfaces|
        invariant Valid() && fresh(intfs.Values - old(intfs.Values))
        invariant PortsView() == CreateMissing(yaml, db, sub, i, old(PortsView()))
      {
        var u := sub.interfaces[i];
        ViewKeys();
        assert db.intfs[u].name in intfs.Keys <==> db.intfs[u].name in PortsView().Keys;
        if db.intfs[u].name !in intfs {
          IntfCreate(db, u, sub);
        }
      }
    }

    /** `ovsdb_if_subsys_process` */
    method SubsysProcess(db: Db, sub: SubRow)
      requires Valid() && ListsOk(db, sub)
      modifies this`intfs, this`subs
      ensures Valid() && Tables(PortsView(), subs) == ProcessSub(yaml, db, sub, old(Tables(PortsView(), subs)))
      ensures fresh(intfs.Values - old(intfs.Values))
    {
      hide PortsView, Divides, CreateMissing;
      if sub.name !in subs {
        ghost var before := PortsView();
        subs := subs[sub.name := sub.uuid];
        SameEntries();
        assert PortsView() == before;
        if sub.name in yaml.yamlBad {
          return;
        }
      }
      CreateIntfs(db, sub);
    }

    /** The port table does not depend on the other fields. */
    twostate lemma SameEntries()
      requires old(Valid()) && unchanged(`intfs) && unchanged(heap)
      requires forall q :: q in intfs.Values ==> Untouched(q)
      ensures Valid() && PortsView() == old(PortsView())
    {
      hide Canonical, Addrs, Texts, Owns, Divides;
      var cells := old(CellsOf(intfs));
      forall k | k in intfs
        ensures intfs[k].Valid() && intfs[k].View() == old(intfs[k].View()) && intfs[k].cells == cells[k]
      {
        assert intfs[k] in intfs.Values;
        assert Untouched(intfs[k]);
      }
      assert CellsOf(intfs) == cells;
    }

    /** The loop over the subsystem rows. */
    method ProcessAll(db: Db)
      requires Valid() && DbOk(db)
      modifies this`intfs, this`subs
      ensures Valid() && Tables(PortsView(), subs) == ProcessSubs(yaml, db, |db.subs|, old(Tables(PortsView(), subs)))
      ensures fresh(intfs.Values - old(intfs.Values))
    {
      hide Valid, PortsView, ProcessSub;
      for k := 0 to |db.subs|
        invariant Valid() && fresh(intfs.Values - old(intfs.Values))
        invariant Tables(PortsView(), subs) == ProcessSubs(yaml, db, k, old(Tables(PortsView(), subs)))
      {
        SubsysProcess(db, db.subs[k]);
      }
    }

    // ---- passes over the interface rows ----

    method ModifyEntry(n: string, enable: bool)
      requires Valid() && n in intfs
      modifies intfs[n]
      ensures Valid() && PortsView() == old(PortsView())[n := Modified(old(PortsView())[n], enable)]
    {
      hide Port.Valid, Port.View, Port.Others, Divides, Modified;
      ValidPort(n);
      intfs[n].Modify(enable);
      EntryTouched(n);
    }

    method VisitRow(pass: RowPass, row: IntfRow)
      requires Valid() && row.name in intfs
      modifies intfs[row.name]
      ensures Valid() && PortsView() == old(PortsView())[row.name := ApplyRow(pass, old(PortsView())[row.name], row)]
    {
      hide PortsView, Modified, Configured, Divides;
      match pass
      case ModifyPass => ModifyEntry(row.name, HwEnable(row));
      case ConfigurePass => ConfigureEntry(row.name);
    }

    /** The loop over the interface rows: each row is matched to a port by its name. */
    method VisitRows(pass: RowPass, db: Db)
      requires Valid() && DbOk(db)
      modifies intfs.Values
      ensures Valid()
      ensures PortsView() == if pass.ModifyPass? then ModifyAll(db, old(PortsView()))
                             else ConfigureAll(db, old(PortsView()))
    {
      hide Valid, PortsView, RowsSoFar, ApplyRow, DbOk, ModifyAll, ConfigureAll;
      ghost var before := PortsView();
      ViewKeys();
      var todo := db.intfs.Keys;
      RowsStart(db, pass, before);
      while todo != {}
        invariant Valid() && todo <= db.intfs.Keys && PortsView().Keys == intfs.Keys
        invariant RowsSoFar(db, pass, before, PortsView(), todo)
      {
        var u :| u in todo;
        assert u in db.intfs;
        RowsOneMore(db, pass, before, PortsView(), todo, u);
        var row := db.intfs[u];
        assert row.name in intfs <==> row.name in PortsView().Keys;
        if row.name in intfs {
          EntryIn(row.name);
          VisitRow(pass, row);
          ViewKeys();
        }
        todo := todo - {u};
      }
      RowsDone(db, pass, before, PortsView());
    }

    lemma EntryIn(n: string)
      requires n in intfs
      ensures intfs[n] in intfs.Values
    {
    }

    // ---- ovsdb_access.c, the entry points ----

    /** `pmd_reconfigure`; w is what the YAML library answers if a pass is needed. */
    method Reconfigure(db: Db, w: World)
      requires Valid() && DbOk(db)
      modifies this, heap, intfs.Values
      ensures Valid() && View() == Rounds.Reconfigure(w, db, old(View()))
      ensures fresh(intfs.Values - old(intfs.Values))
    {
      hide Valid, PortsView, KeepLive, KeepLiveSubs, ProcessSubs, ModifyAll, DbOk;
      if db.seqno == idlSeqno {
        return;
      }
      SetSeqno(db.seqno);
      DropDeleted(db);
      PruneSubs(db);
      SetYaml(Opened(w, subs));
      ProcessAll(db);
      VisitRows(ModifyPass, db);
    }

    method SetYaml(w: World)
      requires Valid()
      modifies this`yaml
      ensures Valid() && PortsView() == old(PortsView()) && yaml == w
    {
      yaml := w;
      SameEntries();
    }

    method SetSeqno(seqno: nat)
      requires Valid()
      modifies this`idlSeqno
      ensures Valid() && PortsView() == old(PortsView()) && idlSeqno == seqno
    {
      idlSeqno := seqno;
      SameEntries();
    }

    method PruneSubs(db: Db)
      requires Valid()
      modifies this`subs
      ensures Valid() && PortsView() == old(PortsView()) && subs == KeepLiveSubs(db, old(subs))
    {
      DropDeletedSubs(db);
      SameEntries();
    }

    /** `pmd_configure`, on the empty tables set up before it. */
    method Initialise(db: Db)
      requires Valid() && DbOk(db) && View() == DaemonState(Tables(map[], map[]), db.seqno, false, yaml)
      modifies this`intfs, this`subs
      ensures Valid() && View() == InitState(yaml, db) && fresh(intfs.Values)
    {
      hide PortsView, Divides, ProcessSubs, ConfigureAll;
      EmptyTable();
      ProcessAll(db);
      VisitRows(ConfigurePass, db);
    }

    lemma EmptyTable()
      requires Valid() && PortsView() == map[]
      ensures intfs == map[]
    {
    }

    // ---- publication ----

    method ClearEntry(n: string)
      requires Valid() && n in intfs
      modifies intfs[n]
      ensures Valid() && PortsView() == old(PortsView())[n := old(PortsView())[n].(changed := false)]
    {
      hide Port.Valid, Port.View, Port.Others, Divides;
      ValidPort(n);
      intfs[n].ClearChanged();
      EntryTouched(n);
    }

    /** One turn of the publication loop; rows are the interface rows as this transaction has them. */
    method PublishEntry(n: string, rows: map<Uuid, IntfRow>) returns (rows': map<Uuid, IntfRow>)
      requires Valid() && n in intfs && intfs[n].uuid in rows && n in PortsView()
      modifies intfs[n]
      ensures Valid() && PortsView() == old(PortsView())[n := old(PortsView())[n].(changed := false)]
      ensures rows' == rows[intfs[n].uuid := rows[intfs[n].uuid].(pmInfo := PmInfo(old(PortsView())[n].cols))]
    {
      hide Port.Valid, Port.View, Port.Others, Divides, PmInfo;
      ValidPort(n);
      ViewAt(n);
      var info := intfs[n].BuildPmInfo();
      rows' := rows[intfs[n].uuid := rows[intfs[n].uuid].(pmInfo := info)];
      ClearEntry(n);
    }

    /** The publication loop of `pm_ovsdb_update`. */
    method PublishLoop(db: Db) returns (rows: map<Uuid, IntfRow>)
      requires Valid()
      modifies intfs.Values
      ensures Valid() && PortsView() == ClearFlags(db, old(PortsView()))
      ensures RowsPublished(db, old(PortsView()), rows)
    {
      hide Valid, PortsView, FlagsSoFar, InfoSoFar, RowsPublished, ClearFlags, PmInfo;
      ghost var before := PortsView();
      ViewKeys();
      rows := db.intfs;
      var todo := intfs.Keys;
      PubStart(db, before);
      while todo != {}
        invariant Valid() && todo <= intfs.Keys == before.Keys
        invariant FlagsSoFar(db, before, PortsView(), todo) && InfoSoFar(db, before, rows, todo)
      {
        var n :| n in todo;
        FlagsOneMore(db, before, PortsView(), todo, n);
        ViewAt(n);
        EntryIn(n);
        ChangedAt(n);
        if intfs[n].uuid !in db.intfs || !intfs[n].changed {
          InfoSkip(db, before, rows, todo, n);
        } else {
          InfoWrite(db, before, rows, todo, n);
          rows := PublishEntry(n, rows);
        }
        todo := todo - {n};
      }
      PubDone(db, before, PortsView(), rows);
    }

    lemma ChangedAt(n: string)
      requires Valid() && n in intfs
      ensures n in PortsView() && PortsView()[n].changed == intfs[n].changed
    {
    }

    method SetCurHw()
      requires Valid()
      modifies this`curHwSet
      ensures Valid() && PortsView() == old(PortsView()) && curHwSet
    {
      curHwSet := true;
      SameEntries();
    }

    /** `pm_ovsdb_update`: from any tables it does what the publication relation allows, and from
        tables whose ports go by the names of their rows exactly the modelled publication. */
    method OvsdbUpdate(db: Db) returns (db': Db)
      requires Valid()
      modifies this, intfs.Values
      ensures Valid() && Publishes(Sys(db, old(View())), Sys(db', View()))
      ensures RowsMatch(db, old(PortsView())) ==> Sys(db', View()) == Publish(Sys(db, old(View())))
      ensures db' == db.(intfs := db'.intfs, daemons := if !old(curHwSet) && "ops-pmd" in db.daemons
                                                        then db.daemons["ops-pmd" := 1] else db.daemons)
      ensures curHwSet <==> old(curHwSet) || "ops-pmd" in db.daemons
      ensures forall n :: n in old(PortsView()) ==>
                && n in PortsView()
                && (PortsView()[n].changed <==> old(PortsView())[n].changed && old(PortsView())[n].uuid !in db.intfs)
      ensures intfs == old(intfs)
    {
      hide PortsView, Divides, RowsMatch, ClearFlags, PublishRows, RowsPublished;
      ghost var s := Sys(db, View());
      var rows := PublishLoop(db);
      FlagsCleared(db, s.st.tables.ports);
      db' := db.(intfs := rows);
      if !curHwSet && DAEMON_NAME in db.daemons {
        db' := db'.(daemons := db.daemons[DAEMON_NAME := 1]);
        SetCurHw();
      }
      if RowsMatch(db, s.st.tables.ports) {
        PublishDetermined(s, Sys(db', View()));
      }
    }

    /** `pmd_run`: without the lock nothing happens; with it, from any tables, the pass and the scan
        lead to the state that is published, and in every state a run can reach the outcome is the
        modelled round. */
    method Run(db: Db, lock: Lock, w: World, pages: map<string, Page>) returns (db': Db)
      requires Valid() && DbOk(db)
      modifies this, heap, intfs.Values
      ensures Valid() && (!lock.Held? ==> db' == db && View() == old(View()))
      ensures lock.Held? ==> Publishes(BeforePublish(w, Sys(db, old(View())), pages), Sys(db', View()))
      ensures Inv(Sys(db, old(View()))) ==> Sys(db', View()) == Round(w, Sys(db, old(View())), lock, pages)
      ensures fresh(intfs.Values - old(intfs.Values))
    {
      hide PortsView, Divides, Inv, ReadAll, Rounds.Reconfigure, Publish, Publishes, RowsMatch, DbOk;
      if lock.Contended? || lock.NotHeld? {
        return db;
      }
      ghost var s := Sys(db, View());
      Reconfigure(db, w);
      ReadState(pages);
      if Inv(s) {
        ReadMatches(w, s, pages);
      }
      db' := OvsdbUpdate(db);
    }

    /** When the round publishes, every port with a live row goes by that row's name. */
    lemma ReadMatches(w: World, s: Sys, pages: map<string, Page>)
      requires Inv(s)
      ensures DbOk(s.db) && RowsMatch(s.db, ReadAll(pages, Rounds.Reconfigure(w, s.db, s.st).tables.ports))
    {
      hide InSync, Rounds.Reconfigure, ReadModule, PageFor, Consistent, UuidsUsed, Published, DbOk;
      PassPlaces(w, s);
      var t := AfterPass(w, s);
      forall n | n in t.ports ensures s.db.intfs[t.ports[n].uuid].name == n {
        assert Placed(s.db, n, t.ports[n]);
      }
      forall n | n in t.ports ensures ReadModule(t.ports[n], PageFor(pages, n)).uuid == t.ports[n].uuid {
        ReadCases(t.ports[n], PageFor(pages, n));
      }
    }
  }

  /** The main loop: initialisation, then any number of rounds, with the database changing between
      them. The daemon follows the run that the events describe, and at its end the live heap blocks
      are exactly those the ports in the table own. Since every prefix of a run is a run, this holds
      at every earlier point too. */
  method MainLoop(events: seq<Event>, first: Db, w: World, ghost trace: seq<Sys>) returns (daemon: Daemon, db: Db)
    requires IsRun(trace, events) && trace[0].db == first && trace[0].st.yaml == w
    ensures daemon.Valid() && Sys(db, daemon.View()) == trace[|events|]
  {
    hide Daemon.Valid, Daemon.View, DbOk, Inv, InitState, EnvStep, Round, Publishes, BeforePublish;
    var heap := new Heap();
    daemon := new Daemon(w, heap, first.seqno);
    db := first;
    daemon.YamlShown();
    daemon.Initialise(db);
    for i := 0 to |events|
      invariant daemon.Valid() && Sys(db, daemon.View()) == trace[i]
      invariant fresh(daemon) && fresh(daemon.heap) && fresh(daemon.intfs.Values)
    {
      RunInv(trace, events, i);
      assert Step(trace[i], events[i], trace[i + 1]);
      match events[i]
      case Env(next) =>
        db := next;
      case Poll(lock, answers, pages) =>
        db := daemon.Run(db, lock, answers, pages);
    }
  }
}
