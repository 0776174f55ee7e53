/** Properties of whole runs: any initial database, any sequence of row additions, deletions,
    recreations and edits, any lock history, any pages read from the modules. */
module Runs {
  import opened Bits
  import opened PortModel
  import opened SerialId
  import opened Rounds
  import opened Passes

  /** The row of every parsed port shows the port's columns. */
  ghost predicate Published(db: Db, ports: map<string, PortState>)
  {
    forall n :: n in ports && ports[n].present && ports[n].uuid in db.intfs ==>
      db.intfs[ports[n].uuid].pmInfo == PmInfo(ports[n].cols)
  }

  /** Table entries refer to rows that exist or once existed. */
  ghost predicate UuidsUsed(db: Db, t: Tables)
  {
    && (forall n :: n in t.ports ==> t.ports[n].uuid in db.usedIntfs)
    && (forall n :: n in t.subs ==> t.subs[n] in db.usedSubs)
  }

  /** The invariant between steps. */
  ghost predicate Inv(s: Sys)
  {
    && DbOk(s.db)
    && Consistent(s.db, s.st.tables)
    && UuidsUsed(s.db, s.st.tables)
    && Published(s.db, s.st.tables.ports)
    && s.st.seqno <= s.db.seqno
    && (s.st.seqno == s.db.seqno ==> InSync(s.st.yaml, s.db, s.st.tables))
  }

  // ---- environment steps ----

  /** Two databases with the same names and configuration. */
  ghost predicate SameConfig(db: Db, db': Db)
  {
    && db'.intfs.Keys == db.intfs.Keys && db'.subs == db.subs
    && (forall u :: u in db.intfs ==>
          db'.intfs[u].name == db.intfs[u].name && db'.intfs[u].config == db.intfs[u].config)
    && db'.usedIntfs >= db.usedIntfs && db'.usedSubs >= db.usedSubs
  }

  lemma SameConfigOk(db: Db, db': Db)
    requires DbOk(db) && SameConfig(db, db')
    ensures DbOk(db')
  {
  }

  lemma SameConfigServed(w: World, db: Db, db': Db, sub: SubRow, ports: map<string, PortState>)
    requires SameConfig(db, db') && ListsOk(db, sub) && ListsOk(db', sub)
    requires AllServed(w, db, sub, |sub.interfaces|, ports)
    ensures AllServed(w, db', sub, |sub.interfaces|, ports)
  {
    forall j | 0 <= j < |sub.interfaces| ensures Served(w, db', sub, j, ports) {
      assert Served(w, db, sub, j, ports);
      assert sub.interfaces[j] in db.intfs;
    }
  }

  lemma SameConfigPort(db: Db, db': Db, n: string, p: PortState)
    requires SameConfig(db, db') && Placed(db, n, p) && HwMatches(db, p)
    ensures Placed(db', n, p) && HwMatches(db', p)
  {
  }

  lemma SameConfigSync(w: World, db: Db, db': Db, t: Tables)
    requires DbOk(db) && DbOk(db') && SameConfig(db, db') && InSync(w, db, t)
    ensures InSync(w, db', t)
  {
    hide Placed, HwMatches, AllServed;
    forall n | n in t.ports ensures Placed(db', n, t.ports[n]) && HwMatches(db', t.ports[n]) {
      SameConfigPort(db, db', n, t.ports[n]);
    }
    forall i | 0 <= i < |db'.subs| && db'.subs[i].name !in w.yamlBad
      ensures AllServed(w, db', db'.subs[i], |db'.subs[i].interfaces|, t.ports)
    {
      SameConfigServed(w, db, db', db.subs[i], t.ports);
    }
  }

  lemma EnvConsistent(db: Db, db': Db, t: Tables)
    requires DbOk(db) && Consistent(db, t) && UuidsUsed(db, t) && EnvStep(db, db')
    ensures Consistent(db', t) && UuidsUsed(db', t)
  {
  }

  lemma EnvKeepsInv(s: Sys, db': Db)
    requires Inv(s) && EnvStep(s.db, db')
    ensures Inv(s.(db := db'))
  {
    hide Consistent, InSync, DbOk;
    EnvConsistent(s.db, db', s.st.tables);
    if s.st.seqno == db'.seqno {
      SameConfigSync(s.st.yaml, s.db, db', s.st.tables);
    }
  }

  // ---- one port through a round ----

  /** A port at the end of a locked round in which the pass left it as p. */
  ghost function Final(p: PortState, page: Page): PortState
  {
    ReadModule(p, page).(changed := false)
  }

  /** A port is read if its socket is known and it has not been read before; then its columns are
      those of the page and it is marked; otherwise nothing happens. */
  lemma ReadCases(p: PortState, page: Page)
    requires PortOk(p)
    ensures PortOk(Final(p, page)) && Final(p, page).uuid == p.uuid && Final(p, page).instance == p.instance
    ensures Final(p, page).hwEnable == p.hwEnable
    ensures Final(p, page).device == p.device && Final(p, page).subsystem == p.subsystem
    ensures Final(p, page).present <==> Known(p.device.socket)
    ensures ReadModule(p, page).changed <==> Known(p.device.socket) && !p.present
    ensures ReadModule(p, page).changed ==> Final(p, page).cols == PageCols(p.device.socket, page)
    ensures ReadModule(p, page).changed ==> Final(p, page).a2Requested == WantsA2(p.device.socket, page)
    ensures ReadModule(p, page).changed ==> Final(p, page).optical == Classify(p.device.socket, page).optical
    ensures !ReadModule(p, page).changed ==> ReadModule(p, page) == p && Final(p, page) == p
    ensures Final(p, page).cols == ReadModule(p, page).cols && ReadModule(p, page).uuid == p.uuid
  {
    hide PageCols, Classify, WantsA2;
    if Known(p.device.socket) && !p.present {
      assert Parse(p, page).0 == Parsed(p, page);
      assert map[] - CLEARED + PageCols(p.device.socket, page) == PageCols(p.device.socket, page);
    }
  }

  // ---- rounds ----

  /** The tables as the pass of this round leaves them. */
  ghost function AfterPass(w: World, s: Sys): Tables
    requires DbOk(s.db)
  {
    Reconfigure(w, s.db, s.st).tables
  }

  /** The library as this round leaves it. */
  ghost function HandleAfter(w: World, s: Sys): World
    requires DbOk(s.db)
  {
    Reconfigure(w, s.db, s.st).yaml
  }

  lemma SyncedSurvive(w: World, db: Db, ports: map<string, PortState>)
    requires AllPlaced(db, ports)
    ensures Survive(w, db, ports, ports)
  {
  }

  /** With or without the shortcut, the pass ends in sync and keeps live ports. */
  lemma PassSyncs(w: World, s: Sys)
    requires Inv(s)
    ensures InSync(HandleAfter(w, s), s.db, AfterPass(w, s))
    ensures Survive(HandleAfter(w, s), s.db, s.st.tables.ports, AfterPass(w, s).ports)
  {
    hide Consistent, AllPlaced, Survive, SubsExact, HwMatches, AllServed, FullPass;
    if s.db.seqno == s.st.seqno {
      SyncedSurvive(s.st.yaml, s.db, s.st.tables.ports);
    } else {
      FullPassSyncs(w, s.db, s.st);
    }
  }

  lemma RoundPort(w: World, s: Sys, pages: map<string, Page>, n: string)
    requires DbOk(s.db) && n in AfterPass(w, s).ports && Placed(s.db, n, AfterPass(w, s).ports[n])
    ensures var r := Round(w, s, Held, pages).st.tables.ports;
            n in r && r[n] == Final(AfterPass(w, s).ports[n], PageFor(pages, n))
  {
  }

  lemma PassScalars(w: World, db: Db, st: DaemonState)
    requires DbOk(db)
    ensures Reconfigure(w, db, st).seqno == db.seqno && Reconfigure(w, db, st).curHwSet == st.curHwSet
  {
  }

  lemma RoundKeys(w: World, s: Sys, pages: map<string, Page>)
    requires DbOk(s.db)
    ensures var r := Round(w, s, Held, pages);
            && r.st.tables.ports.Keys == AfterPass(w, s).ports.Keys
            && r.st.tables.subs == AfterPass(w, s).subs
            && SameConfig(s.db, r.db)
            && r.st.seqno == s.db.seqno == r.db.seqno && r.st.yaml == HandleAfter(w, s)
  {
    hide ReadModule, PageFor, Reconfigure, PmInfo, Pending;
    PassScalars(w, s.db, s.st);
    var b := BeforePublish(w, s, pages);
    assert b.st.tables.ports.Keys == AfterPass(w, s).ports.Keys;
    assert ClearFlags(s.db, b.st.tables.ports).Keys == b.st.tables.ports.Keys;
    assert PublishRows(s.db, b.st.tables.ports).Keys == s.db.intfs.Keys;
  }

  /** The row of interface u through a locked round: rewritten exactly when its port was read in
      this round, and then with the columns of the page read. */
  lemma RoundRow(w: World, s: Sys, pages: map<string, Page>, n: string)
    requires DbOk(s.db) && n in AfterPass(w, s).ports && Placed(s.db, n, AfterPass(w, s).ports[n])
    ensures var p, r := AfterPass(w, s).ports[n], Round(w, s, Held, pages).db.intfs;
            && p.uuid in r
            && (Pending(s.db, BeforePublish(w, s, pages).st.tables.ports, p.uuid)
                <==> Known(p.device.socket) && !p.present)
            && r[p.uuid].pmInfo == if Known(p.device.socket) && !p.present
                                   then PmInfo(PageCols(p.device.socket, PageFor(pages, n)))
                                   else s.db.intfs[p.uuid].pmInfo
  {
    hide ReadModule, PageFor, Reconfigure, PageCols, PortOk, PmInfo, ClearFlags;
    var p := AfterPass(w, s).ports[n];
    ReadCases(p, PageFor(pages, n));
    var b := BeforePublish(w, s, pages).st.tables.ports;
    assert b[n] == ReadModule(p, PageFor(pages, n));
    assert b[n].uuid == p.uuid && s.db.intfs[p.uuid].name == n;
  }

  /** A port that survives a pass already read was read before it. */
  lemma PresentBefore(w: World, s: Sys, n: string)
    requires Inv(s) && n in AfterPass(w, s).ports && AfterPass(w, s).ports[n].present
    ensures n in s.st.tables.ports && s.st.tables.ports[n].uuid in s.db.intfs
    ensures SameModule(AfterPass(w, s).ports[n], s.st.tables.ports[n])
  {
    hide InSync, AfterPass, Consistent, DbOk, Published, UuidsUsed;
    PassSyncs(w, s);
  }

  lemma RoundPublishes(w: World, s: Sys, pages: map<string, Page>, n: string)
    requires Inv(s) && n in AfterPass(w, s).ports && Placed(s.db, n, AfterPass(w, s).ports[n])
    ensures var r := Round(w, s, Held, pages);
            && n in r.st.tables.ports && r.st.tables.ports[n].uuid in r.db.intfs
            && (r.st.tables.ports[n].present <==> Known(r.st.tables.ports[n].device.socket))
            && (r.st.tables.ports[n].present ==>
                  r.db.intfs[r.st.tables.ports[n].uuid].pmInfo == PmInfo(r.st.tables.ports[n].cols))
  {
    hide Round, AfterPass, PmInfo, PageCols, PortOk, Consistent, InSync, DbOk, UuidsUsed, PageFor, ReadModule, Final;
    var p := AfterPass(w, s).ports[n];
    ReadCases(p, PageFor(pages, n));
    RoundPort(w, s, pages, n);
    RoundRow(w, s, pages, n);
    if p.present {
      PresentBefore(w, s, n);
    }
  }

  lemma SyncConsistent(w: World, db: Db, t: Tables)
    requires DbOk(db) && InSync(w, db, t)
    ensures Consistent(db, t) && UuidsUsed(db, t)
  {
  }

  lemma FinalTables(w: World, db: Db, t: Tables, t': Tables, pages: map<string, Page>)
    requires DbOk(db) && InSync(w, db, t) && t'.subs == t.subs && t'.ports.Keys == t.ports.Keys
    requires forall n :: n in t.ports ==> n in t'.ports && t'.ports[n] == Final(t.ports[n], PageFor(pages, n))
    ensures InSync(w, db, t')
  {
    hide AllServed, SubsExact, Final, PageFor;
    forall n | n in t'.ports ensures Placed(db, n, t'.ports[n]) && HwMatches(db, t'.ports[n]) {
      assert n in t.ports.Keys;
      assert Placed(db, n, t.ports[n]) && HwMatches(db, t.ports[n]);
      ReadCases(t.ports[n], PageFor(pages, n));
    }
    forall i | 0 <= i < |db.subs| && db.subs[i].name !in w.yamlBad
      ensures AllServed(w, db, db.subs[i], |db.subs[i].interfaces|, t'.ports)
    {
      ServedByKeys(w, w, db, db.subs[i], t.ports, t'.ports);
    }
  }

  /** After a locked round the tables are in sync, and every port with a known socket has been read
      and its row shows its columns; no port is marked. */
  ghost predicate Settled(s: Sys)
  {
    && DbOk(s.db) && s.st.seqno == s.db.seqno && InSync(s.st.yaml, s.db, s.st.tables)
    && Published(s.db, s.st.tables.ports)
    && (forall n :: n in s.st.tables.ports ==>
          (s.st.tables.ports[n].present <==> Known(s.st.tables.ports[n].device.socket)))
  }

  lemma LockedRoundSettles(w: World, s: Sys, pages: map<string, Page>)
    requires Inv(s)
    ensures Settled(Round(w, s, Held, pages))
  {
    hide Round, AfterPass, HandleAfter, InSync, DbOk, Consistent, UuidsUsed, Placed, Published, PageFor, Final,
      SameConfig, Survive, PmInfo;
    var r := Round(w, s, Held, pages);
    var t, h := AfterPass(w, s), HandleAfter(w, s);
    PassSyncs(w, s);
    RoundKeys(w, s, pages);
    SameConfigOk(s.db, r.db);
    SyncPlaced(h, s.db, t);
    forall n | n in t.ports
      ensures n in r.st.tables.ports && r.st.tables.ports[n] == Final(t.ports[n], PageFor(pages, n))
    {
      RoundPort(w, s, pages, n);
    }
    FinalTables(h, s.db, t, r.st.tables, pages);
    SameConfigSync(h, s.db, r.db, r.st.tables);
    forall n | n in r.st.tables.ports
      ensures r.st.tables.ports[n].uuid in r.db.intfs
      ensures r.st.tables.ports[n].present <==> Known(r.st.tables.ports[n].device.socket)
      ensures r.st.tables.ports[n].present ==>
                r.db.intfs[r.st.tables.ports[n].uuid].pmInfo == PmInfo(r.st.tables.ports[n].cols)
    {
      assert n in r.st.tables.ports.Keys;
      RoundPublishes(w, s, pages, n);
    }
    assert Published(r.db, r.st.tables.ports) by { PublishedIntro(r.db, r.st.tables.ports); }
  }

  lemma PublishedIntro(db: Db, ports: map<string, PortState>)
    requires forall n :: n in ports ==> ports[n].uuid in db.intfs
    requires forall n :: n in ports && ports[n].present ==> db.intfs[ports[n].uuid].pmInfo == PmInfo(ports[n].cols)
    ensures Published(db, ports)
  {
  }

  lemma SyncPlaced(w: World, db: Db, t: Tables)
    requires DbOk(db) && InSync(w, db, t)
    ensures forall n :: n in t.ports ==> Placed(db, n, t.ports[n])
  {
  }

  lemma PassPlaces(w: World, s: Sys)
    requires Inv(s)
    ensures forall n :: n in AfterPass(w, s).ports ==> Placed(s.db, n, AfterPass(w, s).ports[n])
  {
    hide AfterPass, HandleAfter, InSync, DbOk, Placed, Survive;
    PassSyncs(w, s);
    SyncPlaced(HandleAfter(w, s), s.db, AfterPass(w, s));
  }

  /** Rounds keep the database well formed, so a run needs this of its first database only. */
  lemma RoundKeepsDb(w: World, s: Sys, lock: Lock, pages: map<string, Page>)
    requires DbOk(s.db)
    ensures DbOk(Round(w, s, lock, pages).db)
  {
    hide DbOk, SameConfig, AfterPass;
    if lock.Held? {
      RoundKeys(w, s, pages);
      SameConfigOk(s.db, Round(w, s, lock, pages).db);
    }
  }

  lemma StepKeepsInv(s: Sys, e: Event, s': Sys)
    requires Inv(s) && Step(s, e, s')
    ensures Inv(s')
    ensures e.Poll? && e.lock.Held? ==> Settled(s')
  {
    hide EnvStep, DbOk, InSync, Consistent, UuidsUsed, Published, Publish, BeforePublish;
    match e
    case Env(db') =>
      EnvKeepsInv(s, db');
    case Poll(lock, w, pages) =>
      if lock.Held? {
        LockedRoundSettles(w, s, pages);
        SyncConsistent(s'.st.yaml, s'.db, s'.st.tables);
      }
  }

  lemma InitInv(w: World, db: Db)
    requires DbOk(db)
    ensures Inv(Sys(db, InitState(w, db)))
  {
    hide InSync, Consistent, UuidsUsed;
    InitSyncs(w, db);
    SyncConsistent(w, db, InitState(w, db).tables);
  }

  lemma {:induction false} RunInv(trace: seq<Sys>, events: seq<Event>, i: nat)
    requires IsRun(trace, events) && i < |trace|
    ensures Inv(trace[i])
  {
    hide Inv, Step, InitState, DbOk;
    if i == 0 {
      InitInv(trace[0].st.yaml, trace[0].db);
      assert trace[0] == Sys(trace[0].db, trace[0].st);
    } else {
      RunInv(trace, events, i - 1);
      StepKeepsInv(trace[i - 1], events[i - 1], trace[i]);
    }
  }
}
