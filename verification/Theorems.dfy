/** The main results about runs of the daemon. */
module Theorems {
  import opened Bits
  import opened PortModel
  import opened SerialId
  import opened Rounds
  import opened Passes
  import opened Runs

  /** Step i is a round in which the daemon holds the lock. */
  ghost predicate Locked(events: seq<Event>, i: int)
  {
    0 <= i < |events| && events[i].Poll? && events[i].lock.Held?
  }

  lemma LockedStep(trace: seq<Sys>, events: seq<Event>, i: nat)
    requires IsRun(trace, events) && Locked(events, i)
    ensures |trace| == |events| + 1 && DbOk(trace[i].db) && Inv(trace[i])
    ensures trace[i + 1] == Round(events[i].w, trace[i], Held, events[i].pages) && Settled(trace[i + 1])
  {
    hide Inv, Settled, Publish, BeforePublish, InitState, DbOk;
    RunInv(trace, events, i);
    assert Step(trace[i], events[i], trace[i + 1]);
    StepKeepsInv(trace[i], events[i], trace[i + 1]);
  }

  // ---- synchronisation ----

  /** Step j runs the full pass. */
  ghost predicate PassRuns(trace: seq<Sys>, events: seq<Event>, j: int)
  {
    Locked(events, j) && j < |trace| && trace[j].db.seqno != trace[j].st.seqno
  }

  /** The subsystems a full pass from this state finds entered: their rows are still there. */
  ghost function Entered(s: Sys): set<string>
  {
    set n | n in s.st.tables.subs && SubLive(s.db, s.st.tables.subs[n])
  }

  /** The library in a full pass, spelled out. */
  lemma HandleExact(w: World, s: Sys)
    ensures PassHandle(w, s.db, s.st) == World(w.yaml, w.yamlBad - Entered(s))
  {
    hide SubLive;
    assert KeepLiveSubs(s.db, s.st.tables.subs).Keys == Entered(s);
  }

  /** Every port has its live row, and remembers the laser as on exactly if the row's configuration
      has the text "true" under "enable". */
  ghost predicate LasersAsAsked(s: Sys)
  {
    forall n :: n in s.st.tables.ports ==>
      var p, rows := s.st.tables.ports[n], s.db.intfs;
      && p.uuid in rows && rows[p.uuid].name == n
      && (p.hwEnable <==> "enable" in rows[p.uuid].config && rows[p.uuid].config["enable"] == "true")
  }

  /** After every locked round the tables agree with the database, however many rows were added,
      deleted, recreated under the same name or edited since the last one. */
  lemma TablesFollowDatabase(trace: seq<Sys>, events: seq<Event>, i: nat)
    requires IsRun(trace, events) && Locked(events, i)
    ensures i + 1 < |trace| && DbOk(trace[i + 1].db)
    ensures InSync(trace[i + 1].st.yaml, trace[i + 1].db, trace[i + 1].st.tables)
    ensures LasersAsAsked(trace[i + 1])
    ensures trace[i + 1].st.yaml == if PassRuns(trace, events, i)
                                    then World(events[i].w.yaml, events[i].w.yamlBad - Entered(trace[i]))
                                    else trace[i].st.yaml
  {
    hide Round, IsRun, DbOk, HandleAfter, AfterPass, PassHandle, Entered, SameConfig, AllServed, SubsExact, PortOk;
    LockedStep(trace, events, i);
    HandleCases(events[i].w, trace[i]);
    HandleExact(events[i].w, trace[i]);
    RoundKeys(events[i].w, trace[i], events[i].pages);
  }

  /** The full pass of step j can create this port: the database it sees lists the port's interface
      and the library, as it is in that pass, describes it. */
  ghost predicate PassDescribes(trace: seq<Sys>, events: seq<Event>, j: int, n: string, p: PortState)
  {
    && PassRuns(trace, events, j)
    && Described(PassHandle(events[j].w, trace[j].db, trace[j].st), trace[j].db, n, p)
  }

  /** Through one step a port either is there already or is described by the pass of that step. */
  lemma StepOrigin(trace: seq<Sys>, events: seq<Event>, i: nat, n: string)
    requires IsRun(trace, events) && i < |events| && n in trace[i + 1].st.tables.ports
    ensures var p, before := trace[i + 1].st.tables.ports[n], trace[i].st.tables.ports;
            || PassDescribes(trace, events, i, n, p)
            || (n in before && before[n].uuid == p.uuid
                && before[n].device == p.device && before[n].subsystem == p.subsystem)
  {
    hide DbOk, InSync, Inv, Settled, Publish, BeforePublish, AfterPass, ReadModule, PageFor, Described, FullPass,
      EnvStep, InitState;
    assert Step(trace[i], events[i], trace[i + 1]);
    if Locked(events, i) {
      LockedStep(trace, events, i);
      var s, w := trace[i], events[i].w;
      PassOrigin(w, s, events[i].pages, n);
    }
  }

  lemma PassOrigin(w: World, s: Sys, pages: map<string, Page>, n: string)
    requires Inv(s) && n in Round(w, s, Held, pages).st.tables.ports
    ensures var p, before := Round(w, s, Held, pages).st.tables.ports[n], s.st.tables.ports;
            || (s.db.seqno != s.st.seqno && Described(PassHandle(w, s.db, s.st), s.db, n, p))
            || (n in before && before[n].uuid == p.uuid
                && before[n].device == p.device && before[n].subsystem == p.subsystem)
  {
    hide DbOk, InSync, Consistent, UuidsUsed, Published, Round, AfterPass, HandleAfter, ReadModule, PageFor,
      Described, PassHandle;
    var r := Round(w, s, Held, pages);
    PassSyncs(w, s);
    PassPlaces(w, s);
    RoundKeys(w, s, pages);
    assert n in r.st.tables.ports.Keys;
    var p := AfterPass(w, s).ports[n];
    RoundPort(w, s, pages, n);
    ReadCases(p, PageFor(pages, n));
    HandleCases(w, s);
    if s.db.seqno != s.st.seqno && Described(HandleAfter(w, s), s.db, n, p) {
      DescribedStill(HandleAfter(w, s), s.db, n, p, r.st.tables.ports[n]);
    }
  }

  lemma HandleCases(w: World, s: Sys)
    requires DbOk(s.db)
    ensures s.db.seqno == s.st.seqno ==> AfterPass(w, s) == s.st.tables && HandleAfter(w, s) == s.st.yaml
    ensures s.db.seqno != s.st.seqno ==> HandleAfter(w, s) == PassHandle(w, s.db, s.st)
  {
  }

  /** At every point of a run each port was created by initialisation or by the full pass of an
      earlier step: that pass saw the port's interface, under the port's name, listed by the port's
      subsystem, and found the port's device in that subsystem's description. */
  lemma {:induction false} PortOrigin(trace: seq<Sys>, events: seq<Event>, k: nat, n: string)
    requires IsRun(trace, events) && k < |trace| && n in trace[k].st.tables.ports
    ensures var p := trace[k].st.tables.ports[n];
            || Described(trace[0].st.yaml, trace[0].db, n, p)
            || exists j :: 0 <= j < k && PassDescribes(trace, events, j, n, p)
  {
    hide DbOk, Step, InitState, Described, PassHandle;
    if k == 0 {
      InitSyncs(trace[0].st.yaml, trace[0].db);
    } else {
      var p := trace[k].st.tables.ports[n];
      StepOrigin(trace, events, k - 1, n);
      if !PassDescribes(trace, events, k - 1, n, p) {
        PortOrigin(trace, events, k - 1, n);
        var q := trace[k - 1].st.tables.ports[n];
        if Described(trace[0].st.yaml, trace[0].db, n, q) {
          DescribedStill(trace[0].st.yaml, trace[0].db, n, q, p);
        } else {
          var j :| 0 <= j < k - 1 && PassDescribes(trace, events, j, n, q);
          DescribedStill(PassHandle(events[j].w, trace[j].db, trace[j].st), trace[j].db, n, q, p);
          assert PassDescribes(trace, events, j, n, p);
        }
      }
    }
  }

  /** A pass over this database that finds these subsystems entered gives interface u a port: some
      subsystem lists it, is entered or has its files read without failure, and the library finds a
      pluggable device for it. */
  ghost predicate Serves(w: World, entered: set<string>, db: Db, u: Uuid)
  {
    u in db.intfs && exists i :: 0 <= i < |db.subs| && Offers(w, entered, db.subs[i], u, db.intfs[u].name)
  }

  predicate Offers(w: World, entered: set<string>, sub: SubRow, u: Uuid, name: string)
  {
    && u in sub.interfaces && (sub.name in entered || sub.name !in w.yamlBad)
    && (sub.name, name) in w.yaml && w.yaml[(sub.name, name)].pluggable
  }

  /** Step j runs the full pass, and that serves u. */
  ghost predicate PassServes(trace: seq<Sys>, events: seq<Event>, j: int, u: Uuid)
  {
    PassRuns(trace, events, j) && Serves(events[j].w, Entered(trace[j]), trace[j].db, u)
  }

  ghost predicate SomeServes(h: World, db: Db, u: Uuid, name: string)
  {
    exists i :: 0 <= i < |db.subs| && SubServes(h, db.subs[i], u, name)
  }

  /** Serving in terms of the library after the reads of the pass. */
  lemma ServesByHandle(w: World, entered: set<string>, db: Db, u: Uuid)
    ensures Serves(w, entered, db, u) <==>
            u in db.intfs && SomeServes(World(w.yaml, w.yamlBad - entered), db, u, db.intfs[u].name)
  {
    var h := World(w.yaml, w.yamlBad - entered);
    if u in db.intfs {
      var name := db.intfs[u].name;
      forall i | 0 <= i < |db.subs|
        ensures Offers(w, entered, db.subs[i], u, name) <==> SubServes(h, db.subs[i], u, name)
      {
      }
    }
  }

  /** Some port in the table belongs to interface u. */
  ghost predicate HasPort(t: Tables, u: Uuid)
  {
    exists n :: n in t.ports && t.ports[n].uuid == u
  }

  lemma DescribedServes(w: World, entered: set<string>, db: Db, n: string, p: PortState)
    requires Described(World(w.yaml, w.yamlBad - entered), db, n, p)
    ensures Serves(w, entered, db, p.uuid)
  {
    hide Serves, SubServes;
    ServesByHandle(w, entered, db, p.uuid);
    var h := World(w.yaml, w.yamlBad - entered);
    var i :| FirstServer(h, db, i, p.uuid, n);
    assert SubServes(h, db.subs[i], p.uuid, n);
  }

  /** In synchronised tables a served interface has its own port. */
  lemma ServedHasPort(h: World, db: Db, t: Tables, i: nat, u: Uuid)
    requires DbOk(db) && InSync(h, db, t) && u in db.intfs
    requires i < |db.subs| && SubServes(h, db.subs[i], u, db.intfs[u].name)
    ensures HasPort(t, u)
  {
    hide PortOk, HwMatches, SubsExact;
    var name := db.intfs[u].name;
    var j :| 0 <= j < |db.subs[i].interfaces| && db.subs[i].interfaces[j] == u;
    assert AllServed(h, db, db.subs[i], |db.subs[i].interfaces|, t.ports);
    assert Served(h, db, db.subs[i], j, t.ports);
    assert Placed(db, name, t.ports[name]);
  }

  /** As long as u lives it has its port. */
  ghost predicate Holds(s: Sys, u: Uuid)
  {
    u in s.db.usedIntfs && (u in s.db.intfs ==> HasPort(s.st.tables, u))
  }

  lemma HoldsThroughRound(w: World, s: Sys, pages: map<string, Page>, u: Uuid)
    requires Inv(s) && Holds(s, u)
    ensures Holds(Round(w, s, Held, pages), u)
  {
    hide DbOk, InSync, Consistent, UuidsUsed, Published, Round, AfterPass, HandleAfter, ReadModule, PageFor,
      Described;
    var r := Round(w, s, Held, pages);
    RoundKeys(w, s, pages);
    assert u in r.db.intfs <==> u in r.db.intfs.Keys;
    if u in r.db.intfs {
      var n :| n in s.st.tables.ports && s.st.tables.ports[n].uuid == u;
      PassSyncs(w, s);
      PassPlaces(w, s);
      SameModuleShow(AfterPass(w, s).ports[n], s.st.tables.ports[n]);
      RoundPort(w, s, pages, n);
      ReadCases(AfterPass(w, s).ports[n], PageFor(pages, n));
    }
  }

  lemma HoldsStep(s: Sys, e: Event, s': Sys, u: Uuid)
    requires Inv(s) && Step(s, e, s') && Holds(s, u)
    ensures Holds(s', u)
  {
    hide InSync, Consistent, Published, UuidsUsed, Publish, BeforePublish, DbOk, HasPort;
    if e.Poll? && e.lock.Held? {
      HoldsThroughRound(e.w, s, e.pages, u);
    }
  }

  lemma {:induction false} HoldsForever(trace: seq<Sys>, events: seq<Event>, j: nat, k: nat, u: Uuid)
    requires IsRun(trace, events) && j <= k < |trace| && Holds(trace[j], u)
    ensures Holds(trace[k], u)
    decreases k
  {
    hide Holds, Inv, Step, InitState, DbOk;
    if j < k {
      HoldsForever(trace, events, j, k - 1, u);
      RunInv(trace, events, k - 1);
      HoldsStep(trace[k - 1], events[k - 1], trace[k], u);
    }
  }

  /** A state in sync after a pass in which u was served. */
  lemma ServedHolds(s: Sys, w: World, entered: set<string>, db: Db, u: Uuid)
    requires DbOk(s.db) && InSync(s.st.yaml, s.db, s.st.tables) && SameConfig(db, s.db)
    requires s.st.yaml == World(w.yaml, w.yamlBad - entered) && Serves(w, entered, db, u)
    ensures Holds(s, u)
  {
    hide InSync, Serves, HasPort, SubServes;
    ServesByHandle(w, entered, db, u);
    assert u in s.db.intfs.Keys;
    assert u in s.db.usedIntfs;
    var i :| 0 <= i < |db.subs| && SubServes(s.st.yaml, db.subs[i], u, db.intfs[u].name);
    ServedHasPort(s.st.yaml, s.db, s.st.tables, i, u);
  }

  /** A pass that serves u leaves it with its port. */
  lemma PassGivesPort(trace: seq<Sys>, events: seq<Event>, j: nat, u: Uuid)
    requires IsRun(trace, events) && PassServes(trace, events, j, u)
    ensures j + 1 < |trace| && Holds(trace[j + 1], u)
  {
    hide IsRun, DbOk, InSync, Inv, Round, PassHandle, Serves, Holds, HandleAfter, AfterPass, SameConfig, Published,
      Entered;
    LockedStep(trace, events, j);
    var s := trace[j];
    HandleCases(events[j].w, s);
    HandleExact(events[j].w, s);
    RoundKeys(events[j].w, s, events[j].pages);
    ServedHolds(trace[j + 1], events[j].w, Entered(s), s.db, u);
  }

  /** Exactly the ports there are: at every point of a run a live interface has a port if and only
      if initialisation or the full pass of some earlier step saw it listed by a subsystem, readable
      or entered before, whose description calls it pluggable. What has happened to that listing
      since does not matter. */
  lemma PortsExactly(trace: seq<Sys>, events: seq<Event>, k: nat, u: Uuid)
    requires IsRun(trace, events) && k < |trace| && u in trace[k].db.intfs
    ensures HasPort(trace[k].st.tables, u) <==>
            || Serves(trace[0].st.yaml, {}, trace[0].db, u)
            || exists j :: 0 <= j < k && PassServes(trace, events, j, u)
  {
    hide IsRun, DbOk, Serves, Described, InSync, PassRuns, Entered;
    if n :| n in trace[k].st.tables.ports && trace[k].st.tables.ports[n].uuid == u {
      OriginServes(trace, events, k, n);
    }
    if Serves(trace[0].st.yaml, {}, trace[0].db, u) {
      InitHolds(trace, events, u);
      HoldsForever(trace, events, 0, k, u);
    }
    if j :| 0 <= j < k && PassServes(trace, events, j, u) {
      PassGivesPort(trace, events, j, u);
      HoldsForever(trace, events, j + 1, k, u);
    }
  }

  lemma OriginServes(trace: seq<Sys>, events: seq<Event>, k: nat, n: string)
    requires IsRun(trace, events) && k < |trace| && n in trace[k].st.tables.ports
    ensures var u := trace[k].st.tables.ports[n].uuid;
            || Serves(trace[0].st.yaml, {}, trace[0].db, u)
            || exists j :: 0 <= j < k && PassServes(trace, events, j, u)
  {
    hide DbOk, Step, InitState, Serves, Described, PassHandle, Entered;
    PortOrigin(trace, events, k, n);
    var p := trace[k].st.tables.ports[n];
    if Described(trace[0].st.yaml, trace[0].db, n, p) {
      NothingEntered(trace[0].st.yaml);
      DescribedServes(trace[0].st.yaml, {}, trace[0].db, n, p);
    } else {
      var j :| 0 <= j < k && PassDescribes(trace, events, j, n, p);
      HandleExact(events[j].w, trace[j]);
      DescribedServes(events[j].w, Entered(trace[j]), trace[j].db, n, p);
      assert PassServes(trace, events, j, p.uuid);
    }
  }

  lemma InitHolds(trace: seq<Sys>, events: seq<Event>, u: Uuid)
    requires IsRun(trace, events) && Serves(trace[0].st.yaml, {}, trace[0].db, u)
    ensures Holds(trace[0], u)
  {
    hide DbOk, Step, InitState, Serves, InSync, Holds;
    InitSyncs(trace[0].st.yaml, trace[0].db);
    NothingEntered(trace[0].st.yaml);
    ServedHolds(trace[0], trace[0].st.yaml, {}, trace[0].db, u);
  }

  lemma NothingEntered(w: World)
    ensures World(w.yaml, w.yamlBad - {}) == w
  {
    assert w.yamlBad - {} == w.yamlBad;
  }

  /** A port outlives its listing: here the only subsystem row is deleted, its interface stays, and
      the full pass of the next locked round keeps the port, which no subsystem lists any more. */
  lemma PortOutlivesListing() returns (trace: seq<Sys>, events: seq<Event>)
    ensures IsRun(trace, events) && |events| == 2 && PassRuns(trace, events, 1)
    ensures trace[1].db.subs == [] && 7 in trace[1].db.intfs && HasPort(trace[2].st.tables, 7)
    ensures forall w: World, entered: set<string> :: !Serves(w, entered, trace[1].db, 7)
  {
    hide DbOk, InitState, Round, Inv;
    var w := World(map[("base", "1") := YamlPort(true, SfpPlus)], {});
    var db := Db(0, map[7 := IntfRow("1", map[], map[])], [SubRow(3, "base", [7])], map[], {7}, {3});
    var db' := db.(seqno := 1, subs := []);
    SmallDbs(db, db');
    var s0 := Sys(db, InitState(w, db));
    var s1 := s0.(db := db');
    var s2 := Round(w, s1, Held, map[]);
    RoundKeepsDb(w, s1, Held, map[]);
    InitFields(w, db);
    events := [Env(db'), Poll(Held, w, map[])];
    trace := [s0, s1, s2];
    assert Step(s0, events[0], s1) && Step(s1, events[1], s2);
    assert Offers(w, {}, db.subs[0], 7, "1");
    InitHolds(trace, events, 7);
    HoldsForever(trace, events, 0, 2, 7);
    RoundKeys(w, s1, map[]);
    assert 7 in s2.db.intfs.Keys;
  }

  lemma SmallDbs(db: Db, db': Db)
    requires db == Db(0, map[7 := IntfRow("1", map[], map[])], [SubRow(3, "base", [7])], map[], {7}, {3})
    requires db' == db.(seqno := 1, subs := [])
    ensures DbOk(db) && EnvStep(db, db')
  {
  }

  lemma InitFields(w: World, db: Db)
    requires DbOk(db)
    ensures InitState(w, db).yaml == w && InitState(w, db).seqno == db.seqno && !InitState(w, db).curHwSet
  {
  }

  // ---- the sequence-number shortcut ----

  /** Skipping the pass because the sequence number is unchanged leaves the same port table, with
      its registers, and the same subsystem table as running it, in every state a run can reach,
      if and only if no interface of a subsystem whose read failed in the last pass is waiting. The
      rerun looks up ports in the handle as it is and reads no files. */
  lemma ShortcutSound(trace: seq<Sys>, events: seq<Event>, i: nat, w: World)
    requires IsRun(trace, events) && i < |trace| && trace[i].db.seqno == trace[i].st.seqno
    requires w.yaml == trace[i].st.yaml.yaml
    ensures DbOk(trace[i].db) && Reconfigure(w, trace[i].db, trace[i].st) == trace[i].st
    ensures FullPass(w, trace[i].db, trace[i].st) == trace[i].st.(yaml := PassHandle(w, trace[i].db, trace[i].st))
            <==> NoneMissed(trace[i].st.yaml, trace[i].db, trace[i].st.tables.ports)
    ensures w == trace[i].st.yaml && w.yamlBad == {} ==> FullPass(w, trace[i].db, trace[i].st) == trace[i].st
  {
    hide InSync, DbOk, IsRun, FullPass, Consistent, AllServed, PassHandle;
    RunInv(trace, events, i);
    FullPassIdempotent(w, trace[i].db, trace[i].st);
    FullPassFields(w, trace[i].db, trace[i].st);
  }

  lemma FullPassFields(w: World, db: Db, st: DaemonState)
    requires DbOk(db)
    ensures var r := FullPass(w, db, st);
            r == DaemonState(r.tables, db.seqno, st.curHwSet, PassHandle(w, db, st))
    ensures PassHandle(w, db, st).yaml == w.yaml && (w.yamlBad == {} ==> PassHandle(w, db, st) == w)
  {
  }

  /** The state in which a locked round that never takes the shortcut publishes: with an unchanged
      sequence number it repeats the pass on the handle as it is. */
  ghost function SlowBeforePublish(w: World, s: Sys, pages: map<string, Page>): Sys
    requires DbOk(s.db)
  {
    var st := FullPass(if s.db.seqno == s.st.seqno then s.st.yaml else w, s.db, s.st);
    s.(st := st.(tables := st.tables.(ports := ReadAll(pages, st.tables.ports))))
  }

  /** Equal in everything but the record of failed reads. */
  ghost predicate SameButReads(s: Sys, s': Sys)
  {
    s == s'.(st := s'.st.(yaml := s.st.yaml)) && s.st.yaml.yaml == s'.st.yaml.yaml
  }

  /** Step by step the daemon is indistinguishable from one that repeats the full pass in every
      locked round, if and only if no interface of a subsystem whose read failed is waiting. */
  lemma ShortcutInvisible(trace: seq<Sys>, events: seq<Event>, i: nat)
    requires IsRun(trace, events) && Locked(events, i)
    ensures |trace| == |events| + 1 && DbOk(trace[i].db)
    ensures SameButReads(trace[i + 1], Publish(SlowBeforePublish(events[i].w, trace[i], events[i].pages)))
            <==> (trace[i].db.seqno == trace[i].st.seqno ==>
                    NoneMissed(trace[i].st.yaml, trace[i].db, trace[i].st.tables.ports))
  {
    hide DbOk, FullPass, ReadAll, IsRun, Settled, NoneMissed, InSync, PublishRows, ClearFlags, PassHandle, Consistent,
      UuidsUsed, Published;
    LockedStep(trace, events, i);
    var s, pages := trace[i], events[i].pages;
    if s.db.seqno == s.st.seqno {
      FullPassIdempotent(s.st.yaml, s.db, s.st);
      FullPassFields(s.st.yaml, s.db, s.st);
      ScanKeys(s.db, s.st, pages);
      ScanKeys(s.db, FullPass(s.st.yaml, s.db, s.st), pages);
    }
  }

  lemma ScanKeys(db: Db, st: DaemonState, pages: map<string, Page>)
    ensures ClearFlags(db, ReadAll(pages, st.tables.ports)).Keys == st.tables.ports.Keys
  {
  }

  // ---- laser control ----

  /** After every locked round each enable register is the one the interface row asks for. The laser
      is on exactly if the row's configuration has the text "true" under "enable"; a QSFP register
      then has no disable bit set, otherwise all four, and any other register is 1 or 0. */
  lemma RegistersFollowDatabase(trace: seq<Sys>, events: seq<Event>, i: nat, n: string)
    requires IsRun(trace, events) && Locked(events, i)
    ensures i + 1 < |trace|
    ensures n in trace[i + 1].st.tables.ports ==>
              var p, db := trace[i + 1].st.tables.ports[n], trace[i + 1].db;
              && p.uuid in db.intfs && db.intfs[p.uuid].name == n
              && var config, qsfp := db.intfs[p.uuid].config, p.device.socket in {QsfpPlus, Qsfp28};
                 if "enable" in config && config["enable"] == "true"
                 then p.portEnable == if qsfp then 0x00 else 1
                 else p.portEnable == if qsfp then 0x0f else 0
  {
    hide Round, IsRun, DbOk, AllServed, SubsExact, Published;
    LockedStep(trace, events, i);
    if n in trace[i + 1].st.tables.ports {
      assert Placed(trace[i + 1].db, n, trace[i + 1].st.tables.ports[n]);
    }
  }

  /** At every point of a run, also before a change is taken up, the register is the one computed
      from the configuration the port remembers. */
  lemma RegisterInvariant(trace: seq<Sys>, events: seq<Event>, i: nat, n: string)
    requires IsRun(trace, events) && i < |trace| && n in trace[i].st.tables.ports
    ensures RegisterAgrees(trace[i].st.tables.ports[n])
  {
    hide IsRun, DbOk, InSync, RegisterAgrees;
    RunInv(trace, events, i);
  }

  // ---- publication ----

  /** Dirty-flag coherence: between rounds no port is marked, and the live row of every port that
      has been parsed holds exactly the map of its non-NULL published columns. */
  lemma FlagsCoherent(trace: seq<Sys>, events: seq<Event>, i: nat, n: string)
    requires IsRun(trace, events) && i < |trace| && n in trace[i].st.tables.ports
    ensures var p, db := trace[i].st.tables.ports[n], trace[i].db;
            && !p.changed && p.instance == n
            && (p.uuid in db.intfs ==> db.intfs[p.uuid].name == n)
            && (p.present && p.uuid in db.intfs ==> db.intfs[p.uuid].pmInfo == PmInfo(p.cols))
  {
    hide IsRun, DbOk, InSync, RegisterAgrees, PmInfo;
    RunInv(trace, events, i);
  }

  /** After a locked round every port with a known socket has been parsed and published; every other
      port has no module data at all. */
  lemma AllPublished(trace: seq<Sys>, events: seq<Event>, i: nat, n: string)
    requires IsRun(trace, events) && Locked(events, i)
    ensures i + 1 < |trace|
    ensures n in trace[i + 1].st.tables.ports ==>
              var p, db := trace[i + 1].st.tables.ports[n], trace[i + 1].db;
              && p.uuid in db.intfs && !p.changed
              && (!p.device.socket.Other? ==> p.present && db.intfs[p.uuid].pmInfo == PmInfo(p.cols))
              && (p.device.socket.Other? ==> !p.present && p.cols == map[])
  {
    hide Round, IsRun, DbOk, AllServed, SubsExact, PmInfo, RegisterAgrees;
    LockedStep(trace, events, i);
    if n in trace[i + 1].st.tables.ports {
      assert Placed(trace[i + 1].db, n, trace[i + 1].st.tables.ports[n]);
    }
  }

  /** Step i writes the `pm_info` of interface u. */
  ghost predicate Writes(trace: seq<Sys>, events: seq<Event>, i: nat, u: Uuid)
    requires IsRun(trace, events)
  {
    && Locked(events, i)
    && Pending(trace[i].db, BeforePublish(events[i].w, trace[i], events[i].pages).st.tables.ports, u)
  }

  /** Interface u has a port with a known socket when the round of step i scans the modules. */
  ghost predicate TakesPart(trace: seq<Sys>, events: seq<Event>, i: nat, u: Uuid)
    requires IsRun(trace, events)
  {
    && Locked(events, i) && u in trace[i].db.intfs
    && var name, ports := trace[i].db.intfs[u].name, AfterPass(events[i].w, trace[i]).ports;
       name in ports && ports[name].uuid == u && Known(ports[name].device.socket)
  }

  /** A write happens exactly when the port takes part and has not been read yet. */
  lemma WriteMeansFirstRead(trace: seq<Sys>, events: seq<Event>, i: nat, u: Uuid)
    requires IsRun(trace, events)
    ensures Writes(trace, events, i, u) <==>
            && TakesPart(trace, events, i, u)
            && !AfterPass(events[i].w, trace[i]).ports[trace[i].db.intfs[u].name].present
  {
    hide DbOk, InSync, IsRun, Inv, Round, Settled, AfterPass, PageCols, PmInfo, Placed;
    if Locked(events, i) {
      LockedStep(trace, events, i);
    }
    if Locked(events, i) && u in trace[i].db.intfs {
      var s, w, name := trace[i], events[i].w, trace[i].db.intfs[u].name;
      PassSyncs(w, s);
      PassPlaces(w, s);
      PendingKeys(w, s, events[i].pages, u);
      if name in AfterPass(w, s).ports && AfterPass(w, s).ports[name].uuid == u {
        RoundRow(w, s, events[i].pages, name);
      }
    }
  }

  lemma PendingKeys(w: World, s: Sys, pages: map<string, Page>, u: Uuid)
    requires DbOk(s.db) && u in s.db.intfs
    requires forall n :: n in AfterPass(w, s).ports ==> Placed(s.db, n, AfterPass(w, s).ports[n])
    ensures Pending(s.db, BeforePublish(w, s, pages).st.tables.ports, u) ==>
              s.db.intfs[u].name in AfterPass(w, s).ports && AfterPass(w, s).ports[s.db.intfs[u].name].uuid == u
  {
  }

  /** The port object q is still what the table holds for its uuid, as far as module data goes. */
  ghost predicate Kept(s: Sys, q: PortState)
  {
    && q.uuid in s.db.usedIntfs
    && (q.uuid in s.db.intfs ==>
          s.db.intfs[q.uuid].name == q.instance
          && q.instance in s.st.tables.ports && SameModule(s.st.tables.ports[q.instance], q))
    && (q.instance in s.st.tables.ports && s.st.tables.ports[q.instance].uuid == q.uuid ==>
          SameModule(s.st.tables.ports[q.instance], q))
  }

  lemma SameModuleTrans(p: PortState, q: PortState, r: PortState)
    requires SameModule(p, q) && SameModule(q, r)
    ensures SameModule(p, r) && p.present == r.present && p.uuid == r.uuid && p.changed == r.changed
    ensures p.retry == r.retry
  {
  }

  lemma KeptThroughRound(w: World, s: Sys, pages: map<string, Page>, q: PortState)
    requires Inv(s) && Kept(s, q) && q.present && PortOk(q)
    ensures Kept(Round(w, s, Held, pages), q)
  {
    hide DbOk, InSync, Consistent, Published, UuidsUsed, Round, AfterPass, PortOk, SameModule, ReadModule, PageFor;
    var r := Round(w, s, Held, pages);
    var t := AfterPass(w, s);
    RoundKeys(w, s, pages);
    PassSyncs(w, s);
    PassPlaces(w, s);
    var n := q.instance;
    assert q.uuid in r.db.intfs <==> q.uuid in r.db.intfs.Keys;
    assert n in r.st.tables.ports <==> n in r.st.tables.ports.Keys;
    if n in t.ports {
      RoundPort(w, s, pages, n);
      ReadCases(t.ports[n], PageFor(pages, n));
    }
    if q.uuid in s.db.intfs {
      SameModuleShow(s.st.tables.ports[n], q);
      SameModuleTrans(t.ports[n], s.st.tables.ports[n], q);
      FinalSame(t.ports[n], PageFor(pages, n), q);
    }
  }

  lemma FinalSame(p: PortState, page: Page, q: PortState)
    requires SameModule(p, q) && PortOk(p) && p.present
    ensures SameModule(Final(p, page), q)
  {
  }

  lemma KeptStep(s: Sys, e: Event, s': Sys, q: PortState)
    requires Inv(s) && Step(s, e, s') && Kept(s, q) && q.present && PortOk(q)
    ensures Kept(s', q)
  {
    hide InSync, Consistent, Published, UuidsUsed, Publish, BeforePublish, PortOk, SameModule, DbOk;
    if e.Poll? && e.lock.Held? {
      KeptThroughRound(e.w, s, e.pages, q);
    }
  }

  lemma {:induction false} KeptForever(trace: seq<Sys>, events: seq<Event>, i: nat, j: nat, q: PortState)
    requires IsRun(trace, events) && i <= j < |trace| && Kept(trace[i], q) && q.present && PortOk(q)
    ensures Kept(trace[j], q)
    decreases j
  {
    hide Kept, Inv, Step, InitState, DbOk, PortOk;
    if i < j {
      KeptForever(trace, events, i, j - 1, q);
      RunInv(trace, events, j - 1);
      KeptStep(trace[j - 1], events[j - 1], trace[j], q);
    }
  }

  lemma KeptAt(s: Sys, n: string)
    requires Inv(s) && n in s.st.tables.ports && s.st.tables.ports[n].present
    requires s.st.tables.ports[n].uuid in s.db.usedIntfs
    ensures Kept(s, s.st.tables.ports[n]) && PortOk(s.st.tables.ports[n])
  {
  }

  /** Once read, a module is never read again: as long as the interface exists, later rounds leave
      the port's columns, its flags and its presence as they are. */
  lemma ModuleDataFixed(trace: seq<Sys>, events: seq<Event>, i: nat, j: nat, n: string)
    requires IsRun(trace, events) && i <= j < |trace|
    requires n in trace[i].st.tables.ports && trace[i].st.tables.ports[n].present
    requires n in trace[j].st.tables.ports && trace[j].st.tables.ports[n].uuid == trace[i].st.tables.ports[n].uuid
    ensures SameModule(trace[j].st.tables.ports[n], trace[i].st.tables.ports[n])
  {
    hide IsRun, DbOk, InSync, SameModule, PortOk;
    RunInv(trace, events, i);
    var q := trace[i].st.tables.ports[n];
    KeptAt(trace[i], n);
    KeptForever(trace, events, i, j, q);
  }

  /** The port of an interface that takes part in a round has been read at its end. */
  lemma ReadNow(trace: seq<Sys>, events: seq<Event>, j: nat, u: Uuid)
    requires IsRun(trace, events) && TakesPart(trace, events, j, u)
    ensures |trace| == |events| + 1 && u in trace[j].db.intfs
    ensures var n, ports := trace[j].db.intfs[u].name, trace[j + 1].st.tables.ports;
            n in ports && ports[n].present && ports[n].uuid == u && ports[n].instance == n
  {
    hide IsRun, DbOk, InSync, Inv, Settled, Round, AfterPass, Consistent, UuidsUsed, PortOk, ReadModule, PageFor,
      Survive;
    LockedStep(trace, events, j);
    var s, w, n := trace[j], events[j].w, trace[j].db.intfs[u].name;
    PassSyncs(w, s);
    PassPlaces(w, s);
    RoundPort(w, s, events[j].pages, n);
    ReadCases(AfterPass(w, s).ports[n], PageFor(events[j].pages, n));
  }

  /** An interface that took part in a round has been read for good. */
  lemma TookPart(trace: seq<Sys>, events: seq<Event>, j: nat, i: nat, u: Uuid)
    requires IsRun(trace, events) && j < i < |trace| && TakesPart(trace, events, j, u) && u in trace[i].db.intfs
    ensures var n, ports := trace[i].db.intfs[u].name, trace[i].st.tables.ports;
            n in ports && ports[n].present && ports[n].uuid == u
  {
    hide IsRun, TakesPart, Inv, PortOk, SameModule;
    ReadNow(trace, events, j, u);
    var n := trace[j].db.intfs[u].name;
    var q := trace[j + 1].st.tables.ports[n];
    RunInv(trace, events, j + 1);
    UsedAt(trace[j + 1], n);
    KeptAt(trace[j + 1], n);
    KeptForever(trace, events, j + 1, i, q);
    SameModuleShow(trace[i].st.tables.ports[q.instance], q);
  }

  lemma UsedAt(s: Sys, n: string)
    requires Inv(s) && n in s.st.tables.ports
    ensures s.st.tables.ports[n].uuid in s.db.usedIntfs
  {
  }

  lemma SameModuleShow(p: PortState, q: PortState)
    requires SameModule(p, q)
    ensures p.present == q.present && p.uuid == q.uuid
  {
  }

  /** A port that counts as read took part in an earlier round. */
  lemma {:induction false} ReadHasHistory(trace: seq<Sys>, events: seq<Event>, i: nat, n: string)
    requires IsRun(trace, events) && i < |trace| && n in trace[i].st.tables.ports && trace[i].st.tables.ports[n].present
    ensures exists j :: 0 <= j < i && TakesPart(trace, events, j, trace[i].st.tables.ports[n].uuid)
  {
    hide DbOk, InSync, Inv, Settled, Publish, BeforePublish, AfterPass, PortOk, ReadModule, PageFor, EnvStep,
      SameModule, InitState;
    if i == 0 {
      InitSyncs(trace[0].st.yaml, trace[0].db);
      assert false;
    } else {
      assert Step(trace[i - 1], events[i - 1], trace[i]);
      if Locked(events, i - 1) {
        LockedStep(trace, events, i - 1);
        var s, w := trace[i - 1], events[i - 1].w;
        PassSyncs(w, s);
        PassPlaces(w, s);
        RoundKeys(w, s, events[i - 1].pages);
        assert n in trace[i].st.tables.ports.Keys;
        RoundPort(w, s, events[i - 1].pages, n);
        ReadCases(AfterPass(w, s).ports[n], PageFor(events[i - 1].pages, n));
        assert TakesPart(trace, events, i - 1, trace[i].st.tables.ports[n].uuid);
      } else {
        ReadHasHistory(trace, events, i - 1, n);
      }
    }
  }

  /** Quiescence: the `pm_info` of an interface is written in the first round its port takes part in,
      and in no other step of the run; interfaces without a known socket are never written. */
  lemma WrittenOnce(trace: seq<Sys>, events: seq<Event>, i: nat, u: Uuid)
    requires IsRun(trace, events) && i < |events|
    ensures Writes(trace, events, i, u) <==>
            TakesPart(trace, events, i, u) && forall j :: 0 <= j < i ==> !TakesPart(trace, events, j, u)
  {
    hide IsRun, DbOk, InSync, Inv, Writes, AfterPass, Settled, Round, SameModule;
    WriteMeansFirstRead(trace, events, i, u);
    if TakesPart(trace, events, i, u) {
      LockedStep(trace, events, i);
      var s, w, n := trace[i], events[i].w, trace[i].db.intfs[u].name;
      PassSyncs(w, s);
      if AfterPass(w, s).ports[n].present {
        PresentBefore(w, s, n);
        SameModuleShow(AfterPass(w, s).ports[n], s.st.tables.ports[n]);
        ReadHasHistory(trace, events, i, n);
      } else {
        forall j | 0 <= j < i ensures !TakesPart(trace, events, j, u) {
          if TakesPart(trace, events, j, u) {
            TookPart(trace, events, j, i, u);
            assert SameModule(AfterPass(w, s).ports[n], s.st.tables.ports[n]);
            SameModuleShow(AfterPass(w, s).ports[n], s.st.tables.ports[n]);
            assert false;
          }
        }
      }
    }
  }

  /** The one write: it exists as soon as the port has taken part. */
  lemma {:induction false} WrittenExactlyOnce(trace: seq<Sys>, events: seq<Event>, i: nat, u: Uuid)
    requires IsRun(trace, events) && i < |events| && TakesPart(trace, events, i, u)
    ensures exists j :: 0 <= j <= i && Writes(trace, events, j, u)
    ensures forall j, k :: 0 <= j < k < |events| && Writes(trace, events, j, u) ==> !Writes(trace, events, k, u)
  {
    hide IsRun, TakesPart, Writes;
    forall j, k | 0 <= j < k < |events| && Writes(trace, events, j, u) ensures !Writes(trace, events, k, u) {
      WrittenOnce(trace, events, j, u);
      WrittenOnce(trace, events, k, u);
    }
    WrittenOnce(trace, events, i, u);
    if !Writes(trace, events, i, u) {
      var j :| 0 <= j < i && TakesPart(trace, events, j, u);
      WrittenExactlyOnce(trace, events, j, u);
    }
  }

  /** What is written are the columns of the page the module delivered in that round, or of a page of
      zeros if it delivered none; the rest of the row stays, and so does every other row. */
  lemma WrittenValue(trace: seq<Sys>, events: seq<Event>, i: nat, u: Uuid)
    requires IsRun(trace, events) && Locked(events, i) && u in trace[i].db.intfs
    ensures |trace| == |events| + 1 && u in trace[i + 1].db.intfs
    ensures var n, before, after := trace[i].db.intfs[u].name, trace[i].db.intfs[u], trace[i + 1].db.intfs[u];
            if Writes(trace, events, i, u) then
              && TakesPart(trace, events, i, u)
              && var socket, pages := AfterPass(events[i].w, trace[i]).ports[n].device.socket, events[i].pages;
                 && (n in pages ==> after == before.(pmInfo := PmInfo(PageCols(socket, pages[n]))))
                 && (n !in pages ==> after == before.(pmInfo := PmInfo(PageCols(socket, seq(128, k => 0)))))
            else after == before
  {
    hide IsRun, DbOk, InSync, Inv, Settled, AfterPass, PageCols, PmInfo, PageFor, BeforePublish, Placed, Survive;
    LockedStep(trace, events, i);
    var s, w, n := trace[i], events[i].w, trace[i].db.intfs[u].name;
    WriteMeansFirstRead(trace, events, i, u);
    BeforePublishDb(w, s, events[i].pages);
    if Writes(trace, events, i, u) {
      PassSyncs(w, s);
      PassPlaces(w, s);
      RoundRow(w, s, events[i].pages, n);
      DeliveredPage(events[i].pages, n);
    }
  }

  lemma DeliveredPage(pages: map<string, Page>, n: string)
    ensures n in pages ==> PageFor(pages, n) == pages[n]
    ensures n !in pages ==> PageFor(pages, n) == seq(128, k => 0)
  {
  }

  lemma BeforePublishDb(w: World, s: Sys, pages: map<string, Page>)
    requires DbOk(s.db)
    ensures BeforePublish(w, s, pages).db == s.db
    ensures BeforePublish(w, s, pages).st.curHwSet == s.st.curHwSet
  {
  }

  // ---- readiness ----

  /** Step i is a locked round that finds the daemon's own row. */
  ghost predicate CanAnnounce(trace: seq<Sys>, events: seq<Event>, i: int)
  {
    Locked(events, i) && i < |trace| && "ops-pmd" in trace[i].db.daemons
  }

  /** Step i sets `cur_hw`. */
  ghost predicate SetsCurHw(trace: seq<Sys>, events: seq<Event>, i: nat)
    requires IsRun(trace, events)
  {
    Locked(events, i) && Announces(BeforePublish(events[i].w, trace[i], events[i].pages))
  }

  lemma {:induction false} CurHwHistory(trace: seq<Sys>, events: seq<Event>, i: nat)
    requires IsRun(trace, events) && i < |trace|
    ensures trace[i].st.curHwSet <==> exists j :: 0 <= j < i && CanAnnounce(trace, events, j)
  {
    hide DbOk, InSync, BeforePublish, EnvStep, InitState;
    if i == 0 {
      InitFields(trace[0].st.yaml, trace[0].db);
    } else {
      CurHwHistory(trace, events, i - 1);
      var s, e := trace[i - 1], events[i - 1];
      assert Step(s, e, trace[i]);
      if Locked(events, i - 1) {
        BeforePublishDb(e.w, s, e.pages);
        assert trace[i].st.curHwSet <==> s.st.curHwSet || CanAnnounce(trace, events, i - 1);
      } else {
        assert trace[i].st.curHwSet == s.st.curHwSet;
      }
    }
  }

  /** The row of port n holds the port's module information. */
  ghost predicate RowShows(s: Sys, n: string)
    requires n in s.st.tables.ports
  {
    var p := s.st.tables.ports[n];
    p.present && p.uuid in s.db.intfs && s.db.intfs[p.uuid].pmInfo == PmInfo(p.cols)
  }

  ghost predicate KnownPortsShown(s: Sys)
  {
    forall n :: n in s.st.tables.ports && Known(s.st.tables.ports[n].device.socket) ==> RowShows(s, n)
  }

  /** Readiness safety: `cur_hw` is set in the first locked round that finds the daemon's row, and
      never again; when it is, every port with a known socket has its module information in the
      database. */
  lemma ReadyOnlyWhenPublished(trace: seq<Sys>, events: seq<Event>, i: nat)
    requires IsRun(trace, events) && i < |events|
    ensures |trace| == |events| + 1
    ensures SetsCurHw(trace, events, i) <==>
            CanAnnounce(trace, events, i) && forall j :: 0 <= j < i ==> !CanAnnounce(trace, events, j)
    ensures SetsCurHw(trace, events, i) ==>
            && "ops-pmd" in trace[i + 1].db.daemons && trace[i + 1].db.daemons["ops-pmd"] == 1
            && KnownPortsShown(trace[i + 1])
  {
    hide DbOk, InSync, BeforePublish, Inv, Settled, PmInfo;
    CurHwHistory(trace, events, i);
    if Locked(events, i) {
      BeforePublishDb(events[i].w, trace[i], events[i].pages);
      LockedStep(trace, events, i);
      var s := trace[i + 1];
      forall n | n in s.st.tables.ports && Known(s.st.tables.ports[n].device.socket) ensures RowShows(s, n) {
        AllPublished(trace, events, i, n);
      }
    }
  }

  /** What a round does to the database apart from the interface rows: the daemon's own `cur_hw`
      becomes 1 in the first locked round that finds its row, and nothing else ever changes. */
  lemma DaemonTable(trace: seq<Sys>, events: seq<Event>, i: nat)
    requires IsRun(trace, events) && i < |events| && events[i].Poll?
    ensures |trace| == |events| + 1
    ensures trace[i + 1].db.daemons ==
            if && Locked(events, i) && "ops-pmd" in trace[i].db.daemons
               && (forall j :: 0 <= j < i ==> !CanAnnounce(trace, events, j))
            then trace[i].db.daemons["ops-pmd" := 1] else trace[i].db.daemons
    ensures trace[i + 1].db == trace[i].db.(intfs := trace[i + 1].db.intfs, daemons := trace[i + 1].db.daemons)
  {
    hide DbOk, BeforePublish, InitState, PublishRows;
    CurHwHistory(trace, events, i);
    assert Step(trace[i], events[i], trace[i + 1]);
    BeforePublishDb(events[i].w, trace[i], events[i].pages);
  }

  // ---- what the first read decides ----

  /** A port that has not been read has no columns, asks for no diagnostics and has no laser. */
  lemma UnreadPortBlank(trace: seq<Sys>, events: seq<Event>, i: nat, n: string)
    requires IsRun(trace, events) && i < |trace| && n in trace[i].st.tables.ports
    ensures var p := trace[i].st.tables.ports[n];
            !p.present ==> p.cols == map[] && !p.a2Requested && !p.optical
  {
    hide IsRun, DbOk, InSync, RegisterAgrees;
    RunInv(trace, events, i);
  }

  /** The page of the first round a port takes part in decides for good, as long as the interface
      lives, what is known of the module: its columns, whether it has a laser, and whether its
      diagnostics can be read. For SFP+ that takes bits 6 and 5 of byte 92, bit 3, and not bit 2 (the
      two pairs are read as numbers below); for QSFP bit 3 of byte 92. */
  lemma FirstReadDecides(trace: seq<Sys>, events: seq<Event>, i: nat, k: nat, u: Uuid, page: Page)
    requires IsRun(trace, events) && i < k < |trace| && u in trace[k].db.intfs
    requires TakesPart(trace, events, i, u) && forall j :: 0 <= j < i ==> !TakesPart(trace, events, j, u)
    requires var n, pages := trace[i].db.intfs[u].name, events[i].pages;
             if n in pages then page == pages[n] else page == seq(128, b => 0)
    ensures var n, ports := trace[i].db.intfs[u].name, trace[k].st.tables.ports;
            && n in ports && ports[n].uuid == u && ports[n].present && !ports[n].device.socket.Other?
            && ports[n].cols == PageCols(ports[n].device.socket, page)
            && ports[n].optical == Classify(ports[n].device.socket, page).optical
            && (ports[n].a2Requested <==>
                  if ports[n].device.socket.SfpPlus? then page[92] / 32 % 4 == 3 && page[92] / 4 % 4 == 2
                  else page[92] / 8 % 2 == 1)
  {
    hide IsRun, DbOk, InSync, Inv, Round, AfterPass, PageCols, Classify, WantsA2, PortOk, SameModule, PageFor, Kept;
    FirstReadNow(trace, events, i, u, page);
    var n := trace[i].db.intfs[u].name;
    var q := trace[i + 1].st.tables.ports[n];
    RunInv(trace, events, i + 1);
    UsedAt(trace[i + 1], n);
    KeptAt(trace[i + 1], n);
    KeptForever(trace, events, i + 1, k, q);
    KeptShows(trace[k], q);
    WantsA2Exact(q.device.socket, page);
  }

  lemma KeptShows(s: Sys, q: PortState)
    requires Kept(s, q) && q.uuid in s.db.intfs
    ensures q.instance in s.st.tables.ports
    ensures var p := s.st.tables.ports[q.instance];
            && p.uuid == q.uuid && p.present == q.present && p.device == q.device && p.cols == q.cols
            && p.optical == q.optical && p.a2Requested == q.a2Requested
  {
  }

  /** The end of the first round a port takes part in. */
  lemma FirstReadNow(trace: seq<Sys>, events: seq<Event>, i: nat, u: Uuid, page: Page)
    requires IsRun(trace, events) && TakesPart(trace, events, i, u)
    requires forall j :: 0 <= j < i ==> !TakesPart(trace, events, j, u)
    requires var n, pages := trace[i].db.intfs[u].name, events[i].pages;
             if n in pages then page == pages[n] else page == seq(128, b => 0)
    ensures |trace| == |events| + 1
    ensures var n, ports := trace[i].db.intfs[u].name, trace[i + 1].st.tables.ports;
            && n in ports && ports[n].uuid == u && ports[n].instance == n && ports[n].present
            && Known(ports[n].device.socket)
            && ports[n].cols == PageCols(ports[n].device.socket, page)
            && ports[n].optical == Classify(ports[n].device.socket, page).optical
            && ports[n].a2Requested == WantsA2(ports[n].device.socket, page)
  {
    hide IsRun, DbOk, InSync, Inv, Settled, Round, AfterPass, PageCols, Classify, WantsA2, PortOk, ReadModule, PageFor,
      Writes;
    LockedStep(trace, events, i);
    var s, w, n := trace[i], events[i].w, trace[i].db.intfs[u].name;
    WrittenOnce(trace, events, i, u);
    WriteMeansFirstRead(trace, events, i, u);
    PassPlaces(w, s);
    RoundPort(w, s, events[i].pages, n);
    ReadCases(AfterPass(w, s).ports[n], PageFor(events[i].pages, n));
    DeliveredPage(events[i].pages, n);
  }

  // ---- unreadable hardware descriptions ----

  /** The shortcut does change behaviour when reading a subsystem's files fails and ports are found
      all the same: here the first pass skips the subsystem's only interface, and a rerun on the same
      database would create it. The library gets there when `yaml_parse_ports` fails after storing
      some ports (src/config.c:179), or when `yaml_add_subsystem` refuses a subsystem that was deleted
      and created again, whose old data was never removed (src/ovsdb_access.c:787). */
  lemma UnreadableSubsystem() returns (trace: seq<Sys>)
    ensures IsRun(trace, []) && trace[0].db.seqno == trace[0].st.seqno
    ensures FullPass(trace[0].st.yaml, trace[0].db, trace[0].st).tables != trace[0].st.tables
  {
    hide DbOk, FullPass, PassHandle;
    var w := World(map[("base", "1") := YamlPort(true, SfpPlus)], {"base"});
    var sub := SubRow(3, "base", [7]);
    var db := Db(0, map[7 := IntfRow("1", map[], map[])], [sub], map[], {7}, {3});
    SmallDbs(db, db.(seqno := 1, subs := []));
    var st := InitState(w, db);
    trace := [Sys(db, st)];
    assert st.tables.ports == map[] by {
      var t0 := Tables(map[], map[]);
      assert ProcessSubs(w, db, 0, t0) == t0;
      assert ProcessSubs(w, db, 1, t0) == ProcessSub(w, db, sub, t0);
    }
    ShortcutSound(trace, [], 0, w);
    FullPassFields(w, db, st);
    assert !Served(w, db, sub, 0, map[]);
    assert !AllServed(w, db, db.subs[0], 1, st.tables.ports);
  }
}
