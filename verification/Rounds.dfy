/** One round of the daemon as a function: `pmd_reconfigure`, `pm_read_state` and
    `pm_ovsdb_update` on the port table, the subsystem table and the database. */
module Rounds {
  import opened Bits
  import opened PortModel

  // ---- the database ----

  datatype IntfRow = IntfRow(name: string, config: map<string, string>, pmInfo: PmMap)

  datatype SubRow = SubRow(uuid: Uuid, name: string, interfaces: seq<Uuid>)

  /** The replica of the database. The subsystem rows come in iteration order, which decides which
      of two subsystems listing one interface creates it. The uuids ever used are kept, because a
      uuid is never used again for another row. */
  datatype Db = Db(
    seqno: nat,
    intfs: map<Uuid, IntfRow>,
    subs: seq<SubRow>,
    daemons: map<string, int>,
    usedIntfs: set<Uuid>,
    usedSubs: set<Uuid>)

  const DAEMON_NAME := "ops-pmd"

  ghost predicate DbOk(db: Db)
  {
    && (forall u, v :: u in db.intfs && v in db.intfs && db.intfs[u].name == db.intfs[v].name ==> u == v)
    && db.intfs.Keys <= db.usedIntfs
    && (forall i :: 0 <= i < |db.subs| ==> db.subs[i].uuid in db.usedSubs)
    && (forall i, j :: 0 <= i < j < |db.subs| ==>
          db.subs[i].uuid != db.subs[j].uuid && db.subs[i].name != db.subs[j].name)
    && (forall i, j :: 0 <= i < |db.subs| && 0 <= j < |db.subs[i].interfaces| ==>
          db.subs[i].interfaces[j] in db.intfs)
  }

  /** `ovsdb_if_intf_get_hw_enable` */
  predicate HwEnable(row: IntfRow)
  {
    "enable" in row.config && row.config["enable"] == "true"
  }

  predicate SubLive(db: Db, u: Uuid)
  {
    exists i :: 0 <= i < |db.subs| && db.subs[i].uuid == u
  }

  /** Some row has this interface name. */
  ghost predicate HasRow(db: Db, name: string)
  {
    exists u :: u in db.intfs && db.intfs[u].name == name
  }

  ghost function UuidNamed(db: Db, name: string): (u: Uuid)
    requires HasRow(db, name)
    ensures u in db.intfs && db.intfs[u].name == name
  {
    var u :| u in db.intfs && db.intfs[u].name == name;
    u
  }

  // ---- the daemon ----

  /** What the YAML library answers during a pass: the port data it finds by subsystem and interface
      name, and the subsystems for which reading the files fails. */
  datatype World = World(yaml: map<(string, string), YamlPort>, yamlBad: set<string>)

  datatype Tables = Tables(ports: map<string, PortState>, subs: map<string, Uuid>)

  /** The daemon: its tables, the last sequence number, whether `cur_hw` is set, and the YAML handle
      as the last pass left it, with the subsystems whose read failed in that pass. */
  datatype DaemonState = DaemonState(tables: Tables, seqno: nat, curHwSet: bool, yaml: World)

  datatype Sys = Sys(db: Db, st: DaemonState)

  /** An interface that the subsystem can turn into a port. */
  predicate Creatable(w: World, sub: string, name: string)
  {
    (sub, name) in w.yaml && w.yaml[(sub, name)].pluggable
  }

  /** The loop body over a subsystem's interfaces. */
  function CreateOne(w: World, db: Db, sub: SubRow, u: Uuid, ports: map<string, PortState>)
    : map<string, PortState>
    requires u in db.intfs
  {
    var row := db.intfs[u];
    if row.name in ports || !Creatable(w, sub.name, row.name) then ports
    else ports[row.name := NewPort(row.name, u, sub.name, w.yaml[(sub.name, row.name)], HwEnable(row))]
  }

  /** The first k interfaces of a subsystem. */
  function CreateMissing(w: World, db: Db, sub: SubRow, k: nat, ports: map<string, PortState>)
    : map<string, PortState>
    requires k <= |sub.interfaces| && forall j :: 0 <= j < k ==> sub.interfaces[j] in db.intfs
  {
    if k == 0 then ports
    else CreateOne(w, db, sub, sub.interfaces[k - 1], CreateMissing(w, db, sub, k - 1, ports))
  }

  /** `ovsdb_if_subsys_process`: a new subsystem whose files cannot be read is entered in the table,
      but its interfaces are not created in this pass. */
  function ProcessSub(w: World, db: Db, sub: SubRow, t: Tables): Tables
    requires forall j :: 0 <= j < |sub.interfaces| ==> sub.interfaces[j] in db.intfs
  {
    if sub.name in t.subs then
      t.(ports := CreateMissing(w, db, sub, |sub.interfaces|, t.ports))
    else if sub.name in w.yamlBad then
      t.(subs := t.subs[sub.name := sub.uuid])
    else
      Tables(CreateMissing(w, db, sub, |sub.interfaces|, t.ports), t.subs[sub.name := sub.uuid])
  }

  /** The first k subsystems. */
  ghost function ProcessSubs(w: World, db: Db, k: nat, t: Tables): Tables
    requires DbOk(db) && k <= |db.subs|
  {
    if k == 0 then t else ProcessSub(w, db, db.subs[k - 1], ProcessSubs(w, db, k - 1, t))
  }

  function KeepLive(db: Db, ports: map<string, PortState>): map<string, PortState>
  {
    map n | n in ports && ports[n].uuid in db.intfs :: ports[n]
  }

  ghost function KeepLiveSubs(db: Db, subs: map<string, Uuid>): map<string, Uuid>
  {
    map n | n in subs && SubLive(db, subs[n]) :: subs[n]
  }

  /** The pass over the interface rows, which finds a row's port by the row's name. */
  ghost function ModifyAll(db: Db, ports: map<string, PortState>): map<string, PortState>
  {
    map n | n in ports ::
      if HasRow(db, n) then Modified(ports[n], HwEnable(db.intfs[UuidNamed(db, n)])) else ports[n]
  }

  /** The library in a pass that finds these subsystems entered: it is not asked to read their files
      again, so none of their reads fails. */
  function Opened(w: World, entered: map<string, Uuid>): World
  {
    w.(yamlBad := w.yamlBad - entered.Keys)
  }

  /** The library in a full pass from this state. */
  ghost function PassHandle(w: World, db: Db, st: DaemonState): World
  {
    Opened(w, KeepLiveSubs(db, st.tables.subs))
  }

  /** `pmd_reconfigure` below the sequence-number test. */
  ghost function FullPass(w: World, db: Db, st: DaemonState): DaemonState
    requires DbOk(db)
  {
    var t0 := Tables(KeepLive(db, st.tables.ports), KeepLiveSubs(db, st.tables.subs));
    var h := PassHandle(w, db, st);
    var t1 := ProcessSubs(h, db, |db.subs|, t0);
    DaemonState(t1.(ports := ModifyAll(db, t1.ports)), db.seqno, st.curHwSet, h)
  }

  /** `pmd_reconfigure`; w is what the library answers if a pass is needed. */
  ghost function Reconfigure(w: World, db: Db, st: DaemonState): DaemonState
    requires DbOk(db)
  {
    if db.seqno == st.seqno then st else FullPass(w, db, st)
  }

  /** `pm_ovsdb_if_init` and `pmd_configure` */
  ghost function InitState(w: World, db: Db): DaemonState
    requires DbOk(db)
  {
    var t := ProcessSubs(w, db, |db.subs|, Tables(map[], map[]));
    DaemonState(t.(ports := ConfigureAll(db, t.ports)), db.seqno, false, w)
  }

  ghost function ConfigureAll(db: Db, ports: map<string, PortState>): map<string, PortState>
  {
    map n | n in ports :: if HasRow(db, n) then Configured(ports[n]) else ports[n]
  }

  /** What the A0 read of an interface delivers in a round; a failed read leaves the zeroed buffer. */
  function PageFor(pages: map<string, Page>, name: string): Page
  {
    if name in pages then pages[name] else seq(128, i => 0)
  }

  /** `pm_read_state` */
  function ReadAll(pages: map<string, Page>, ports: map<string, PortState>): map<string, PortState>
  {
    map n | n in ports :: ReadModule(ports[n], PageFor(pages, n))
  }

  /** The row's port has something to publish. */
  predicate Pending(db: Db, ports: map<string, PortState>, u: Uuid)
  {
    u in db.intfs && db.intfs[u].name in ports
    && ports[db.intfs[u].name].uuid == u && ports[db.intfs[u].name].changed
  }

  function PublishRows(db: Db, ports: map<string, PortState>): map<Uuid, IntfRow>
  {
    map u | u in db.intfs ::
      if Pending(db, ports, u) then db.intfs[u].(pmInfo := PmInfo(ports[db.intfs[u].name].cols))
      else db.intfs[u]
  }

  function ClearFlags(db: Db, ports: map<string, PortState>): map<string, PortState>
  {
    map n | n in ports :: if ports[n].uuid in db.intfs then ports[n].(changed := false) else ports[n]
  }

  /** The mark of a port survives publication exactly if its row is gone. */
  lemma ClearFlagsExact(db: Db, ports: map<string, PortState>, n: string)
    requires n in ports
    ensures n in ClearFlags(db, ports)
    ensures ClearFlags(db, ports)[n] == ports[n].(changed := ports[n].changed && ports[n].uuid !in db.intfs)
  {
  }

  /** Port n is marked and refers to row u. */
  predicate Marked(ports: map<string, PortState>, n: string, u: Uuid)
  {
    n in ports && ports[n].uuid == u && ports[n].changed
  }

  /** What the publication loop may make of the rows when tables are arbitrary: a row with a marked
      port shows the columns of one of its marked ports, any other row is as before. */
  ghost predicate RowsPublished(db: Db, ports: map<string, PortState>, rows: map<Uuid, IntfRow>)
  {
    && rows.Keys == db.intfs.Keys
    && forall u :: u in db.intfs ==>
         || (rows[u] == db.intfs[u] && forall n :: !Marked(ports, n, u))
         || exists n :: Marked(ports, n, u) && rows[u] == db.intfs[u].(pmInfo := PmInfo(ports[n].cols))
  }

  /** This transaction sets `cur_hw`. */
  predicate Announces(s: Sys)
  {
    !s.st.curHwSet && DAEMON_NAME in s.db.daemons
  }

  /** `pm_ovsdb_update` */
  function Publish(s: Sys): Sys
  {
    var ports := s.st.tables.ports;
    var daemons := if Announces(s) then s.db.daemons[DAEMON_NAME := 1] else s.db.daemons;
    Sys(s.db.(intfs := PublishRows(s.db, ports), daemons := daemons),
        s.st.(tables := s.st.tables.(ports := ClearFlags(s.db, ports)),
              curHwSet := s.st.curHwSet || Announces(s)))
  }

  /** A port with a live row is known to the database by its own name. */
  ghost predicate RowsMatch(db: Db, ports: map<string, PortState>)
  {
    forall n :: n in ports && ports[n].uuid in db.intfs ==> db.intfs[ports[n].uuid].name == n
  }

  /** `pm_ovsdb_update` on arbitrary tables, where the order of the port table may decide which of
      two ports of one row is shown. */
  ghost predicate Publishes(s: Sys, s': Sys)
  {
    && RowsPublished(s.db, s.st.tables.ports, s'.db.intfs)
    && s' == Publish(s).(db := Publish(s).db.(intfs := s'.db.intfs))
  }

  /** When ports and rows go by the same names, the outcome is determined. */
  lemma PublishDetermined(s: Sys, s': Sys)
    requires RowsMatch(s.db, s.st.tables.ports) && Publishes(s, s')
    ensures s' == Publish(s)
  {
    hide PmInfo, ClearFlags;
    var ports, rows := s.st.tables.ports, s'.db.intfs;
    forall u | u in s.db.intfs ensures rows[u] == PublishRows(s.db, ports)[u] {
      var name := s.db.intfs[u].name;
      assert Pending(s.db, ports, u) <==> Marked(ports, name, u);
      assert forall n :: Marked(ports, n, u) ==> n == name;
    }
    assert rows == PublishRows(s.db, ports);
  }

  /** The state in which a locked round reaches `pm_ovsdb_update`. */
  ghost function BeforePublish(w: World, s: Sys, pages: map<string, Page>): Sys
    requires DbOk(s.db)
  {
    var st := Reconfigure(w, s.db, s.st);
    s.(st := st.(tables := st.tables.(ports := ReadAll(pages, st.tables.ports))))
  }

  datatype Lock = Contended | NotHeld | Held

  /** `pmd_run` */
  ghost function Round(w: World, s: Sys, lock: Lock, pages: map<string, Page>): Sys
    requires DbOk(s.db)
  {
    if lock.Held? then Publish(BeforePublish(w, s, pages)) else s
  }

  // ---- runs ----

  /** What everyone else may do to the database between two rounds: add, delete, recreate and edit
      rows. A persisting row keeps its name, and its `pm_info`, which only this daemon writes. A
      change the daemon is alerted to gives a new sequence number. */
  ghost predicate EnvStep(db: Db, db': Db)
  {
    && DbOk(db')
    && db.usedIntfs <= db'.usedIntfs && db.usedSubs <= db'.usedSubs
    && (forall u :: u in db'.intfs && u in db.usedIntfs ==>
          u in db.intfs && db'.intfs[u].name == db.intfs[u].name && db'.intfs[u].pmInfo == db.intfs[u].pmInfo)
    && (forall i :: 0 <= i < |db'.subs| && db'.subs[i].uuid in db.usedSubs ==>
          exists j :: 0 <= j < |db.subs| && db.subs[j].uuid == db'.subs[i].uuid && db.subs[j].name == db'.subs[i].name)
    && db.seqno <= db'.seqno
    && (db.seqno == db'.seqno ==> db'.intfs == db.intfs && db'.subs == db.subs)
  }

  /** A round carries its own answers of the YAML library: what it finds and fails to read in one
      pass need not agree with any other pass. */
  datatype Event = Env(db: Db) | Poll(lock: Lock, w: World, pages: map<string, Page>)

  ghost predicate Step(s: Sys, e: Event, s': Sys)
    requires DbOk(s.db)
  {
    match e
    case Env(db') => EnvStep(s.db, db') && s' == s.(db := db')
    case Poll(lock, w, pages) => s' == Round(w, s, lock, pages)
  }

  /** A whole run: initialisation on some database, then any sequence of environment steps and
      rounds. */
  ghost predicate IsRun(trace: seq<Sys>, events: seq<Event>)
  {
    && |trace| == |events| + 1
    && (forall i :: 0 <= i < |trace| ==> DbOk(trace[i].db))
    && trace[0].st == InitState(trace[0].st.yaml, trace[0].db)
    && (forall i :: 0 <= i < |events| ==> Step(trace[i], events[i], trace[i + 1]))
  }

  /** Every prefix of a run is a run. */
  lemma PrefixIsRun(trace: seq<Sys>, events: seq<Event>, i: nat)
    requires IsRun(trace, events) && i <= |events|
    ensures IsRun(trace[..i + 1], events[..i])
  {
    hide Step, InitState, DbOk;
    var t, e := trace[..i + 1], events[..i];
    forall j | 0 <= j < |e| ensures Step(t[j], e[j], t[j + 1]) {
      assert t[j] == trace[j] && t[j + 1] == trace[j + 1];
    }
  }

  function ReplaceRef(refs: seq<Uuid>, u: Uuid, v: Uuid): (r: seq<Uuid>)
    ensures |r| == |refs| && forall j :: 0 <= j < |refs| ==> r[j] == if refs[j] == u then v else refs[j]
  {
    seq(|refs|, j requires 0 <= j < |refs| => if refs[j] == u then v else refs[j])
  }

  /** The database after interface u was deleted and created again as v, under the same name. */
  function Recreated(db: Db, u: Uuid, v: Uuid, row: IntfRow): Db
  {
    db.(seqno := db.seqno + 1,
        intfs := (db.intfs - {u})[v := row],
        subs := seq(|db.subs|, i requires 0 <= i < |db.subs| =>
                  db.subs[i].(interfaces := ReplaceRef(db.subs[i].interfaces, u, v))),
        usedIntfs := db.usedIntfs + {v})
  }

  /** The environment may do that, with any configuration and `pm_info` in the new row. */
  lemma RecreationAllowed(db: Db, u: Uuid, v: Uuid, row: IntfRow)
    requires DbOk(db) && u in db.intfs && v !in db.usedIntfs && row.name == db.intfs[u].name
    ensures EnvStep(db, Recreated(db, u, v, row))
  {
    var db' := Recreated(db, u, v, row);
    forall i, j | 0 <= i < |db'.subs| && 0 <= j < |db'.subs[i].interfaces|
      ensures db'.subs[i].interfaces[j] in db'.intfs
    {
      assert db.subs[i].interfaces[j] in db.intfs;
    }
    assert DbOk(db');
    forall i | 0 <= i < |db'.subs| && db'.subs[i].uuid in db.usedSubs
      ensures exists j :: 0 <= j < |db.subs|
                && db.subs[j].uuid == db'.subs[i].uuid && db.subs[j].name == db'.subs[i].name
    {
      assert db.subs[i].uuid == db'.subs[i].uuid && db.subs[i].name == db'.subs[i].name;
    }
  }
}
