/** The full pass of `pmd_reconfigure`: it synchronises the tables with the database, leaves the
    module data of surviving ports alone, and changes nothing when run again. */
module Passes {
  import opened PortModel
  import opened SerialId
  import opened Rounds

  /** What holds of every port between rounds. */
  ghost predicate PortOk(p: PortState)
  {
    && RegisterAgrees(p)
    && !p.changed && !p.retry && !p.split && p.device.pluggable
    && (p.present ==> Known(p.device.socket))
    && (!p.present ==> p.cols == map[] && !p.a2Requested && !p.optical)
  }

  /** The key, the instance name and the row of a port belong together. */
  ghost predicate Placed(db: Db, n: string, p: PortState)
  {
    p.instance == n && p.uuid in db.intfs && db.intfs[p.uuid].name == n && PortOk(p)
  }

  ghost predicate AllPlaced(db: Db, ports: map<string, PortState>)
  {
    forall n :: n in ports ==> Placed(db, n, ports[n])
  }

  ghost predicate HwMatches(db: Db, p: PortState)
  {
    p.uuid in db.intfs && p.hwEnable == HwEnable(db.intfs[p.uuid])
  }

  /** The subsystem lists interface u, its read does not fail in this pass, and the library finds a
      pluggable device for it under the interface's name. */
  predicate SubServes(w: World, sub: SubRow, u: Uuid, name: string)
  {
    u in sub.interfaces && sub.name !in w.yamlBad && Creatable(w, sub.name, name)
  }

  /** Subsystem i is the first, in iteration order, to serve interface u. */
  ghost predicate FirstServer(w: World, db: Db, i: int, u: Uuid, name: string)
  {
    && 0 <= i < |db.subs| && SubServes(w, db.subs[i], u, name)
    && forall k :: 0 <= k < i ==> !SubServes(w, db.subs[k], u, name)
  }

  /** The port belongs to the live interface n, to the first subsystem that serves it, and to the
      device the library finds there. */
  ghost predicate Described(w: World, db: Db, n: string, p: PortState)
  {
    && p.uuid in db.intfs && db.intfs[p.uuid].name == n
    && exists i :: FirstServer(w, db, i, p.uuid, n)
         && p.subsystem == db.subs[i].name && p.device == w.yaml[(db.subs[i].name, n)]
  }

  /** Ports stay as they are; added ones are new, described by their subsystem and configured from
      their rows. */
  ghost predicate Grows(w: World, db: Db, a: map<string, PortState>, b: map<string, PortState>)
  {
    && (forall n :: n in a ==> n in b && b[n] == a[n])
    && (forall n :: n in b && n !in a ==> !b[n].present && HwMatches(db, b[n]) && Described(w, db, n, b[n]))
  }

  // ---- creation ----

  lemma NewPortOk(instance: string, uuid: Uuid, sub: string, device: YamlPort, hw: bool)
    requires device.pluggable
    ensures var p := NewPort(instance, uuid, sub, device, hw);
            && PortOk(p) && !p.present && p.instance == instance && p.uuid == uuid && p.hwEnable == hw
            && p.subsystem == sub && p.device == device
  {
  }

  ghost predicate NoneBefore(w: World, db: Db, i: nat, u: Uuid, name: string)
    requires i <= |db.subs|
  {
    forall k :: 0 <= k < i ==> !SubServes(w, db.subs[k], u, name)
  }

  lemma CreateOneGrows(w: World, db: Db, i: nat, u: Uuid, ports: map<string, PortState>)
    requires i < |db.subs| && u in db.subs[i].interfaces && u in db.intfs && AllPlaced(db, ports)
    requires db.subs[i].name !in w.yamlBad
    requires db.intfs[u].name !in ports ==> NoneBefore(w, db, i, u, db.intfs[u].name)
    ensures var sub := db.subs[i];
            var r := CreateOne(w, db, sub, u, ports);
            && AllPlaced(db, r) && Grows(w, db, ports, r)
            && (Creatable(w, sub.name, db.intfs[u].name) ==> db.intfs[u].name in r)
  {
    hide HwEnable, NewPort, PortOk;
    var row, sub := db.intfs[u], db.subs[i];
    if row.name !in ports && Creatable(w, sub.name, row.name) {
      NewPortOk(row.name, u, sub.name, w.yaml[(sub.name, row.name)], HwEnable(row));
      assert FirstServer(w, db, i, u, row.name);
    }
  }

  lemma GrowsTransitive(w: World, db: Db, a: map<string, PortState>, b: map<string, PortState>,
                        c: map<string, PortState>)
    requires Grows(w, db, a, b) && Grows(w, db, b, c)
    ensures Grows(w, db, a, c)
  {
  }

  ghost predicate ListsOk(db: Db, sub: SubRow)
  {
    forall j :: 0 <= j < |sub.interfaces| ==> sub.interfaces[j] in db.intfs
  }

  /** Interface j of the subsystem has its port, if it can have one. */
  ghost predicate Served(w: World, db: Db, sub: SubRow, j: nat, ports: map<string, PortState>)
    requires j < |sub.interfaces| && ListsOk(db, sub)
  {
    var name := db.intfs[sub.interfaces[j]].name;
    Creatable(w, sub.name, name) ==> name in ports
  }

  ghost predicate AllServed(w: World, db: Db, sub: SubRow, k: nat, ports: map<string, PortState>)
    requires k <= |sub.interfaces| && ListsOk(db, sub)
  {
    forall j :: 0 <= j < k ==> Served(w, db, sub, j, ports)
  }

  lemma ServedGrows(w: World, db: Db, sub: SubRow, k: nat, a: map<string, PortState>, b: map<string, PortState>)
    requires k <= |sub.interfaces| && ListsOk(db, sub) && AllServed(w, db, sub, k, a) && Grows(w, db, a, b)
    ensures AllServed(w, db, sub, k, b)
  {
    hide HwMatches, Described;
    forall j | 0 <= j < k ensures Served(w, db, sub, j, b) {
      assert Served(w, db, sub, j, a);
    }
  }

  /** The k subsystems processed have their ports, except those whose read failed. */
  ghost predicate ServedAfter(w: World, db: Db, k: nat, ports: map<string, PortState>)
    requires DbOk(db) && k <= |db.subs|
  {
    forall i :: 0 <= i < k && db.subs[i].name !in w.yamlBad ==>
      AllServed(w, db, db.subs[i], |db.subs[i].interfaces|, ports)
  }

  /** An interface whose port is missing is served by none of the subsystems processed. */
  lemma MissingUnserved(w: World, db: Db, k: nat, ports: map<string, PortState>, u: Uuid)
    requires DbOk(db) && k <= |db.subs| && ServedAfter(w, db, k, ports)
    requires u in db.intfs && db.intfs[u].name !in ports
    ensures NoneBefore(w, db, k, u, db.intfs[u].name)
  {
    forall i | 0 <= i < k ensures !SubServes(w, db.subs[i], u, db.intfs[u].name) {
      if u in db.subs[i].interfaces && db.subs[i].name !in w.yamlBad {
        var j :| 0 <= j < |db.subs[i].interfaces| && db.subs[i].interfaces[j] == u;
        assert Served(w, db, db.subs[i], j, ports);
      }
    }
  }

  lemma {:induction false} CreateMissingGrows(w: World, db: Db, i: nat, k: nat, ports: map<string, PortState>)
    requires DbOk(db) && i < |db.subs| && k <= |db.subs[i].interfaces| && AllPlaced(db, ports)
    requires db.subs[i].name !in w.yamlBad && ServedAfter(w, db, i, ports)
    ensures var r := CreateMissing(w, db, db.subs[i], k, ports);
            AllPlaced(db, r) && Grows(w, db, ports, r) && AllServed(w, db, db.subs[i], k, r)
  {
    hide CreateOne, HwMatches, Placed, Described, ServedAfter, NoneBefore;
    var sub := db.subs[i];
    if k > 0 {
      CreateMissingGrows(w, db, i, k - 1, ports);
      var m, u := CreateMissing(w, db, sub, k - 1, ports), sub.interfaces[k - 1];
      var r := CreateOne(w, db, sub, u, m);
      if db.intfs[u].name !in m {
        MissingUnserved(w, db, i, ports, u);
      }
      CreateOneGrows(w, db, i, u, m);
      GrowsTransitive(w, db, ports, m, r);
      ServedGrows(w, db, sub, k - 1, m, r);
      assert Served(w, db, sub, k - 1, r);
      forall j | 0 <= j < k ensures Served(w, db, sub, j, r) {
        if j < k - 1 { assert Served(w, db, sub, j, r); }
      }
    }
  }

  /** A subsystem already entered, or whose read succeeds, has all its ports after its turn. */
  lemma ProcessSubGrows(w: World, db: Db, i: nat, t: Tables)
    requires DbOk(db) && i < |db.subs| && AllPlaced(db, t.ports) && ServedAfter(w, db, i, t.ports)
    requires db.subs[i].name in t.subs ==> db.subs[i].name !in w.yamlBad
    ensures var sub := db.subs[i];
            var r := ProcessSub(w, db, sub, t);
            && AllPlaced(db, r.ports) && Grows(w, db, t.ports, r.ports)
            && (sub.name !in w.yamlBad ==> AllServed(w, db, sub, |sub.interfaces|, r.ports))
            && r.subs == if sub.name in t.subs then t.subs else t.subs[sub.name := sub.uuid]
  {
    hide AllPlaced, AllServed, CreateMissing, Grows, ServedAfter;
    if db.subs[i].name in w.yamlBad {
      GrowsSame(w, db, t.ports);
    } else {
      CreateMissingGrows(w, db, i, |db.subs[i].interfaces|, t.ports);
    }
  }

  /** After k subsystems: every one of them entered, and nothing else. */
  ghost predicate SubsAfter(db: Db, k: nat, before: map<string, Uuid>, after: map<string, Uuid>)
    requires k <= |db.subs|
  {
    && (forall n :: n in before ==> n in after && after[n] == before[n])
    && (forall i :: 0 <= i < k ==>
          && db.subs[i].name in after
          && (db.subs[i].name !in before ==> after[db.subs[i].name] == db.subs[i].uuid))
    && (forall n :: n in after && n !in before ==> exists i :: 0 <= i < k && db.subs[i].name == n)
  }

  lemma SubNotYet(db: Db, k: nat, before: map<string, Uuid>, after: map<string, Uuid>)
    requires DbOk(db) && k < |db.subs| && SubsAfter(db, k, before, after)
    ensures db.subs[k].name in after <==> db.subs[k].name in before
  {
  }

  lemma NamesBefore(db: Db, k: nat)
    requires DbOk(db) && k < |db.subs|
    ensures forall i :: 0 <= i < k ==> db.subs[i].name != db.subs[k].name
  {
  }

  lemma {:induction false} SubsAfterStep(db: Db, k: nat, before: map<string, Uuid>, m: map<string, Uuid>,
                                         r: map<string, Uuid>)
    requires DbOk(db) && k < |db.subs| && SubsAfter(db, k, before, m)
    requires r == if db.subs[k].name in m then m else m[db.subs[k].name := db.subs[k].uuid]
    ensures SubsAfter(db, k + 1, before, r)
  {
    hide DbOk;
    SubNotYet(db, k, before, m);
    NamesBefore(db, k);
    forall n | n in r && n !in before ensures exists i :: 0 <= i < k + 1 && db.subs[i].name == n {
      if n == db.subs[k].name {
      } else {
        var i :| 0 <= i < k && db.subs[i].name == n;
      }
    }
  }

  lemma ServedAfterStep(w: World, db: Db, k: nat, m: map<string, PortState>, r: map<string, PortState>)
    requires DbOk(db) && k < |db.subs| && ServedAfter(w, db, k, m) && Grows(w, db, m, r)
    requires db.subs[k].name !in w.yamlBad ==> AllServed(w, db, db.subs[k], |db.subs[k].interfaces|, r)
    ensures ServedAfter(w, db, k + 1, r)
  {
    hide AllServed, Grows;
    forall i | 0 <= i < k && db.subs[i].name !in w.yamlBad
      ensures AllServed(w, db, db.subs[i], |db.subs[i].interfaces|, r)
    {
      ServedGrows(w, db, db.subs[i], |db.subs[i].interfaces|, m, r);
    }
  }

  lemma {:induction false} ProcessSubsGrows(w: World, db: Db, k: nat, t: Tables)
    requires DbOk(db) && k <= |db.subs| && AllPlaced(db, t.ports) && t.subs.Keys !! w.yamlBad
    ensures var r := ProcessSubs(w, db, k, t);
            && AllPlaced(db, r.ports) && Grows(w, db, t.ports, r.ports)
            && SubsAfter(db, k, t.subs, r.subs) && ServedAfter(w, db, k, r.ports)
  {
    hide ProcessSub, AllPlaced, AllServed, Grows, SubsAfter, ServedAfter;
    if k == 0 {
      GrowsSame(w, db, t.ports);
      NoneProcessed(w, db, t);
    } else {
      ProcessSubsGrows(w, db, k - 1, t);
      var m := ProcessSubs(w, db, k - 1, t);
      SubNotYet(db, k - 1, t.subs, m.subs);
      ProcessSubGrows(w, db, k - 1, m);
      var r := ProcessSub(w, db, db.subs[k - 1], m);
      GrowsTransitive(w, db, t.ports, m.ports, r.ports);
      SubsAfterStep(db, k - 1, t.subs, m.subs, r.subs);
      ServedAfterStep(w, db, k - 1, m.ports, r.ports);
    }
  }

  lemma NoneProcessed(w: World, db: Db, t: Tables)
    requires DbOk(db)
    ensures SubsAfter(db, 0, t.subs, t.subs) && ServedAfter(w, db, 0, t.ports)
  {
  }

  lemma GrowsSame(w: World, db: Db, ports: map<string, PortState>)
    ensures Grows(w, db, ports, ports)
  {
  }

  // ---- modification ----

  /** The row found by a port's name is the port's own row. */
  lemma OwnRow(db: Db, n: string, p: PortState)
    requires DbOk(db) && Placed(db, n, p)
    ensures HasRow(db, n) && UuidNamed(db, n) == p.uuid
  {
  }

  /** Equal but for the laser configuration. */
  ghost predicate SameModule(p: PortState, q: PortState)
  {
    p == q.(hwEnable := p.hwEnable, portEnable := p.portEnable)
  }

  lemma ModifiedOk(p: PortState, hw: bool)
    requires PortOk(p)
    ensures PortOk(Modified(p, hw)) && Modified(p, hw).hwEnable == hw && SameModule(Modified(p, hw), p)
    ensures p.hwEnable == hw ==> Modified(p, hw) == p
  {
  }

  lemma ModifyOne(db: Db, ports: map<string, PortState>, n: string)
    requires DbOk(db) && n in ports && Placed(db, n, ports[n])
    ensures var r := ModifyAll(db, ports);
            && n in r && Placed(db, n, r[n]) && HwMatches(db, r[n]) && SameModule(r[n], ports[n])
            && (HwMatches(db, ports[n]) ==> r[n] == ports[n])
  {
    hide HwEnable, Modified, PortOk, UuidNamed;
    OwnRow(db, n, ports[n]);
    ModifiedOk(ports[n], HwEnable(db.intfs[ports[n].uuid]));
  }

  // ---- synchronisation ----

  /** The subsystem table is exactly the live subsystems. */
  ghost predicate SubsExact(db: Db, subs: map<string, Uuid>)
  {
    && (forall i :: 0 <= i < |db.subs| ==> db.subs[i].name in subs && subs[db.subs[i].name] == db.subs[i].uuid)
    && (forall n :: n in subs ==> exists i :: 0 <= i < |db.subs| && db.subs[i].name == n)
  }

  /** The tables agree with the database: every port has its live row under its own name and that
      row's laser configuration, the subsystems are the live ones, and every interface that a
      subsystem lists and the library calls pluggable has its port, unless the read of that
      subsystem failed in the last pass. */
  ghost predicate InSync(w: World, db: Db, t: Tables)
    requires DbOk(db)
  {
    && AllPlaced(db, t.ports)
    && (forall n :: n in t.ports ==> HwMatches(db, t.ports[n]))
    && SubsExact(db, t.subs)
    && (forall i :: 0 <= i < |db.subs| && db.subs[i].name !in w.yamlBad ==>
          AllServed(w, db, db.subs[i], |db.subs[i].interfaces|, t.ports))
  }

  /** What a database change may leave behind: dead uuids, but no port or subsystem entry whose
      uuid now belongs to another name. */
  ghost predicate Consistent(db: Db, t: Tables)
  {
    && (forall n :: n in t.ports ==>
          && t.ports[n].instance == n && PortOk(t.ports[n])
          && (t.ports[n].uuid in db.intfs ==> db.intfs[t.ports[n].uuid].name == n))
    && (forall n, i :: n in t.subs && 0 <= i < |db.subs| && db.subs[i].uuid == t.subs[n] ==> db.subs[i].name == n)
  }

  /** Ports with a live row keep their module data; every other port is new, and described by a
      subsystem that lists its interface. */
  ghost predicate Survive(w: World, db: Db, a: map<string, PortState>, b: map<string, PortState>)
  {
    && (forall n :: n in a && a[n].uuid in db.intfs ==> n in b && SameModule(b[n], a[n]))
    && (forall n :: n in b && !(n in a && a[n].uuid in db.intfs) ==> !b[n].present && Described(w, db, n, b[n]))
  }

  lemma SubsBecomeExact(db: Db, before: map<string, Uuid>, after: map<string, Uuid>)
    requires DbOk(db) && SubsAfter(db, |db.subs|, KeepLiveSubs(db, before), after)
    requires forall n, i :: n in before && 0 <= i < |db.subs| && db.subs[i].uuid == before[n] ==> db.subs[i].name == n
    ensures SubsExact(db, after)
  {
  }

  lemma KeepLivePlaced(db: Db, t: Tables)
    requires Consistent(db, t)
    ensures AllPlaced(db, KeepLive(db, t.ports))
  {
  }

  /** Being served is a matter of lookups and names. */
  lemma ServedByKeys(w: World, h: World, db: Db, sub: SubRow, a: map<string, PortState>, b: map<string, PortState>)
    requires ListsOk(db, sub) && w.yaml == h.yaml && a.Keys <= b.Keys && AllServed(w, db, sub, |sub.interfaces|, a)
    ensures AllServed(h, db, sub, |sub.interfaces|, b)
  {
    forall j | 0 <= j < |sub.interfaces| ensures Served(h, db, sub, j, b) {
      assert Served(w, db, sub, j, a);
      assert forall n :: n in a ==> n in b.Keys;
    }
  }

  lemma ModifyAllSyncs(db: Db, ports: map<string, PortState>)
    requires DbOk(db) && AllPlaced(db, ports)
    ensures var r := ModifyAll(db, ports);
            && r.Keys == ports.Keys && AllPlaced(db, r)
            && (forall n :: n in r ==> HwMatches(db, r[n]) && SameModule(r[n], ports[n]))
  {
    hide Placed, HwMatches, SameModule;
    var r := ModifyAll(db, ports);
    forall n | n in r ensures Placed(db, n, r[n]) && HwMatches(db, r[n]) && SameModule(r[n], ports[n]) {
      ModifyOne(db, ports, n);
    }
  }

  /** Where a port comes from does not depend on its module data. */
  lemma DescribedStill(w: World, db: Db, n: string, p: PortState, q: PortState)
    requires Described(w, db, n, p) && q.uuid == p.uuid && q.subsystem == p.subsystem && q.device == p.device
    ensures Described(w, db, n, q)
  {
  }

  lemma SurviveThrough(w: World, db: Db, a: map<string, PortState>, b: map<string, PortState>,
                       c: map<string, PortState>)
    requires Grows(w, db, KeepLive(db, a), b) && c.Keys == b.Keys && forall n :: n in c ==> SameModule(c[n], b[n])
    ensures Survive(w, db, a, c)
  {
    hide HwMatches, Described;
    var kept := KeepLive(db, a);
    forall n | n in a && a[n].uuid in db.intfs ensures n in c && SameModule(c[n], a[n]) {
      assert n in kept && kept[n] == a[n];
      assert n in b.Keys;
    }
    forall n | n in c && !(n in a && a[n].uuid in db.intfs)
      ensures !c[n].present && Described(w, db, n, c[n])
    {
      assert n in b.Keys && n !in kept;
      assert SameModule(c[n], b[n]);
      DescribedStill(w, db, n, b[n], c[n]);
    }
  }

  /** The full pass synchronises, whatever happened to the database before. */
  lemma FullPassSyncs(w: World, db: Db, st: DaemonState)
    requires DbOk(db) && Consistent(db, st.tables)
    ensures var h, r := PassHandle(w, db, st), FullPass(w, db, st);
            r.yaml == h && InSync(h, db, r.tables) && Survive(h, db, st.tables.ports, r.tables.ports)
  {
    hide AllPlaced, AllServed, Grows, SubsExact, Survive, HwMatches, SameModule, SubsAfter, ModifyAll, KeepLive,
      ProcessSubs;
    var h := PassHandle(w, db, st);
    var t0 := Tables(KeepLive(db, st.tables.ports), KeepLiveSubs(db, st.tables.subs));
    KeepLivePlaced(db, st.tables);
    ProcessSubsGrows(h, db, |db.subs|, t0);
    var t1 := ProcessSubs(h, db, |db.subs|, t0);
    SubsBecomeExact(db, st.tables.subs, t1.subs);
    ModifyAllSyncs(db, t1.ports);
    var ports := ModifyAll(db, t1.ports);
    SurviveThrough(h, db, st.tables.ports, t1.ports, ports);
    forall i | 0 <= i < |db.subs| && db.subs[i].name !in h.yamlBad
      ensures AllServed(h, db, db.subs[i], |db.subs[i].interfaces|, ports)
    {
      ServedByKeys(h, h, db, db.subs[i], t1.ports, ports);
    }
  }

  // ---- idempotence ----

  /** No interface of a subsystem whose read failed is waiting for its port. */
  ghost predicate NoneMissed(w: World, db: Db, ports: map<string, PortState>)
    requires DbOk(db)
  {
    forall i :: 0 <= i < |db.subs| && db.subs[i].name in w.yamlBad ==>
      AllServed(w, db, db.subs[i], |db.subs[i].interfaces|, ports)
  }

  lemma {:induction false} CreateMissingIdle(w: World, db: Db, sub: SubRow, k: nat, ports: map<string, PortState>)
    requires k <= |sub.interfaces| && ListsOk(db, sub) && AllServed(w, db, sub, |sub.interfaces|, ports)
    ensures CreateMissing(w, db, sub, k, ports) == ports
  {
    hide NewPort, HwEnable;
    if k > 0 {
      CreateMissingIdle(w, db, sub, k - 1, ports);
      assert Served(w, db, sub, k - 1, ports);
    }
  }

  lemma {:induction false} ProcessSubsIdle(w: World, db: Db, k: nat, t: Tables)
    requires DbOk(db) && k <= |db.subs|
    requires forall i :: 0 <= i < k ==>
               db.subs[i].name in t.subs && AllServed(w, db, db.subs[i], |db.subs[i].interfaces|, t.ports)
    ensures ProcessSubs(w, db, k, t) == t
  {
    hide AllServed, CreateMissing;
    if k > 0 {
      ProcessSubsIdle(w, db, k - 1, t);
      CreateMissingIdle(w, db, db.subs[k - 1], |db.subs[k - 1].interfaces|, t.ports);
    }
  }

  lemma KeepsAll(w: World, db: Db, t: Tables)
    requires DbOk(db) && InSync(w, db, t)
    ensures KeepLive(db, t.ports) == t.ports && KeepLiveSubs(db, t.subs) == t.subs
  {
  }

  lemma ModifyAllIdle(w: World, db: Db, t: Tables)
    requires DbOk(db) && InSync(w, db, t)
    ensures ModifyAll(db, t.ports) == t.ports
  {
    hide AllServed, HwMatches, Placed, SubsExact, SameModule;
    forall n | n in t.ports ensures ModifyAll(db, t.ports)[n] == t.ports[n] {
      ModifyOne(db, t.ports, n);
    }
  }

  lemma SyncServed(h: World, db: Db, t: Tables, w: World)
    requires DbOk(db) && InSync(h, db, t) && NoneMissed(h, db, t.ports) && w.yaml == h.yaml
    ensures forall i :: 0 <= i < |db.subs| ==>
              db.subs[i].name in t.subs && AllServed(w, db, db.subs[i], |db.subs[i].interfaces|, t.ports)
  {
    hide AllServed, HwMatches, AllPlaced;
    forall i | 0 <= i < |db.subs| ensures AllServed(w, db, db.subs[i], |db.subs[i].interfaces|, t.ports) {
      ServedByKeys(h, w, db, db.subs[i], t.ports, t.ports);
    }
  }

  /** On tables in sync a further pass with the same handle changes nothing, in the port table with
      its registers or in the subsystem table, if and only if no subsystem whose read failed in the
      last pass has an interface left over from its turn. No file is read in that pass. */
  lemma FullPassIdempotent(w: World, db: Db, st: DaemonState)
    requires DbOk(db) && InSync(st.yaml, db, st.tables) && st.seqno == db.seqno && w.yaml == st.yaml.yaml
    ensures FullPass(w, db, st).tables == st.tables <==> NoneMissed(st.yaml, db, st.tables.ports)
    ensures NoneMissed(st.yaml, db, st.tables.ports) || FullPass(w, db, st).tables.ports.Keys != st.tables.ports.Keys
  {
    hide AllServed, HwMatches, AllPlaced, SubsAfter, Grows, ModifyAll, ProcessSubs, KeepLive, KeepLiveSubs;
    var t, h := st.tables, PassHandle(w, db, st);
    KeepsAll(st.yaml, db, t);
    if NoneMissed(st.yaml, db, t.ports) {
      SyncServed(st.yaml, db, t, h);
      ProcessSubsIdle(h, db, |db.subs|, t);
      ModifyAllIdle(st.yaml, db, t);
    } else {
      ProcessSubsGrows(h, db, |db.subs|, t);
      var t1 := ProcessSubs(h, db, |db.subs|, t);
      ModifyAllSyncs(db, t1.ports);
      if t1.ports.Keys == t.ports.Keys {
        forall i | 0 <= i < |db.subs| ensures AllServed(st.yaml, db, db.subs[i], |db.subs[i].interfaces|, t.ports) {
          assert db.subs[i].name in t.subs.Keys;
          ServedByKeys(h, st.yaml, db, db.subs[i], t1.ports, t.ports);
        }
        assert false;
      }
    }
  }

  // ---- initialisation ----

  lemma ConfigureAllIdle(db: Db, ports: map<string, PortState>)
    requires AllPlaced(db, ports)
    ensures ConfigureAll(db, ports) == ports
  {
  }

  /** Initialisation leaves the tables in sync with the database it saw. */
  lemma InitSyncs(w: World, db: Db)
    requires DbOk(db)
    ensures InSync(w, db, InitState(w, db).tables)
    ensures forall n :: n in InitState(w, db).tables.ports ==>
              !InitState(w, db).tables.ports[n].present && Described(w, db, n, InitState(w, db).tables.ports[n])
  {
    hide AllServed, AllPlaced, HwMatches, ProcessSubs, ConfigureAll, Described;
    var t0 := Tables(map[], map[]);
    EmptyPlaced(db);
    ProcessSubsGrows(w, db, |db.subs|, t0);
    var t := ProcessSubs(w, db, |db.subs|, t0);
    ConfigureAllIdle(db, t.ports);
    InitSubsExact(db, t.subs);
  }

  lemma EmptyPlaced(db: Db)
    ensures AllPlaced(db, map[])
  {
  }

  lemma InitSubsExact(db: Db, subs: map<string, Uuid>)
    requires DbOk(db) && SubsAfter(db, |db.subs|, map[], subs)
    ensures SubsExact(db, subs)
  {
  }
}
