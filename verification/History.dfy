/**
 Zone versions and their bounded delta history (src/zone_manager.rs; section 4 of RFC 1995):
 over every run of reloads the retained chain rebuilds the served zone.
 */
module History {
  import opened Bytes
  import opened Wire
  import opened Zones

  // Contents of a zone version

  /** What a delta distinguishes: name, type and data. TTL and class are not compared. */
  type Item = (text, u16, bytes)

  function ItemOf(r: Record): Item {
    (Lower(r.name), Code(r.rtype), r.rdata)
  }

  /** The record stands in the zone. */
  predicate Holds(z: ZoneView, r: Record) {
    r in RrsetOr(z, RrsetKey(r))
  }

  /** All records of the zone but its SOA, as items. */
  function Items(z: ZoneView): set<Item> {
    set k, i | k in z.rrsets && 0 <= i < |z.rrsets[k]| && z.rrsets[k][i].rtype != SOA :: ItemOf(z.rrsets[k][i])
  }

  function ItemsOf(rs: seq<Record>): set<Item> {
    set i | 0 <= i < |rs| :: ItemOf(rs[i])
  }

  /** The first SOA record at the apex. */
  function ApexSoa(z: ZoneView): Option<Record> {
    var soa := Lookup(z, z.origin, SOA);
    if soa.Some? && soa.value != [] then Some(soa.value[0]) else None
  }

  function Serial(z: ZoneView): Option<u32> {
    var soa := ApexSoa(z);
    if soa.None? then None else SoaSerial(soa.value.rdata)
  }

  // Deltas

  datatype ZoneDelta = ZoneDelta(fromSerial: u32, toSerial: u32, fromSoa: Record, toSoa: Record,
                                 removed: seq<Record>, added: seq<Record>)

  predicate NoSoa(rs: seq<Record>) {
    forall i :: 0 <= i < |rs| ==> rs[i].rtype != SOA
  }

  /** `d` is the exact difference between two versions. */
  ghost predicate IsDelta(d: ZoneDelta, older: ZoneView, newer: ZoneView) {
    && ApexSoa(older) == Some(d.fromSoa) && ApexSoa(newer) == Some(d.toSoa)
    && Serial(older) == Some(d.fromSerial) && Serial(newer) == Some(d.toSerial)
    && ItemsOf(d.removed) == Items(older) - Items(newer)
    && ItemsOf(d.added) == Items(newer) - Items(older)
    && NoSoa(d.removed) && NoSoa(d.added)
    && (forall i :: 0 <= i < |d.removed| ==> Holds(older, d.removed[i]))
    && (forall i :: 0 <= i < |d.added| ==> Holds(newer, d.added[i]))
  }

  /** What a secondary does with one delta, and with a chain of them. */
  function ApplyDelta(d: ZoneDelta, items: set<Item>): set<Item> {
    items - ItemsOf(d.removed) + ItemsOf(d.added)
  }

  function Apply(chain: seq<ZoneDelta>, items: set<Item>): set<Item>
    decreases |chain|
  {
    if chain == [] then items else Apply(chain[1..], ApplyDelta(chain[0], items))
  }

  // The manager

  /** Zones, their files, load counts and delta queues, by origin. */
  datatype Manager = Manager(zones: map<text, ZoneView>, zoneFiles: map<text, text>, versions: map<text, nat>,
                             history: map<text, seq<ZoneDelta>>)

  const HISTORY_CAP: nat := 32

  function Queue(m: Manager, origin: text): seq<ZoneDelta> {
    if origin in m.history then m.history[origin] else []
  }

  /** The newest `HISTORY_CAP` deltas. */
  function Capped(q: seq<ZoneDelta>): seq<ZoneDelta> {
    if |q| > HISTORY_CAP then q[|q| - HISTORY_CAP..] else q
  }

  function VersionOf(m: Manager, origin: text): nat {
    if origin in m.versions then m.versions[origin] else 0
  }

  /** The transition from the previous version is representable and changes the serial. */
  predicate Queues(m: Manager, origin: text, z: ZoneView) {
    origin in m.zones && Serial(m.zones[origin]).Some? && Serial(z).Some?
    && Serial(m.zones[origin]) != Serial(z)
  }

  /** The history after loading `z`: one more delta, or unchanged. */
  ghost predicate HistoryAfter(m: Manager, origin: text, z: ZoneView, history: map<text, seq<ZoneDelta>>) {
    if Queues(m, origin, z) then
      exists d :: IsDelta(d, m.zones[origin], z) && history == m.history[origin := Capped(Queue(m, origin) + [d])]
    else history == m.history
  }

  /** One `load_zone` that read the file as `z`. */
  ghost predicate Loads(m: Manager, origin: text, path: text, z: ZoneView, n: Manager) {
    && n.zones == m.zones[origin := z]
    && n.zoneFiles == m.zoneFiles[origin := path]
    && n.versions == m.versions[origin := VersionOf(m, origin) + 1]
    && HistoryAfter(m, origin, z, n.history)
  }

  /** The earliest delta that starts at the serial. */
  function StartOf(q: seq<ZoneDelta>, serial: u32): (r: Option<nat>)
    ensures r.Some? ==> r.value < |q| && q[r.value].fromSerial == serial
  {
    if q == [] then None
    else if q[0].fromSerial == serial then Some(0)
    else
      var rest := StartOf(q[1..], serial);
      if rest.None? then None else Some(rest.value + 1)
  }

  predicate Contiguous(chain: seq<ZoneDelta>) {
    forall i :: 0 < i < |chain| ==> chain[i].fromSerial == chain[i - 1].toSerial
  }

  /** `ixfr_chain` on one queue. */
  function ChainIn(q: seq<ZoneDelta>, serial: u32): Option<seq<ZoneDelta>> {
    var start := StartOf(q, serial);
    if start.None? then None
    else if Contiguous(q[start.value..]) then Some(q[start.value..])
    else None
  }

  function IxfrChain(m: Manager, origin: text, serial: u32): Option<seq<ZoneDelta>> {
    if origin in m.history then ChainIn(m.history[origin], serial) else None
  }

  // The server: the manager, the published zones and everything ever loaded, in order

  datatype Server = Server(manager: Manager, published: set<ZoneView>, ghost log: map<text, seq<ZoneView>>)

  /** The versions of a zone, oldest first. */
  ghost function Loaded(s: Server, origin: text): seq<ZoneView> {
    if origin in s.log then s.log[origin] else []
  }

  ghost function Log(s: Server, origin: text): set<ZoneView> {
    VersionsIn(Loaded(s, origin))
  }

  function VersionsIn(vs: seq<ZoneView>): set<ZoneView> {
    set i | 0 <= i < |vs| :: vs[i]
  }

  lemma VersionsSnoc(vs: seq<ZoneView>, z: ZoneView)
    ensures VersionsIn(vs + [z]) == VersionsIn(vs) + {z}
  {
    var all := vs + [z];
    assert forall i :: 0 <= i < |vs| ==> all[i] == vs[i];
    assert all[|vs|] == z;
  }

  ghost predicate Init(s: Server) {
    s.manager == Manager(map[], map[], map[], map[]) && s.log == map[]
  }

  /** One zone is loaded or reloaded. */
  ghost predicate LoadStep(s: Server, t: Server) {
    exists origin, path, z ::
      Loads(s.manager, origin, path, z, t.manager) && t.published == s.published
      && t.log == s.log[origin := Loaded(s, origin) + [z]]
  }

  /** The reload watcher publishes the manager's zones, unless there are none. */
  ghost predicate PublishStep(s: Server, t: Server) {
    t.manager == s.manager && t.log == s.log
    && t.published == if s.manager.zones.Values == {} then s.published else s.manager.zones.Values
  }

  ghost predicate Step(s: Server, t: Server) {
    LoadStep(s, t) || PublishStep(s, t)
  }

  /** Any interleaving of loads and publications from the start. */
  ghost predicate IsRun(run: seq<Server>) {
    |run| > 0 && Init(run[0]) && forall i :: 0 <= i < |run| - 1 ==> Step(run[i], run[i + 1])
  }

  // The invariant

  ghost predicate FromLog(d: ZoneDelta, versions: set<ZoneView>) {
    exists a, b :: a in versions && b in versions && IsDelta(d, a, b)
  }

  /** Queues stay within the cap, and every queued delta is the exact difference of two loaded versions. */
  ghost predicate HistoryExact(s: Server) {
    && (forall o :: o in s.manager.zones ==> s.manager.zones[o] in Log(s, o))
    && (forall o :: o in s.manager.history ==> |s.manager.history[o]| <= HISTORY_CAP)
    && (forall o :: o in s.manager.history ==> AllFromLog(s.manager.history[o], Log(s, o)))
  }

  lemma FromLogGrows(d: ZoneDelta, versions: set<ZoneView>, more: set<ZoneView>)
    requires FromLog(d, versions) && versions <= more
    ensures FromLog(d, more)
  {
    hide IsDelta;
    var a, b :| a in versions && b in versions && IsDelta(d, a, b);
  }

  ghost predicate AllFromLog(q: seq<ZoneDelta>, versions: set<ZoneView>) {
    forall i :: 0 <= i < |q| ==> FromLog(q[i], versions)
  }

  /** Pushing one exact delta and dropping the oldest keeps a queue exact and within the cap. */
  lemma PushKeepsExact(q: seq<ZoneDelta>, d: ZoneDelta, versions: set<ZoneView>, more: set<ZoneView>)
    requires AllFromLog(q, versions) && versions <= more && FromLog(d, more)
    ensures AllFromLog(Capped(q + [d]), more) && |Capped(q + [d])| <= HISTORY_CAP
  {
    hide FromLog;
    var all := q + [d];
    forall i | 0 <= i < |Capped(all)| ensures FromLog(Capped(all)[i], more) {
      var j := i + |all| - |Capped(all)|;
      assert Capped(all)[i] == all[j];
      if j < |q| { FromLogGrows(q[j], versions, more); }
    }
  }

  lemma QueueGrows(q: seq<ZoneDelta>, versions: set<ZoneView>, more: set<ZoneView>)
    requires AllFromLog(q, versions) && versions <= more
    ensures AllFromLog(q, more)
  {
    hide FromLog;
    forall i | 0 <= i < |q| ensures FromLog(q[i], more) {
      FromLogGrows(q[i], versions, more);
    }
  }

  lemma LoadKeepsExact(s: Server, t: Server)
    requires HistoryExact(s) && LoadStep(s, t)
    ensures HistoryExact(t)
  {
    hide Loads;
    var origin, path, z :|
      Loads(s.manager, origin, path, z, t.manager) && t.published == s.published
      && t.log == s.log[origin := Loaded(s, origin) + [z]];
    OneLoadKeepsExact(s, t, origin, path, z);
  }

  lemma OneLoadKeepsExact(s: Server, t: Server, origin: text, path: text, z: ZoneView)
    requires HistoryExact(s) && Loads(s.manager, origin, path, z, t.manager)
    requires t.log == s.log[origin := Loaded(s, origin) + [z]]
    ensures HistoryExact(t)
  {
    hide IsDelta, AllFromLog, Capped, Queues, Log, Loaded;
    forall o ensures Log(t, o) == if o == origin then Log(s, o) + {z} else Log(s, o) {
      LogAfterLoad(s, t, origin, z, o);
    }
    forall o | o in s.manager.history ensures AllFromLog(s.manager.history[o], Log(t, o)) {
      QueueGrows(s.manager.history[o], Log(s, o), Log(t, o));
    }
    if Queues(s.manager, origin, z) {
      LoadPushes(s, t, origin, path, z);
    }
  }

  lemma LoadPushes(s: Server, t: Server, origin: text, path: text, z: ZoneView)
    requires HistoryExact(s) && Loads(s.manager, origin, path, z, t.manager) && Queues(s.manager, origin, z)
    requires t.log == s.log[origin := Loaded(s, origin) + [z]]
    ensures exists q :: t.manager.history == s.manager.history[origin := q]
                        && AllFromLog(q, Log(t, origin)) && |q| <= HISTORY_CAP
  {
    LogAfterLoad(s, t, origin, z, origin);
    hide IsDelta, AllFromLog, Capped, Log;
    var d :| IsDelta(d, s.manager.zones[origin], z)
             && t.manager.history == s.manager.history[origin := Capped(Queue(s.manager, origin) + [d])];
    assert FromLog(d, Log(t, origin));
    EmptyFromLog(Log(s, origin));
    PushKeepsExact(Queue(s.manager, origin), d, Log(s, origin), Log(t, origin));
  }

  lemma LogAfterLoad(s: Server, t: Server, origin: text, z: ZoneView, o: text)
    requires t.log == s.log[origin := Loaded(s, origin) + [z]]
    ensures Log(t, o) == if o == origin then Log(s, o) + {z} else Log(s, o)
  {
    VersionsSnoc(Loaded(s, origin), z);
  }

  lemma EmptyFromLog(versions: set<ZoneView>)
    ensures AllFromLog([], versions)
  {}

  lemma PublishKeepsExact(s: Server, t: Server)
    requires HistoryExact(s) && PublishStep(s, t)
    ensures HistoryExact(t)
  {
    hide AllFromLog, Log;
    forall o ensures Log(t, o) == Log(s, o) {
      SameLog(s, t, o);
    }
  }

  lemma SameLog(s: Server, t: Server, o: text)
    requires s.log == t.log
    ensures Log(s, o) == Log(t, o) && Loaded(s, o) == Loaded(t, o)
  {}

  lemma {:induction false} RunKeepsExact(run: seq<Server>, n: nat)
    requires IsRun(run) && n < |run|
    ensures HistoryExact(run[n])
  {
    if n > 0 {
      RunKeepsExact(run, n - 1);
      assert Step(run[n - 1], run[n]);
      if LoadStep(run[n - 1], run[n]) {
        LoadKeepsExact(run[n - 1], run[n]);
      } else {
        PublishKeepsExact(run[n - 1], run[n]);
      }
    }
  }

  lemma StepKeepsLog(s: Server, t: Server, o: text)
    requires Step(s, t)
    ensures Log(s, o) <= Log(t, o)
  {
    hide Loads;
    if LoadStep(s, t) {
      var origin, path, z :|
        Loads(s.manager, origin, path, z, t.manager) && t.published == s.published
        && t.log == s.log[origin := Loaded(s, origin) + [z]];
      LogAfterLoad(s, t, origin, z, o);
    } else {
      SameLog(s, t, o);
    }
  }

  lemma {:induction false} LogGrows(run: seq<Server>, i: nat, j: nat, origin: text)
    requires IsRun(run) && i <= j < |run|
    ensures Log(run[i], origin) <= Log(run[j], origin)
  {
    if i < j {
      LogGrows(run, i, j - 1, origin);
      assert Step(run[j - 1], run[j]);
      StepKeepsLog(run[j - 1], run[j], origin);
    }
  }

  // Replaying a chain

  /** Versions with the same serial have the same records, SOA aside: no re-signing without a new serial. */
  ghost predicate SerialsAgree(versions: set<ZoneView>) {
    forall a, b :: a in versions && b in versions && Serial(a).Some? && Serial(a) == Serial(b) ==> Items(a) == Items(b)
  }

  /** A delta leads from its older to its newer version. */
  lemma DeltaLeads(d: ZoneDelta, a: ZoneView, b: ZoneView)
    requires IsDelta(d, a, b)
    ensures ApplyDelta(d, Items(a)) == Items(b)
  {}

  lemma ContiguousTail(chain: seq<ZoneDelta>)
    requires |chain| > 1 && Contiguous(chain)
    ensures Contiguous(chain[1..]) && chain[1].fromSerial == chain[0].toSerial
  {
    var rest := chain[1..];
    forall i | 0 < i < |rest| ensures rest[i].fromSerial == rest[i - 1].toSerial {
      assert rest[i] == chain[i + 1] && rest[i - 1] == chain[i];
    }
  }

  /** A contiguous chain of exact differences leads from any version of its first serial to any of its last. */
  lemma {:induction false} ChainLeads(chain: seq<ZoneDelta>, versions: set<ZoneView>, from: ZoneView, to: ZoneView)
    requires |chain| > 0 && Contiguous(chain) && SerialsAgree(versions) && AllFromLog(chain, versions)
    requires from in versions && Serial(from) == Some(chain[0].fromSerial)
    requires to in versions && Serial(to) == Some(chain[|chain| - 1].toSerial)
    ensures Apply(chain, Items(from)) == Items(to)
    decreases |chain|
  {
    hide Items, ApplyDelta, IsDelta, Serial, Contiguous;
    var d := chain[0];
    assert FromLog(d, versions);
    var a, b :| a in versions && b in versions && IsDelta(d, a, b);
    DeltaSerials(d, a, b);
    assert Items(a) == Items(from);
    DeltaLeads(d, a, b);
    var rest := chain[1..];
    if |chain| == 1 {
      assert Items(b) == Items(to);
      ApplyNothing(Items(b));
    } else {
      ContiguousTail(chain);
      ChainLeads(rest, versions, b, to);
    }
  }

  lemma ApplyNothing(items: set<Item>)
    ensures Apply([], items) == items
  {}

  /** The serial `ixfr_stream` gives a zone: 0 when its SOA data does not decode. */
  function Number(z: ZoneView): u32 {
    if Serial(z).Some? then Serial(z).value else 0
  }

  /**
   Take any run and any two of its moments. A transfer takes its zone from the zones
   published at the first and its chain from the manager at the second. If versions with
   equal serials have equal records, then whenever the delta answer is given -- the chain
   ends at the served number -- a secondary holding any version with the requested serial
   that replays the chain ends with the newest version of that number, whatever was dropped
   at the cap and whatever versions without an SOA came between. That is the served zone
   exactly when the served zone has a serial of its own, or has those records anyway.
   */
  lemma TransferIsExact(run: seq<Server>, i: nat, j: nat, origin: text, served: ZoneView, held: ZoneView,
                        newest: ZoneView, serial: u32)
    requires IsRun(run) && i <= j < |run|
    requires served in run[i].published && served in Log(run[i], origin)
    requires SerialsAgree(Log(run[j], origin))
    requires held in Log(run[j], origin) && Serial(held) == Some(serial)
    requires var chain := IxfrChain(run[j].manager, origin, serial);
             chain.Some? && chain.value != [] && Number(served) == chain.value[|chain.value| - 1].toSerial
    requires newest in Log(run[j], origin) && Serial(newest) == Some(Number(served))
    ensures Apply(IxfrChain(run[j].manager, origin, serial).value, Items(held)) == Items(newest)
    ensures Apply(IxfrChain(run[j].manager, origin, serial).value, Items(held)) == Items(served)
            <==> Serial(served).Some? || Items(served) == Items(newest)
  {
    hide Items, Serial, SerialsAgree, FromLog, Log;
    RunKeepsExact(run, j);
    LogGrows(run, i, j, origin);
    var q := run[j].manager.history[origin];
    var start := StartOf(q, serial).value;
    var chain := q[start..];
    assert AllFromLog(chain, Log(run[j], origin));
    ChainLeads(chain, Log(run[j], origin), held, newest);
    if Serial(served).Some? {
      EqualSerials(Log(run[j], origin), served, newest);
    }
  }

  lemma EqualSerials(versions: set<ZoneView>, a: ZoneView, b: ZoneView)
    requires SerialsAgree(versions) && a in versions && b in versions && Serial(a).Some? && Serial(a) == Serial(b)
    ensures Items(a) == Items(b)
  {}

  /** Whenever a chain is found, some loaded version has the serial it ends with. */
  lemma NewestLoaded(run: seq<Server>, j: nat, origin: text, serial: u32) returns (newest: ZoneView)
    requires IsRun(run) && j < |run|
    requires var chain := IxfrChain(run[j].manager, origin, serial); chain.Some? && chain.value != []
    ensures var chain := IxfrChain(run[j].manager, origin, serial).value;
            newest in Log(run[j], origin) && Serial(newest) == Some(chain[|chain| - 1].toSerial)
  {
    hide Serial, Log;
    RunKeepsExact(run, j);
    var q := run[j].manager.history[origin];
    assert FromLog(q[|q| - 1], Log(run[j], origin));
    var older, newer :|
      older in Log(run[j], origin) && newer in Log(run[j], origin) && IsDelta(q[|q| - 1], older, newer);
    newest := newer;
  }

  // When serials do not agree

  /** A delta is exact for a copy precisely when the copy lies between the two versions' common and joint records. */
  lemma DeltaExactFor(d: ZoneDelta, older: ZoneView, newer: ZoneView, held: set<Item>)
    requires IsDelta(d, older, newer)
    ensures ApplyDelta(d, held) == Items(newer)
            <==> Items(older) * Items(newer) <= held && held <= Items(older) + Items(newer)
  {
    hide Items;
    var a, b := Items(older), Items(newer);
    assert ApplyDelta(d, held) == held - (a - b) + (b - a);
    if ApplyDelta(d, held) == b {
      forall x | x in a * b ensures x in held { assert x in held - (a - b) + (b - a); }
      assert held <= (held - (a - b) + (b - a)) + a;
    }
  }

  /** What a chain removes and adds in the end. */
  function NetRemoved(chain: seq<ZoneDelta>): set<Item>
    decreases |chain|
  {
    if chain == [] then {}
    else ItemsOf(chain[0].removed) - ItemsOf(chain[0].added) - NetAdded(chain[1..]) + NetRemoved(chain[1..])
  }

  function NetAdded(chain: seq<ZoneDelta>): set<Item>
    decreases |chain|
  {
    if chain == [] then {} else ItemsOf(chain[0].added) - NetRemoved(chain[1..]) + NetAdded(chain[1..])
  }

  lemma {:induction false} ApplyNet(chain: seq<ZoneDelta>, held: set<Item>)
    ensures Apply(chain, held) == held - NetRemoved(chain) + NetAdded(chain)
    ensures NetRemoved(chain) !! NetAdded(chain)
    decreases |chain|
  {
    if chain != [] {
      hide ItemsOf;
      ApplyNet(chain[1..], ApplyDelta(chain[0], held));
      var r, d, rr, dd := ItemsOf(chain[0].removed), ItemsOf(chain[0].added), NetRemoved(chain[1..]),
          NetAdded(chain[1..]);
      assert held - r + d - rr + dd == held - (r - d - dd + rr) + (d - rr + dd);
    }
  }

  /**
   Without any assumption on serials: replaying a chain on a copy gives the target exactly
   when the target shows the chain's net effect and the copy agrees with it everywhere else.
   */
  lemma ChainExactFor(chain: seq<ZoneDelta>, held: set<Item>, target: set<Item>)
    ensures var touched := NetRemoved(chain) + NetAdded(chain);
            Apply(chain, held) == target
            <==> target * touched == NetAdded(chain) && held - touched == target - touched
  {
    ApplyNet(chain, held);
    var r, d := NetRemoved(chain), NetAdded(chain);
    if target * (r + d) == d && held - (r + d) == target - (r + d) {
      forall x ensures x in held - r + d <==> x in target {
        if x !in r + d { assert x in held - (r + d) <==> x in target - (r + d); }
        if x in r + d { assert x in target * (r + d) <==> x in target; }
      }
    }
    if held - r + d == target {
      forall x ensures x in target * (r + d) <==> x in d {}
      forall x ensures x in held - (r + d) <==> x in target - (r + d) {}
    }
  }

  /** A queue of one delta, as a chain and replayed. */
  lemma ChainOfOne(m: Manager, origin: text, d: ZoneDelta, held: set<Item>)
    requires origin in m.history && m.history[origin] == [d]
    ensures IxfrChain(m, origin, d.fromSerial) == Some([d]) && Apply([d], held) == ApplyDelta(d, held)
  {
    hide ApplyDelta;
    assert StartOf([d], d.fromSerial) == Some(0);
    assert [d][0..] == [d] && [d][1..] == [];
  }

  /** A load that changes the serial of a zone without queue leaves a queue of one delta. */
  lemma FirstDelta(m: Manager, origin: text, path: text, z: ZoneView, n: Manager) returns (d: ZoneDelta)
    requires Loads(m, origin, path, z, n) && Queues(m, origin, z) && m.history == map[]
    ensures IsDelta(d, m.zones[origin], z) && n.history == map[origin := [d]]
  {
    hide IsDelta, Serial;
    d :| IsDelta(d, m.zones[origin], z) && n.history == m.history[origin := Capped(Queue(m, origin) + [d])];
    assert Queue(m, origin) + [d] == [d];
  }

  /**
   Re-signing without a new serial breaks exactness: three loads with serials n, n, m leave
   one delta, taken from the second version; a secondary that copied the first is brought to
   the third exactly when its copy lies between the second and third as above.
   */
  lemma ResignedTransfer(s: Server, t: Server, u: Server, v: Server, origin: text, path: text,
                         first: ZoneView, second: ZoneView, third: ZoneView)
    requires Init(s)
    requires Loads(s.manager, origin, path, first, t.manager)
    requires Loads(t.manager, origin, path, second, u.manager)
    requires Loads(u.manager, origin, path, third, v.manager)
    requires Serial(first).Some? && Serial(first) == Serial(second)
    requires Serial(third).Some? && Serial(third) != Serial(second)
    ensures var chain := IxfrChain(v.manager, origin, Serial(first).value);
            chain.Some? && chain.value != []
            && Serial(third) == Some(chain.value[|chain.value| - 1].toSerial)
            && (Apply(chain.value, Items(first)) == Items(third)
                <==> Items(second) * Items(third) <= Items(first) && Items(first) <= Items(second) + Items(third))
  {
    hide Items, Serial;
    hide IsDelta, IxfrChain, Apply;
    var d := FirstDelta(u.manager, origin, path, third, v.manager);
    ChainOfOne(v.manager, origin, d, Items(first));
    assert Serial(second) == Some(d.fromSerial) && Serial(third) == Some(d.toSerial) by {
      DeltaSerials(d, second, third);
    }
    DeltaExactFor(d, second, third, Items(first));
  }

  /**
   So does re-signing after the change of serial: loads with serials n, m, m leave one delta,
   to the second version; a secondary that holds the first is brought to the second, which is
   the third exactly when re-signing changed nothing.
   */
  lemma ResignedAfterChange(s: Server, t: Server, u: Server, v: Server, origin: text, path: text,
                            first: ZoneView, second: ZoneView, third: ZoneView)
    requires Init(s)
    requires Loads(s.manager, origin, path, first, t.manager)
    requires Loads(t.manager, origin, path, second, u.manager)
    requires Loads(u.manager, origin, path, third, v.manager)
    requires Serial(first).Some? && Serial(second).Some? && Serial(first) != Serial(second)
    requires Serial(third) == Serial(second)
    ensures var chain := IxfrChain(v.manager, origin, Serial(first).value);
            chain.Some? && chain.value != []
            && Serial(third) == Some(chain.value[|chain.value| - 1].toSerial)
            && Apply(chain.value, Items(first)) == Items(second)
            && (Apply(chain.value, Items(first)) == Items(third) <==> Items(second) == Items(third))
  {
    hide Items, Serial;
    hide IsDelta, IxfrChain, Apply;
    var d := FirstDelta(t.manager, origin, path, second, u.manager);
    assert v.manager.history == u.manager.history;
    ChainOfOne(v.manager, origin, d, Items(first));
    DeltaSerials(d, first, second);
    DeltaLeads(d, first, second);
  }

  // The manager object

  function NonSoa(rs: seq<Record>, except: set<Item>): seq<Record> {
    if rs == [] then []
    else (if rs[0].rtype != SOA && ItemOf(rs[0]) !in except then [rs[0]] else []) + NonSoa(rs[1..], except)
  }

  lemma {:induction false} NonSoaMeaning(rs: seq<Record>, except: set<Item>)
    ensures var f := NonSoa(rs, except);
            NoSoa(f) && forall r :: r in f <==> r in rs && r.rtype != SOA && ItemOf(r) !in except
  {
    hide ItemOf;
    if rs != [] {
      NonSoaMeaning(rs[1..], except);
      assert rs == [rs[0]] + rs[1..];
    }
  }

  /** How often the record stands in the zone. */
  function CountIn(z: ZoneView, r: Record): nat {
    multiset(RrsetOr(z, RrsetKey(r)))[r]
  }

  /** `iter_rrsets().flat_map(..)`: every record once, in the arbitrary order of the hash map. */
  method AllRecords(z: ZoneView) returns (rs: seq<Record>)
    requires Keyed(z)
    ensures forall r :: multiset(rs)[r] == CountIn(z, r)
  {
    rs := [];
    var left := z.rrsets.Keys;
    while left != {}
      invariant left <= z.rrsets.Keys
      invariant forall r :: multiset(rs)[r] == if RrsetKey(r) in left then 0 else CountIn(z, r)
      decreases left
    {
      var k :| k in left;
      rs := rs + z.rrsets[k];
      left := left - {k};
      forall r | r in z.rrsets[k] ensures RrsetKey(r) == k {
        var i :| 0 <= i < |z.rrsets[k]| && z.rrsets[k][i] == r;
      }
    }
  }

  /** A listing of the zone's records holds each of its items and no other. */
  lemma ListingItems(z: ZoneView, rs: seq<Record>, except: set<Item>)
    requires Keyed(z) && forall r :: multiset(rs)[r] == CountIn(z, r)
    ensures ItemsOf(NonSoa(rs, except)) == Items(z) - except
    ensures forall r :: r in NonSoa(rs, except) ==> Holds(z, r)
  {
    hide ItemOf;
    var f := NonSoa(rs, except);
    NonSoaMeaning(rs, except);
    forall r ensures r in rs <==> Holds(z, r) {
      assert r in rs <==> multiset(rs)[r] > 0;
    }
    forall x ensures x in ItemsOf(f) <==> x in Items(z) - except {
      if x in ItemsOf(f) {
        var i :| 0 <= i < |f| && ItemOf(f[i]) == x;
        assert f[i] in f;
        var k := RrsetKey(f[i]);
        var j :| 0 <= j < |z.rrsets[k]| && z.rrsets[k][j] == f[i];
      }
      if x in Items(z) - except {
        var k, j :| k in z.rrsets && 0 <= j < |z.rrsets[k]| && z.rrsets[k][j].rtype != SOA
            && ItemOf(z.rrsets[k][j]) == x;
        var r := z.rrsets[k][j];
        assert RrsetKey(r) == k;
        assert r in f;
      }
    }
  }

  method BuildDelta(older: ZoneView, newer: ZoneView) returns (d: Option<ZoneDelta>)
    requires Keyed(older) && Keyed(newer)
    ensures d.Some? <==> Serial(older).Some? && Serial(newer).Some?
    ensures d.Some? ==> IsDelta(d.value, older, newer)
  {
    hide ItemOf, NonSoa, Items, SoaSerial;
    var oldSoa := ApexSoa(older);
    var newSoa := ApexSoa(newer);
    if oldSoa.None? || newSoa.None? { return None; }
    var from := SoaSerial(oldSoa.value.rdata);
    var to := SoaSerial(newSoa.value.rdata);
    if from.None? || to.None? { return None; }
    var oldRecords := AllRecords(older);
    var newRecords := AllRecords(newer);
    var oldSet := ItemsOf(NonSoa(oldRecords, {}));
    var newSet := ItemsOf(NonSoa(newRecords, {}));
    ListingItems(older, oldRecords, {});
    ListingItems(newer, newRecords, {});
    var removed := NonSoa(oldRecords, newSet);
    var added := NonSoa(newRecords, oldSet);
    ListingItems(older, oldRecords, newSet);
    ListingItems(newer, newRecords, oldSet);
    NonSoaMeaning(oldRecords, newSet);
    NonSoaMeaning(newRecords, oldSet);
    d := Some(ZoneDelta(from.value, to.value, oldSoa.value, newSoa.value, removed, added));
  }

  /** `push_back`, then `pop_front` while over the cap. */
  method PushCapped(q: seq<ZoneDelta>, d: ZoneDelta) returns (r: seq<ZoneDelta>)
    ensures r == Capped(q + [d])
  {
    r := q + [d];
    ghost var pushed := r;
    while |r| > HISTORY_CAP
      invariant |r| <= |pushed| && r == pushed[|pushed| - |r|..]
      invariant |pushed| >= HISTORY_CAP ==> |r| >= HISTORY_CAP
      invariant |pushed| < HISTORY_CAP ==> r == pushed
    {
      r := r[1..];
    }
  }

  class ZoneManager {
    var zones: map<text, ZoneView>
    var zoneFiles: map<text, text>
    var versions: map<text, nat>
    var history: map<text, seq<ZoneDelta>>

    constructor ()
      ensures State() == Manager(map[], map[], map[], map[])
    {
      zones, zoneFiles, versions, history := map[], map[], map[], map[];
    }

    function State(): Manager
      reads this
    {
      Manager(zones, zoneFiles, versions, history)
    }

    ghost predicate Valid()
      reads this
    {
      forall o :: o in zones ==> Keyed(zones[o])
    }

    /** `file` is what reading and signing the zone file gives, or nothing on an I/O error. */
    method LoadZone(origin: text, path: text, file: Option<ZoneView>) returns (ok: bool)
      requires Valid() && (file.Some? ==> Keyed(file.value))
      modifies this
      ensures Valid() && ok == file.Some?
      ensures !ok ==> State() == old(State())
      ensures ok ==> Loads(old(State()), origin, path, file.value, State())
    {
      hide IsDelta, Serial, Keyed, Capped;
      if file.None? { return false; }
      var z := file.value;
      if origin in zones {
        var delta := BuildDelta(zones[origin], z);
        if delta.Some? {
          DeltaSerials(delta.value, zones[origin], z);
          if delta.value.fromSerial != delta.value.toSerial {
            var queue := if origin in history then history[origin] else [];
            queue := PushCapped(queue, delta.value);
            history := history[origin := queue];
          }
        }
      }
      zoneFiles := zoneFiles[origin := path];
      var version := (if origin in versions then versions[origin] else 0) + 1;
      versions := versions[origin := version];
      zones := zones[origin := z];
      return true;
    }

    method Chain(origin: text, serial: u32) returns (r: Option<seq<ZoneDelta>>)
      ensures r == IxfrChain(State(), origin, serial)
    {
      if origin !in history { return None; }
      var queue := history[origin];
      var start := StartOf(queue, serial);
      if start.None? { return None; }
      var chain := [queue[start.value]];
      var expected := queue[start.value].toSerial;
      ghost var tail := queue[start.value..];
      for i := start.value + 1 to |queue|
        invariant chain == queue[start.value..i] && expected == queue[i - 1].toSerial
        invariant forall k :: 0 < k < i - start.value ==> tail[k].fromSerial == tail[k - 1].toSerial
      {
        var d := queue[i];
        if d.fromSerial != expected {
          assert tail[i - start.value] == d && tail[i - start.value - 1] == queue[i - 1];
          return None;
        }
        chain := chain + [d];
        expected := d.toSerial;
      }
      assert chain == tail;
      return Some(chain);
    }

    /**
     `files` gives what each readable zone file holds. Every readable file is loaded once,
     in the arbitrary order of the hash map; the others leave no trace.
     */
    method ReloadAll(files: map<text, ZoneView>) returns (count: nat, ghost loads: seq<Load>)
      requires Valid() && forall path :: path in files ==> Keyed(files[path])
      modifies this
      ensures Valid() && LoadsInTurn(old(State()), loads, State()) && count == |loads|
      ensures forall l :: l in loads <==> l.origin in old(zoneFiles) && l.path == old(zoneFiles)[l.origin]
                                          && l.path in files && l.zone == files[l.path]
    {
      hide Keyed, Loads;
      count, loads := 0, [];
      var list := zoneFiles;
      var left := list.Keys;
      while left != {}
        invariant left <= list.Keys && Valid()
        invariant LoadsInTurn(old(State()), loads, State()) && count == |loads|
        invariant forall l :: l in loads <==> l.origin in list.Keys - left && l.path == list[l.origin]
                                              && l.path in files && l.zone == files[l.path]
        decreases left
      {
        var origin :| origin in left;
        var path := list[origin];
        ghost var before := State();
        var ok := LoadZone(origin, path, if path in files then Some(files[path]) else None);
        if ok {
          count := count + 1;
          ghost var load := Load(origin, path, files[path]);
          LoadsOneMore(old(State()), loads, before, load, State());
          loads := loads + [load];
        }
        left := left - {origin};
      }
    }
  }

  datatype Load = Load(origin: text, path: text, zone: ZoneView)

  /** The loads lead from one state of the manager to another. */
  ghost predicate LoadsInTurn(m: Manager, loads: seq<Load>, n: Manager)
    decreases |loads|
  {
    if loads == [] then m == n
    else
      var last := loads[|loads| - 1];
      exists before :: LoadsInTurn(m, loads[..|loads| - 1], before)
          && Loads(before, last.origin, last.path, last.zone, n)
  }

  lemma LoadsOneMore(m: Manager, loads: seq<Load>, before: Manager, load: Load, n: Manager)
    requires LoadsInTurn(m, loads, before) && Loads(before, load.origin, load.path, load.zone, n)
    ensures LoadsInTurn(m, loads + [load], n)
  {
    hide Loads;
    var all := loads + [load];
    assert all[|all| - 1] == load && all[..|all| - 1] == loads;
    assert LoadsInTurn(m, all[..|all| - 1], before)
           && Loads(before, all[|all| - 1].origin, all[|all| - 1].path, all[|all| - 1].zone, n);
  }

  lemma DeltaSerials(d: ZoneDelta, older: ZoneView, newer: ZoneView)
    requires IsDelta(d, older, newer)
    ensures Serial(older) == Some(d.fromSerial) && Serial(newer) == Some(d.toSerial)
  {}
}
