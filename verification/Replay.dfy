/**
 What replaying a delta chain gives when zones are re-signed under one serial, as the daily
 reload does (src/server.rs): the exact condition, version by version.
 */
module Replay {
  import opened Bytes
  import opened Wire
  import opened RoundTrip
  import opened Names
  import opened Zones
  import opened History
  import opened Transfer

  // The queue holds the newest changes of serial

  /** The load at `p` changed the serial. */
  predicate Transition(vs: seq<ZoneView>, p: nat) {
    0 < p < |vs| && Serial(vs[p - 1]).Some? && Serial(vs[p]).Some? && Serial(vs[p - 1]) != Serial(vs[p])
  }

  /** The deltas are the exact differences made by the loads at `ps`, in order. */
  ghost predicate MadeAt(q: seq<ZoneDelta>, vs: seq<ZoneView>, ps: seq<nat>) {
    && |ps| == |q|
    && (forall i, j :: 0 <= i < j < |ps| ==> ps[i] < ps[j])
    && (forall i :: 0 <= i < |ps| ==> Transition(vs, ps[i]) && IsDelta(q[i], vs[ps[i] - 1], vs[ps[i]]))
  }

  ghost predicate AmongMarks(ps: seq<nat>, p: nat) {
    exists i :: 0 <= i < |ps| && ps[i] == p
  }

  /** No change of serial is missing from the queue except older ones dropped at the cap. */
  ghost predicate NewestMarks(vs: seq<ZoneView>, ps: seq<nat>) {
    forall p: nat :: Transition(vs, p) ==> AmongMarks(ps, p) || (|ps| == HISTORY_CAP && p < ps[0])
  }

  ghost predicate Marks(q: seq<ZoneDelta>, vs: seq<ZoneView>, ps: seq<nat>) {
    MadeAt(q, vs, ps) && NewestMarks(vs, ps)
  }

  function CappedMarks(ps: seq<nat>): seq<nat> {
    if |ps| > HISTORY_CAP then ps[|ps| - HISTORY_CAP..] else ps
  }

  ghost predicate TracksZone(s: Server, o: text) {
    && (o in s.manager.zones <==> Loaded(s, o) != [])
    && (o in s.manager.zones ==> s.manager.zones[o] == Loaded(s, o)[|Loaded(s, o)| - 1])
    && exists ps: seq<nat> :: Marks(Queue(s.manager, o), Loaded(s, o), ps)
  }

  lemma TransitionsKept(vs: seq<ZoneView>, z: ZoneView, p: nat)
    ensures Transition(vs + [z], p) <==>
              Transition(vs, p) || (p == |vs| && vs != [] && Serial(vs[|vs| - 1]).Some? && Serial(z).Some?
                                    && Serial(vs[|vs| - 1]) != Serial(z))
  {
    hide Serial;
  }

  lemma MarksSame(q: seq<ZoneDelta>, vs: seq<ZoneView>, ps: seq<nat>, z: ZoneView)
    requires Marks(q, vs, ps) && !Transition(vs + [z], |vs|)
    ensures Marks(q, vs + [z], ps)
  {
    hide Transition, IsDelta;
    forall p: nat ensures Transition(vs + [z], p) <==> Transition(vs, p) {
      TransitionsKept(vs, z, p);
      TransitionInside(vs, p);
    }
    forall i | 0 <= i < |ps| ensures 0 < ps[i] < |vs| {
      TransitionInside(vs, ps[i]);
    }
  }

  lemma TransitionInside(vs: seq<ZoneView>, p: nat)
    ensures Transition(vs, p) ==> 0 < p < |vs|
  {}

  lemma MarksPush(q: seq<ZoneDelta>, vs: seq<ZoneView>, ps: seq<nat>, z: ZoneView, d: ZoneDelta)
    requires Marks(q, vs, ps) && |q| <= HISTORY_CAP && Transition(vs + [z], |vs|) && IsDelta(d, vs[|vs| - 1], z)
    ensures Marks(Capped(q + [d]), vs + [z], CappedMarks(ps + [|vs|]))
  {
    var qs, all := q + [d], ps + [|vs|];
    var rs := CappedMarks(all);
    assert MadeAt(qs, vs + [z], all) by { MadeAtPush(q, vs, ps, z, d); }
    MadeAtCapped(qs, vs + [z], all);
    forall p: nat | Transition(vs + [z], p) ensures AmongMarks(rs, p) || (|rs| == HISTORY_CAP && p < rs[0]) {
      PushedMark(vs, ps, z, p);
      CappedMark(all, p);
    }
  }

  lemma MadeAtPush(q: seq<ZoneDelta>, vs: seq<ZoneView>, ps: seq<nat>, z: ZoneView, d: ZoneDelta)
    requires MadeAt(q, vs, ps) && Transition(vs + [z], |vs|) && IsDelta(d, vs[|vs| - 1], z)
    ensures MadeAt(q + [d], vs + [z], ps + [|vs|])
  {
    hide Transition, IsDelta;
    TransitionInside(vs + [z], |vs|);
    forall i | 0 <= i < |ps| ensures 0 < ps[i] < |vs| && Transition(vs + [z], ps[i]) {
      TransitionInside(vs, ps[i]);
      TransitionsKept(vs, z, ps[i]);
    }
  }

  lemma MadeAtCapped(q: seq<ZoneDelta>, vs: seq<ZoneView>, ps: seq<nat>)
    requires MadeAt(q, vs, ps)
    ensures MadeAt(Capped(q), vs, CappedMarks(ps))
  {
    hide MadeAt;
    SameLength(q, vs, ps);
    if |q| > HISTORY_CAP { MadeAtTail(q, vs, ps, |q| - HISTORY_CAP); }
  }

  lemma SameLength(q: seq<ZoneDelta>, vs: seq<ZoneView>, ps: seq<nat>)
    requires MadeAt(q, vs, ps)
    ensures |ps| == |q|
  {}

  lemma MadeAtTail(q: seq<ZoneDelta>, vs: seq<ZoneView>, ps: seq<nat>, k: nat)
    requires MadeAt(q, vs, ps) && k <= |q|
    ensures MadeAt(q[k..], vs, ps[k..])
  {
    hide Transition, IsDelta;
    forall i | 0 <= i < |ps[k..]| ensures ps[k..][i] == ps[k + i] && q[k..][i] == q[k + i] {}
    forall i | 0 <= i < |ps| ensures 0 < ps[i] < |vs| {
      TransitionInside(vs, ps[i]);
    }
  }

  lemma PushedMark(vs: seq<ZoneView>, ps: seq<nat>, z: ZoneView, p: nat)
    requires NewestMarks(vs, ps) && Transition(vs + [z], p)
    ensures AmongMarks(ps + [|vs|], p) || (|ps| == HISTORY_CAP && p < ps[0])
  {
    hide Transition;
    var all := ps + [|vs|];
    TransitionsKept(vs, z, p);
    if p == |vs| {
      assert all[|ps|] == p;
    } else if AmongMarks(ps, p) {
      var i :| 0 <= i < |ps| && ps[i] == p;
      assert all[i] == p;
    }
  }

  lemma CappedMark(all: seq<nat>, p: nat)
    requires 0 < |all| <= HISTORY_CAP + 1 && forall i, j :: 0 <= i < j < |all| ==> all[i] < all[j]
    requires AmongMarks(all, p) || (|all| == HISTORY_CAP + 1 && p < all[0])
    ensures var rs := CappedMarks(all); AmongMarks(rs, p) || (|rs| == HISTORY_CAP && p < rs[0])
  {
    var rs := CappedMarks(all);
    if |all| > HISTORY_CAP {
      assert rs == all[1..];
      if AmongMarks(all, p) {
        var i :| 0 <= i < |all| && all[i] == p;
        if i > 0 { assert rs[i - 1] == p; } else { assert p < all[1]; }
      } else {
        assert all[0] < all[1];
      }
    }
  }

  lemma StartTracks(s: Server, o: text)
    requires Init(s)
    ensures TracksZone(s, o)
  {
    var ps: seq<nat> := [];
    assert Queue(s.manager, o) == [] && Loaded(s, o) == [];
    assert Marks(Queue(s.manager, o), Loaded(s, o), ps);
  }

  lemma LoadTracks(s: Server, t: Server, origin: text, path: text, z: ZoneView, o: text)
    requires Loads(s.manager, origin, path, z, t.manager) && t.log == s.log[origin := Loaded(s, origin) + [z]]
    requires TracksZone(s, o) && |Queue(s.manager, o)| <= HISTORY_CAP
    ensures TracksZone(t, o)
  {
    hide IsDelta, Marks, Capped, CappedMarks, Serial;
    var ps: seq<nat> :| Marks(Queue(s.manager, o), Loaded(s, o), ps);
    if o == origin {
      var vs := Loaded(s, o);
      if Queues(s.manager, o, z) {
        var d :| IsDelta(d, s.manager.zones[o], z)
                 && t.manager.history == s.manager.history[o := Capped(Queue(s.manager, o) + [d])];
        MarksPush(Queue(s.manager, o), vs, ps, z, d);
        assert Marks(Queue(t.manager, o), Loaded(t, o), CappedMarks(ps + [|vs|]));
      } else {
        MarksSame(Queue(s.manager, o), vs, ps, z);
        assert Marks(Queue(t.manager, o), Loaded(t, o), ps);
      }
    } else {
      assert Queue(t.manager, o) == Queue(s.manager, o) && Loaded(t, o) == Loaded(s, o);
    }
  }

  /** Over every run, each zone's queue holds exactly the newest changes of serial among its loads. */
  lemma {:induction false} RunTracks(run: seq<Server>, n: nat, o: text)
    requires IsRun(run) && n < |run|
    ensures TracksZone(run[n], o) && |Queue(run[n].manager, o)| <= HISTORY_CAP
  {
    hide TracksZone, Loads, HistoryExact;
    RunKeepsExact(run, n);
    QueueFits(run[n], o);
    if n == 0 {
      StartTracks(run[0], o);
    } else {
      RunTracks(run, n - 1, o);
      assert Step(run[n - 1], run[n]);
      StepTracks(run[n - 1], run[n], o);
    }
  }

  lemma QueueFits(s: Server, o: text)
    requires HistoryExact(s)
    ensures |Queue(s.manager, o)| <= HISTORY_CAP
  {}

  lemma StepTracks(s: Server, t: Server, o: text)
    requires Step(s, t) && TracksZone(s, o) && |Queue(s.manager, o)| <= HISTORY_CAP
    ensures TracksZone(t, o)
  {
    hide Loads, Marks;
    if LoadStep(s, t) {
      var origin, path, z :|
        Loads(s.manager, origin, path, z, t.manager) && t.published == s.published
        && t.log == s.log[origin := Loaded(s, origin) + [z]];
      LoadTracks(s, t, origin, path, z, o);
    } else {
      SameLog(s, t, o);
    }
  }

  // What a chain does to a copy

  /** The records before and after one change of serial. */
  datatype Change = Change(older: set<Item>, newer: set<Item>) {
    /** The records the two versions do not share. */
    function Touches(): set<Item> {
      (older - newer) + (newer - older)
    }
  }

  /** The changes made by the loads at `ps`. */
  function ChangesAt(vs: seq<ZoneView>, ps: seq<nat>): (cs: seq<Change>)
    requires forall i :: 0 <= i < |ps| ==> 0 < ps[i] < |vs|
    ensures |cs| == |ps|
    ensures forall i :: 0 <= i < |cs| ==> cs[i] == Change(Items(vs[ps[i] - 1]), Items(vs[ps[i]]))
  {
    seq(|ps|, i requires 0 <= i < |ps| => Change(Items(vs[ps[i] - 1]), Items(vs[ps[i]])))
  }

  ghost predicate Lists(chain: seq<ZoneDelta>, cs: seq<Change>) {
    && |chain| == |cs|
    && forall i :: 0 <= i < |cs| ==> ItemsOf(chain[i].removed) == cs[i].older - cs[i].newer
                                     && ItemsOf(chain[i].added) == cs[i].newer - cs[i].older
  }

  /** The records that some change touched. */
  function Touched(cs: seq<Change>): set<Item> {
    if cs == [] then {} else cs[0].Touches() + Touched(cs[1..])
  }

  /** Two versions show the same of these records. */
  predicate AgreeOn(records: set<Item>, a: set<Item>, b: set<Item>) {
    a * records == b * records
  }

  predicate AgreeOff(records: set<Item>, a: set<Item>, b: set<Item>) {
    a - records == b - records
  }

  /** On each record touched, the target shows what the last version that changed it shows. */
  predicate LastChangesShow(cs: seq<Change>, target: set<Item>) {
    cs == [] || (AgreeOn(cs[0].Touches() - Touched(cs[1..]), target, cs[0].newer) && LastChangesShow(cs[1..], target))
  }

  /**
   Replaying a chain on a copy gives the target exactly when the target agrees with the copy
   on the records no change touched, and on each other record with the newer version of the
   last change that touched it.
   */
  lemma {:induction false} ReplayExactly(chain: seq<ZoneDelta>, cs: seq<Change>, held: set<Item>, target: set<Item>)
    requires Lists(chain, cs)
    ensures Apply(chain, held) == target <==> LastChangesShow(cs, target) && AgreeOff(Touched(cs), held, target)
    decreases |chain|
  {
    hide ItemsOf;
    if chain == [] {
      assert held - {} == held && target - {} == target;
    } else {
      var after := ApplyDelta(chain[0], held);
      ReplayExactly(chain[1..], cs[1..], after, target);
      OneChange(cs[0], held, after, Touched(cs[1..]), target);
    }
  }

  lemma OneChange(c: Change, held: set<Item>, after: set<Item>, later: set<Item>, target: set<Item>)
    requires after == held - (c.older - c.newer) + (c.newer - c.older)
    ensures AgreeOff(later, after, target)
            <==> AgreeOn(c.Touches() - later, target, c.newer) && AgreeOff(c.Touches() + later, held, target)
  {
    var t := c.Touches();
    assert forall x :: x in t ==> (x in after <==> x in c.newer);
    assert forall x :: x !in t ==> (x in after <==> x in held);
    if AgreeOff(later, after, target) {
      forall x ensures x in target * (t - later) <==> x in c.newer * (t - later) {
        if x in t - later { assert x in after - later <==> x in target - later; }
      }
      forall x ensures x in held - (t + later) <==> x in target - (t + later) {
        if x !in t + later { assert x in after - later <==> x in target - later; }
      }
    }
    if AgreeOn(t - later, target, c.newer) && AgreeOff(t + later, held, target) {
      forall x ensures x in after - later <==> x in target - later {
        if x in t - later { assert x in target * (t - later) <==> x in c.newer * (t - later); }
        if x !in t + later { assert x in held - (t + later) <==> x in target - (t + later); }
      }
    }
  }

  /** Where each version is what the one before it in the chain left, the chain leads to its end. */
  predicate Joined(cs: seq<Change>, held: set<Item>, target: set<Item>)
    decreases |cs|
  {
    if cs == [] then held == target else held == cs[0].older && Joined(cs[1..], cs[0].newer, target)
  }

  /** Agreement at the joins alone is enough, whatever was loaded and dropped elsewhere. */
  lemma {:induction false} JoinsSuffice(chain: seq<ZoneDelta>, cs: seq<Change>, held: set<Item>, target: set<Item>)
    requires Lists(chain, cs) && Joined(cs, held, target)
    ensures Apply(chain, held) == target
    decreases |chain|
  {
    hide ItemsOf;
    if chain != [] {
      assert ApplyDelta(chain[0], held) == cs[0].newer;
      JoinsSuffice(chain[1..], cs[1..], cs[0].newer, target);
    }
  }

  /** A chain of one delta, any copy and any target. */
  lemma OneDeltaExactly(d: ZoneDelta, c: Change, held: set<Item>, target: set<Item>)
    requires Lists([d], [c])
    ensures Apply([d], held) == target
            <==> AgreeOn(c.Touches(), target, c.newer) && AgreeOff(c.Touches(), held, target)
  {
    hide ItemsOf, Apply, AgreeOn, AgreeOff;
    ReplayExactly([d], [c], held, target);
    assert [c][1..] == [];
    assert Touched([]) == {} && LastChangesShow([], target);
    assert c.Touches() - {} == c.Touches() && c.Touches() + {} == c.Touches();
  }

  // Over every run

  lemma MadeAtLists(q: seq<ZoneDelta>, vs: seq<ZoneView>, ps: seq<nat>)
    requires MadeAt(q, vs, ps)
    ensures Lists(q, ChangesAt(vs, ps))
  {
    hide Items, ItemsOf;
  }

  /**
   Over every run and with no assumption on serials: the chain found for a serial consists of
   the differences made by all the loads that changed the serial from some load on, and
   replaying it on any copy gives any target exactly when the target agrees with the copy on
   the records those loads did not touch and with the last version that changed it on every
   other record. Loads that re-sign under one serial may stand before, between and after.
   */
  lemma TransferExactly(run: seq<Server>, j: nat, origin: text, serial: u32, held: set<Item>, target: set<Item>)
    returns (ps: seq<nat>)
    requires IsRun(run) && j < |run| && IxfrChain(run[j].manager, origin, serial).Some?
    ensures var chain, vs := IxfrChain(run[j].manager, origin, serial).value, Loaded(run[j], origin);
            && MadeAt(chain, vs, ps) && ps != [] && Serial(vs[ps[0] - 1]) == Some(serial)
            && (forall p: nat :: Transition(vs, p) && p >= ps[0] ==> AmongMarks(ps, p))
            && (Apply(chain, held) == target
                <==> LastChangesShow(ChangesAt(vs, ps), target)
                     && AgreeOff(Touched(ChangesAt(vs, ps)), held, target))
  {
    hide Items, LastChangesShow, Touched, AgreeOff, Transition, IsRun, Loaded, ChangesAt, MadeAt, NewestMarks, Apply;
    hide AmongMarks;
    RunTracks(run, j, origin);
    var q, vs := Queue(run[j].manager, origin), Loaded(run[j], origin);
    var all: seq<nat> :| Marks(q, vs, all);
    ps := ChainMarks(q, vs, all, serial);
    var chain := ChainIn(q, serial).value;
    MadeInside(chain, vs, ps);
    MadeAtLists(chain, vs, ps);
    ReplayExactly(chain, ChangesAt(vs, ps), held, target);
  }

  /** The loads that made the chain: all changes of serial from its first on. */
  lemma ChainMarks(q: seq<ZoneDelta>, vs: seq<ZoneView>, all: seq<nat>, serial: u32) returns (ps: seq<nat>)
    requires Marks(q, vs, all) && ChainIn(q, serial).Some?
    ensures MadeAt(ChainIn(q, serial).value, vs, ps) && ps != [] && 0 < ps[0] < |vs|
    ensures Serial(vs[ps[0] - 1]) == Some(serial)
    ensures forall p: nat :: Transition(vs, p) && p >= ps[0] ==> AmongMarks(ps, p)
  {
    hide MadeAt, NewestMarks, Transition, AmongMarks, Contiguous;
    var k := StartOf(q, serial).value;
    SameLength(q, vs, all);
    ps := all[k..];
    MadeAtTail(q, vs, all, k);
    StartsAt(q[k..], vs, ps, serial);
    forall p: nat | Transition(vs, p) && p >= ps[0] ensures AmongMarks(ps, p) {
      MadeAscending(q, vs, all);
      LaterMark(vs, all, k, p);
    }
  }

  lemma MadeAscending(q: seq<ZoneDelta>, vs: seq<ZoneView>, ps: seq<nat>)
    requires MadeAt(q, vs, ps)
    ensures forall i, j :: 0 <= i < j < |ps| ==> ps[i] < ps[j]
  {}

  lemma MadeInside(q: seq<ZoneDelta>, vs: seq<ZoneView>, ps: seq<nat>)
    requires MadeAt(q, vs, ps)
    ensures forall i :: 0 <= i < |ps| ==> 0 < ps[i] < |vs|
  {
    hide IsDelta;
  }

  lemma StartsAt(chain: seq<ZoneDelta>, vs: seq<ZoneView>, ps: seq<nat>, serial: u32)
    requires MadeAt(chain, vs, ps) && chain != [] && chain[0].fromSerial == serial
    ensures ps != [] && 0 < ps[0] < |vs| && Serial(vs[ps[0] - 1]) == Some(serial)
  {
    hide Serial;
    DeltaSerials(chain[0], vs[ps[0] - 1], vs[ps[0]]);
  }

  lemma LaterMark(vs: seq<ZoneView>, all: seq<nat>, k: nat, p: nat)
    requires NewestMarks(vs, all) && Transition(vs, p) && k < |all| && p >= all[k]
    requires forall i, j :: 0 <= i < j < |all| ==> all[i] < all[j]
    ensures AmongMarks(all[k..], p)
  {
    hide Transition;
    if k > 0 { assert all[0] < all[k]; }
    assert AmongMarks(all, p);
    var i :| 0 <= i < |all| && all[i] == p;
    assert i >= k;
    assert all[k..][i - k] == p;
  }

  /**
   The same for the records of a delta answer: a secondary that cuts them at the SOAs and
   applies them ends with the served zone exactly under the condition above, whichever zone
   is served and whichever version the secondary holds.
   */
  lemma DeltaAnswerExactly(run: seq<Server>, j: nat, origin: text, served: ZoneView, held: ZoneView, serial: u32)
    returns (ps: seq<nat>)
    requires IsRun(run) && j < |run| && forall z :: z in Log(run[j], origin) ==> SoaIsSoa(z)
    requires SoaIsSoa(served) && Number(served) != serial
    requires Incremental(served, serial, IxfrChain(run[j].manager, origin, serial)).Some?
    ensures var rs, vs := Incremental(served, serial, IxfrChain(run[j].manager, origin, serial)).value,
            Loaded(run[j], origin);
            && MadeAt(IxfrChain(run[j].manager, origin, serial).value, vs, ps)
            && (forall p: nat :: Transition(vs, p) && ps != [] && p >= ps[0] ==> AmongMarks(ps, p))
            && (Updated(rs, Items(held)) == Some(Items(served))
                <==> LastChangesShow(ChangesAt(vs, ps), Items(served))
                     && AgreeOff(Touched(ChangesAt(vs, ps)), Items(held), Items(served)))
  {
    hide Items, LastChangesShow, Touched, AgreeOff, Transition, IsRun, Loaded, Log, ChangesAt, MadeAt, AmongMarks;
    hide Updated, IxfrChain, SoaSerial, ApexSoa;
    var chain := IxfrChain(run[j].manager, origin, serial);
    ps := TransferExactly(run, j, origin, serial, Items(held), Items(served));
    ChainIsProper(run, j, origin, serial);
    UpdatedByChain(ApexSoa(served).value, chain.value, Items(held));
  }

  // Two runs that end wrong

  const APEX: text := [122]

  function SoaOf(data: bytes): Record {
    Record(APEX, SOA, 1, 0, data)
  }

  function AddressOf(mark: byte): Record {
    Record(APEX, A, 1, 0, [192, 0, 2, mark])
  }

  /** Zone `z` with one address. */
  function Version(soa: bytes, mark: byte): ZoneView {
    ZoneView(APEX, map[(APEX, 6) := [SoaOf(soa)], (APEX, 1) := [AddressOf(mark)]], {APEX}, [])
  }

  function SoaData(serial: u32): bytes {
    SoaWire(Soa(ROOT, ROOT, [serial, 0, 0, 0, 0]))
  }

  lemma ApexLower()
    ensures Lower(APEX) == APEX
  {}

  lemma VersionSerial(soa: bytes, mark: byte)
    ensures ApexSoa(Version(soa, mark)) == Some(SoaOf(soa)) && Serial(Version(soa, mark)) == SoaSerial(soa)
  {
    hide SoaSerial;
    ApexLower();
  }

  lemma VersionItems(soa: bytes, mark: byte)
    ensures Items(Version(soa, mark)) == {(APEX, 1, [192, 0, 2, mark])}
  {
    ApexLower();
    var z := Version(soa, mark);
    var x := (APEX, 1, [192, 0, 2, mark]);
    assert ItemOf(z.rrsets[(APEX, 1)][0]) == x;
    assert (APEX, 1) in z.rrsets && z.rrsets[(APEX, 1)][0].rtype != SOA;
    forall y | y in Items(z) ensures y == x {
      var k, i :| k in z.rrsets && 0 <= i < |z.rrsets[k]| && z.rrsets[k][i].rtype != SOA && ItemOf(z.rrsets[k][i]) == y;
      assert k == (APEX, 1);
    }
  }

  lemma SoaDataSerial(serial: u32)
    ensures SoaSerial(SoaData(serial)) == Some(serial)
  {
    hide ReadName, ReadU32, NameWire, Be32;
    var data := SoaData(serial);
    var root := NameWire(ROOT);
    var rest := U32sWire([0, 0, 0, 0]);
    assert [serial, 0, 0, 0, 0][1..] == [0, 0, 0, 0];
    assert data == root + (root + (Be32(serial) + rest));
    assert At(data, 0, data);
    AtSplit(data, 0, root, root + (Be32(serial) + rest));
    AtSplit(data, |root|, root, Be32(serial) + rest);
    AtSplit(data, |root| + |root|, Be32(serial), rest);
    ReadNameBack(data, 0, ROOT);
    ReadNameBack(data, |root|, ROOT);
    ReadU32Back(data, |root| + |root|, serial);
  }

  lemma ItemsOfOne(r: Record)
    ensures ItemsOf([r]) == {ItemOf(r)}
  {
    assert [r][0] == r;
  }

  /** The difference between two versions with different marks. */
  function DeltaOf(from: u32, a: byte, to: u32, b: byte): ZoneDelta {
    ZoneDelta(from, to, SoaOf(SoaData(from)), SoaOf(SoaData(to)), [AddressOf(a)], [AddressOf(b)])
  }

  lemma DeltaIsExact(from: u32, a: byte, to: u32, b: byte)
    requires a != b
    ensures IsDelta(DeltaOf(from, a, to, b), Version(SoaData(from), a), Version(SoaData(to), b))
  {
    hide Serial, SoaData, SoaSerial, Items;
    VersionSerial(SoaData(from), a);
    VersionSerial(SoaData(to), b);
    SoaDataSerial(from);
    SoaDataSerial(to);
    VersionItems(SoaData(from), a);
    VersionItems(SoaData(to), b);
    ApexLower();
    var x, y := (APEX, 1, [192, 0, 2, a]), (APEX, 1, [192, 0, 2, b]);
    assert [192, 0, 2, a][3] != [192, 0, 2, b][3];
    ItemsOfOne(AddressOf(a));
    ItemsOfOne(AddressOf(b));
  }

  function AfterLoad(m: Manager, z: ZoneView, history: map<text, seq<ZoneDelta>>): Manager {
    Manager(m.zones[APEX := z], m.zoneFiles[APEX := APEX], m.versions[APEX := VersionOf(m, APEX) + 1], history)
  }

  const NOTHING: Manager := Manager(map[], map[], map[], map[])

  /** Three loads of one zone: a first serial, a second one, a version that queues no delta; then it is published. */
  ghost function ThreeLoads(first: u32, second: u32, third: ZoneView): seq<Server> {
    var a, b := Version(SoaData(first), 1), Version(SoaData(second), 2);
    var queue := map[APEX := [DeltaOf(first, 1, second, 2)]];
    var m1 := AfterLoad(NOTHING, a, map[]);
    var m2 := AfterLoad(m1, b, queue);
    var m3 := AfterLoad(m2, third, queue);
    [Server(NOTHING, {}, map[]), Server(m1, {}, map[APEX := [a]]), Server(m2, {}, map[APEX := [a, b]]),
     Server(m3, {}, map[APEX := [a, b, third]]), Server(m3, {third}, map[APEX := [a, b, third]])]
  }

  /** The second of the three loads queues the delta. */
  lemma SecondQueues(m: Manager, first: u32, second: u32)
    requires first != second && m.zones == map[APEX := Version(SoaData(first), 1)] && m.history == map[]
    ensures HistoryAfter(m, APEX, Version(SoaData(second), 2), map[APEX := [DeltaOf(first, 1, second, 2)]])
  {
    hide Serial, SoaData, SoaSerial, IsDelta;
    VersionSerial(SoaData(first), 1);
    VersionSerial(SoaData(second), 2);
    SoaDataSerial(first);
    SoaDataSerial(second);
    DeltaIsExact(first, 1, second, 2);
    var d := DeltaOf(first, 1, second, 2);
    assert Capped([] + [d]) == [d];
    assert IsDelta(d, m.zones[APEX], Version(SoaData(second), 2));
    assert map[APEX := [d]] == m.history[APEX := Capped(Queue(m, APEX) + [d])];
  }

  /** The third queues nothing. */
  lemma ThirdQueuesNothing(m: Manager, second: u32, third: ZoneView)
    requires m.zones == map[APEX := Version(SoaData(second), 2)]
    requires Serial(third).None? || Serial(third) == Some(second)
    ensures HistoryAfter(m, APEX, third, m.history)
  {
    hide Serial, SoaData, SoaSerial, IsDelta;
    VersionSerial(SoaData(second), 2);
    SoaDataSerial(second);
  }

  lemma ThreeLoadsRun(first: u32, second: u32, third: ZoneView)
    requires first != second && (Serial(third).None? || Serial(third) == Some(second))
    ensures IsRun(ThreeLoads(first, second, third))
    ensures var s := ThreeLoads(first, second, third)[4];
            && s.published == {third}
            && Loaded(s, APEX) == [Version(SoaData(first), 1), Version(SoaData(second), 2), third]
            && IxfrChain(s.manager, APEX, first) == Some([DeltaOf(first, 1, second, 2)])
  {
    hide Serial, SoaData, Version, HistoryAfter, DeltaOf, Step, IxfrChain;
    var run := ThreeLoads(first, second, third);
    var a, b := Version(SoaData(first), 1), Version(SoaData(second), 2);
    FirstQueuesNothing(a);
    SecondQueues(run[1].manager, first, second);
    assert run[2].manager.zones == map[APEX := b];
    ThirdQueuesNothing(run[2].manager, second, third);
    assert [] + [a] == [a] && [a] + [b] == [a, b] && [a, b] + [third] == [a, b, third];
    LoadsStep(run[0], run[1], a);
    LoadsStep(run[1], run[2], b);
    LoadsStep(run[2], run[3], third);
    assert run[3].manager.zones == map[APEX := third];
    Publishes(run[3], run[4], third);
    ChainOfOne(run[4].manager, APEX, DeltaOf(first, 1, second, 2), {});
    DeltaStarts(first, second);
  }

  lemma FirstQueuesNothing(z: ZoneView)
    ensures HistoryAfter(NOTHING, APEX, z, map[])
  {
    hide Serial;
  }

  lemma DeltaStarts(first: u32, second: u32)
    ensures DeltaOf(first, 1, second, 2).fromSerial == first
  {}

  lemma LoadsStep(s: Server, t: Server, z: ZoneView)
    requires Loads(s.manager, APEX, APEX, z, t.manager) && t.published == s.published
    requires t.log == s.log[APEX := Loaded(s, APEX) + [z]]
    ensures Step(s, t)
  {
    hide Loads;
  }

  lemma Publishes(s: Server, t: Server, z: ZoneView)
    requires t.manager == s.manager && t.log == s.log && t.published == {z} && s.manager.zones == map[APEX := z]
    ensures Step(s, t)
  {
    assert APEX in s.manager.zones;
    assert s.manager.zones.Values == {z};
  }

  /** What the chain of the three loads gives a secondary that holds the first version. */
  lemma ThreeLoadsReplay(first: u32, second: u32)
    ensures Apply([DeltaOf(first, 1, second, 2)], Items(Version(SoaData(first), 1)))
            == Items(Version(SoaData(second), 2))
  {
    hide IsDelta, Items, SoaData;
    DeltaIsExact(first, 1, second, 2);
    var d := DeltaOf(first, 1, second, 2);
    DeltaLeads(d, Version(SoaData(first), 1), Version(SoaData(second), 2));
    assert [d][1..] == [];
  }

  /**
   The daily reload at work: a version with serial 1, one with serial 2, and the second signed
   again under serial 2. A secondary that asks from serial 1 is given the delta, and ends with
   the version before the re-signing, not with the published one.
   */
  lemma ResignedZoneIsMissed()
    ensures var run, third := ThreeLoads(1, 2, Version(SoaData(2), 3)), Version(SoaData(2), 3);
            var chain := IxfrChain(run[4].manager, APEX, 1);
            && IsRun(run) && run[4].published == {third}
            && chain.Some? && chain.value != [] && Serial(third) == Some(chain.value[|chain.value| - 1].toSerial)
            && Apply(chain.value, Items(Version(SoaData(1), 1))) != Items(third)
  {
    hide Serial, SoaData, SoaSerial, Items;
    var third := Version(SoaData(2), 3);
    VersionSerial(SoaData(2), 3);
    SoaDataSerial(2);
    ThreeLoadsRun(1, 2, third);
    ThreeLoadsReplay(1, 2);
    VersionItems(SoaData(2), 2);
    VersionItems(SoaData(2), 3);
    assert [192, 0, 2, 2][3] != [192, 0, 2, 3][3];
  }

  // A serial that does not decode

  function LongLabel(): (l: text)
    ensures |l| == 192 && forall i :: 0 <= i < 192 ==> l[i] == 97
  {
    seq(192, i requires 0 <= i < 192 => 97)
  }

  const EXAMPLE: text := [101, 120, 97, 109, 112, 108, 101]

  /** SOA data as the zone file reader writes it for a first name whose first label has 192 octets. */
  function UnreadableSoa(): bytes {
    SoaWire(Soa(LongLabel() + [DOT] + EXAMPLE, ROOT, [3, 0, 0, 0, 0]))
  }

  lemma LongNameWire()
    ensures NameWire(LongLabel() + [DOT] + EXAMPLE) == [192] + LongLabel() + [7] + EXAMPLE + [0]
  {
    hide Split, Labels;
    var name := LongLabel() + [DOT] + EXAMPLE;
    SplitConcat(LongLabel(), EXAMPLE);
    SplitPlain(LongLabel());
    SplitPlain(EXAMPLE);
    assert LongLabel()[0] == 97;
    LabelsOfProper(name);
    var ls := [LongLabel(), EXAMPLE];
    assert Labels(name) == ls;
    assert ls[1..] == [EXAMPLE] && [EXAMPLE][1..] == [];
    assert LabelsWire([EXAMPLE]) == LabelWire(EXAMPLE) + LabelsWire([]);
    assert LabelsWire(ls) == LabelWire(LongLabel()) + LabelsWire(ls[1..]);
  }

  lemma UnreadableOctets()
    ensures var data := UnreadableSoa();
            |data| == 223 && data[0] == 192 && data[1] == 97 && data[97] == 97 && data[195] == 120
  {
    hide NameWire;
    LongNameWire();
    var head := [192] + LongLabel() + [7] + EXAMPLE + [0];
    assert head[1] == LongLabel()[0] && head[97] == LongLabel()[96] && head[195] == EXAMPLE[1];
    assert NameWire(ROOT) == [0] by { RootNameWire(); }
    NumbersLength([3, 0, 0, 0, 0]);
    assert UnreadableSoa() == head + ([0] + U32sWire([3, 0, 0, 0, 0]));
  }

  lemma RootNameWire()
    ensures NameWire(ROOT) == [0]
  {
    RootLabels();
    assert LabelsWire([]) + [0] == [0];
  }

  lemma {:induction false} NumbersLength(vs: seq<u32>)
    ensures |U32sWire(vs)| == 4 * |vs|
  {
    hide Be32;
    if vs != [] {
      NumbersLength(vs[1..]);
      assert |Be32(vs[0])| == 4;
    }
  }

  /** The length octet 192 reads as a pointer into the label, and the walk from there leaves the data. */
  lemma UnreadableHasNoSerial()
    ensures SoaSerial(UnreadableSoa()) == None
  {
    hide UnreadableSoa;
    UnreadableOctets();
    var data := UnreadableSoa();
    assert ReadLabels(data, 195, 1) == Fail;
    assert ReadLabels(data, 97, 1) == Fail;
    assert ReadLabels(data, 0, 0) == Fail;
  }

  /**
   A version with serial 1, one with serial 0, then one whose serial does not decode and so
   counts as 0: the delta answer is given, and a secondary that holds the first version ends
   with the second, not with the published one.
   */
  lemma UnreadableSerialIsMissed()
    ensures var run, third := ThreeLoads(1, 0, Version(UnreadableSoa(), 3)), Version(UnreadableSoa(), 3);
            var chain := IxfrChain(run[4].manager, APEX, 1);
            && IsRun(run) && run[4].published == {third} && Serial(third).None?
            && chain.Some? && chain.value != [] && Number(third) == chain.value[|chain.value| - 1].toSerial
            && Apply(chain.value, Items(Version(SoaData(1), 1))) != Items(third)
  {
    hide Serial, SoaData, SoaSerial, Items, UnreadableSoa;
    var third := Version(UnreadableSoa(), 3);
    VersionSerial(UnreadableSoa(), 3);
    UnreadableHasNoSerial();
    ThreeLoadsRun(1, 0, third);
    ThreeLoadsReplay(1, 0);
    VersionItems(SoaData(0), 2);
    VersionItems(UnreadableSoa(), 3);
    assert [192, 0, 2, 2][3] != [192, 0, 2, 3][3];
  }
}
