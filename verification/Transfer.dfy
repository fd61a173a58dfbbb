/**
 Zone transfer streams (src/axfr.rs; section 2.2 of RFC 5936, section 4 of RFC 1995): the
 messages sent, and what a secondary makes of them.
 */
module Transfer {
  import opened Bytes
  import opened Wire
  import opened PacketRoundTrip
  import opened Codec
  import opened Zones
  import opened History
  import opened Sorting

  const MAX_RRS_PER_MSG: nat := 64

  // Messages

  /** Flags of a response: QR and RA set, RD copied. */
  function ResponseFlags(requestFlags: u16): u16 {
    0x8080 + requestFlags / 0x100 % 2 * 0x100
  }

  function WithAa(flags: u16): u16 {
    if flags / 0x400 % 2 == 1 then flags else flags + 0x400
  }

  function Message(req: Packet, answers: seq<Record>): Packet {
    Packet(req.id, WithAa(ResponseFlags(req.flags)), req.questions, answers, [], [], 0, false)
  }

  /** `slice::chunks(64)` */
  function Chunks(rrs: seq<Record>): seq<seq<Record>>
    decreases |rrs|
  {
    if rrs == [] then []
    else if |rrs| <= MAX_RRS_PER_MSG then [rrs]
    else [rrs[..MAX_RRS_PER_MSG]] + Chunks(rrs[MAX_RRS_PER_MSG..])
  }

  function Messages(req: Packet, chunks: seq<seq<Record>>): (ms: seq<bytes>)
    ensures |ms| == |chunks|
  {
    seq(|chunks|, i requires 0 <= i < |chunks| => Serialize(Message(req, chunks[i]), false))
  }

  // What the secondary reads

  /** The answer sections of all messages, one after the other. */
  function Received(messages: seq<bytes>): Option<seq<Record>>
    decreases |messages|
  {
    if messages == [] then Some([])
    else
      var p := Parse(messages[0]);
      if p.Fail? then None
      else
        var rest := Received(messages[1..]);
        if rest.None? then None else Some(p.value.answers + rest.value)
  }

  predicate SizesFit(chunks: seq<seq<Record>>) {
    forall i :: 0 <= i < |chunks| ==> 1 <= |chunks[i]| <= MAX_RRS_PER_MSG
  }

  function Flatten(chunks: seq<seq<Record>>): seq<Record> {
    if chunks == [] then [] else chunks[0] + Flatten(chunks[1..])
  }

  lemma {:induction false} ChunksFlatten(rrs: seq<Record>)
    ensures Flatten(Chunks(rrs)) == rrs && SizesFit(Chunks(rrs))
    decreases |rrs|
  {
    if rrs == [] {
    } else if |rrs| <= MAX_RRS_PER_MSG {
      assert Chunks(rrs)[1..] == [];
    } else {
      var rest := rrs[MAX_RRS_PER_MSG..];
      ChunksFlatten(rest);
      assert Chunks(rrs)[1..] == Chunks(rest);
      assert rrs == rrs[..MAX_RRS_PER_MSG] + rest;
    }
  }

  lemma MessageReadsBack(req: Packet, answers: seq<Record>)
    requires ProperQuestions(req.questions) && |req.questions| < 0x1_0000
    requires ProperRecords(answers) && |answers| <= MAX_RRS_PER_MSG
    ensures Parse(Serialize(Message(req, answers), false))
        == Got(Message(req, answers), |Serialize(Message(req, answers), false)|)
  {
    hide Parse, QuestionsWire, RecordsWire;
    var p := Message(req, answers);
    assert Extra(p, true) == Extra(p, false) == [];
    assert Serialize(p, true) == Serialize(p, false);
    ParseSerialize(p);
  }

  lemma {:induction false} ReceivedBack(req: Packet, chunks: seq<seq<Record>>)
    requires ProperQuestions(req.questions) && |req.questions| < 0x1_0000
    requires SizesFit(chunks) && ProperRecords(Flatten(chunks))
    ensures Received(Messages(req, chunks)) == Some(Flatten(chunks))
    decreases |chunks|
  {
    hide Parse, Serialize, ProperRecord, Message;
    if chunks != [] {
      var first, rest := chunks[0], chunks[1..];
      assert Flatten(chunks) == first + Flatten(rest);
      ProperHalves(first, Flatten(rest));
      MessageReadsBack(req, first);
      MessageAnswers(req, first);
      ReceivedBack(req, rest);
      var ms := Messages(req, chunks);
      assert ms[1..] == Messages(req, rest);
      assert ms[0] == Serialize(Message(req, first), false);
    }
  }

  lemma MessageAnswers(req: Packet, answers: seq<Record>)
    ensures Message(req, answers).answers == answers
  {}

  lemma ProperHalves(a: seq<Record>, b: seq<Record>)
    requires ProperRecords(a + b)
    ensures ProperRecords(a) && ProperRecords(b)
  {
    hide ProperRecord;
    forall i | 0 <= i < |a| ensures ProperRecord(a[i]) { assert (a + b)[i] == a[i]; }
    forall i | 0 <= i < |b| ensures ProperRecord(b[i]) { assert (a + b)[|a| + i] == b[i]; }
  }

  // The delta stream

  /** One delta as sent: old SOA, deletions, new SOA, additions. */
  function DeltaRecords(d: ZoneDelta): seq<Record> {
    [d.fromSoa] + d.removed + [d.toSoa] + d.added
  }

  function ChainRecords(chain: seq<ZoneDelta>): seq<Record> {
    if chain == [] then [] else ChainRecords(chain[..|chain| - 1]) + DeltaRecords(chain[|chain| - 1])
  }

  function IxfrRecords(soa: Record, chain: seq<ZoneDelta>): seq<Record> {
    [soa] + ChainRecords(chain) + [soa]
  }

  /** How many records stand before the first SOA. */
  function UntilSoa(rs: seq<Record>): (n: nat)
    ensures n <= |rs| && NoSoa(rs[..n]) && (n < |rs| ==> rs[n].rtype == SOA)
  {
    if rs == [] || rs[0].rtype == SOA then 0
    else
      var n := UntilSoa(rs[1..]);
      assert rs[..n + 1] == [rs[0]] + rs[1..][..n];
      n + 1
  }

  /** A delta as the secondary sees it. */
  datatype Difference = Difference(fromSoa: Record, removed: seq<Record>, toSoa: Record, added: seq<Record>)

  function DifferenceOf(d: ZoneDelta): Difference {
    Difference(d.fromSoa, d.removed, d.toSoa, d.added)
  }

  function DifferencesOf(chain: seq<ZoneDelta>): (r: seq<Difference>)
    ensures |r| == |chain| && forall i :: 0 <= i < |r| ==> r[i] == DifferenceOf(chain[i])
  {
    seq(|chain|, i requires 0 <= i < |chain| => DifferenceOf(chain[i]))
  }

  /** The difference at the head of the stream and what follows it. */
  function FirstDifference(rs: seq<Record>): (r: Option<(Difference, seq<Record>)>)
    ensures r.Some? ==> |r.value.1| < |rs|
  {
    if rs == [] || rs[0].rtype != SOA then None
    else
      var n := UntilSoa(rs[1..]);
      if 1 + n >= |rs| then None
      else
        var m := UntilSoa(rs[n + 2..]);
        Some((Difference(rs[0], rs[1..1 + n], rs[1 + n], rs[n + 2..n + 2 + m]), rs[n + 2 + m..]))
  }

  /** Cutting the records between the outer SOAs at their SOAs. */
  function SplitDifferences(rs: seq<Record>): Option<seq<Difference>>
    decreases |rs|
  {
    if rs == [] then Some([])
    else
      var first := FirstDifference(rs);
      if first.None? then None
      else
        var rest := SplitDifferences(first.value.1);
        if rest.None? then None else Some([first.value.0] + rest.value)
  }

  /** A delta whose SOAs are SOAs and whose other records are not. */
  predicate ProperDelta(d: ZoneDelta) {
    d.fromSoa.rtype == SOA && d.toSoa.rtype == SOA && NoSoa(d.removed) && NoSoa(d.added)
  }

  predicate ProperDeltas(chain: seq<ZoneDelta>) {
    forall i :: 0 <= i < |chain| ==> ProperDelta(chain[i])
  }

  lemma {:induction false} UntilSoaExact(a: seq<Record>, b: seq<Record>)
    requires NoSoa(a) && (b == [] || b[0].rtype == SOA)
    ensures UntilSoa(a + b) == |a|
  {
    if a == [] {
      assert a + b == b;
    } else {
      assert (a + b)[1..] == a[1..] + b;
      UntilSoaExact(a[1..], b);
    }
  }

  /** Where the parts of a delta stand in what is left of the stream. */
  lemma DeltaParts(s: Record, a: seq<Record>, t: Record, b: seq<Record>, rest: seq<Record>)
    ensures var rs := [s] + a + [t] + b + rest;
            |rs| == 2 + |a| + |b| + |rest| && rs[0] == s && rs[1..] == a + ([t] + b + rest)
            && rs[1..1 + |a|] == a && rs[1 + |a|] == t && rs[|a| + 2..] == b + rest
            && rs[|a| + 2..|a| + 2 + |b|] == b && rs[|a| + 2 + |b|..] == rest
  {}

  lemma FirstDelta(d: ZoneDelta, rest: seq<Record>)
    requires ProperDelta(d) && (rest == [] || rest[0].rtype == SOA)
    ensures FirstDifference(DeltaRecords(d) + rest) == Some((DifferenceOf(d), rest))
  {
    hide UntilSoa, NoSoa;
    DeltaParts(d.fromSoa, d.removed, d.toSoa, d.added, rest);
    UntilSoaExact(d.removed, [d.toSoa] + d.added + rest);
    UntilSoaExact(d.added, rest);
  }

  lemma SplitFirstDelta(d: ZoneDelta, rest: seq<Record>)
    requires ProperDelta(d) && (rest == [] || rest[0].rtype == SOA) && SplitDifferences(rest).Some?
    ensures SplitDifferences(DeltaRecords(d) + rest) == Some([DifferenceOf(d)] + SplitDifferences(rest).value)
  {
    FirstDelta(d, rest);
    hide FirstDifference, ProperDelta;
  }

  lemma {:induction false} ChainRecordsCons(d: ZoneDelta, chain: seq<ZoneDelta>)
    ensures ChainRecords([d] + chain) == DeltaRecords(d) + ChainRecords(chain)
  {
    hide DeltaRecords;
    var all := [d] + chain;
    if chain == [] {
      assert all[..0] == [] && all == [d];
      assert ChainRecords(all) == [] + DeltaRecords(d);
    } else {
      var k := |chain| - 1;
      assert all[..k + 1] == [d] + chain[..k];
      ChainRecordsCons(d, chain[..k]);
    }
  }

  lemma {:induction false} ChainStartsWithSoa(chain: seq<ZoneDelta>)
    requires ProperDeltas(chain)
    ensures ChainRecords(chain) == [] || ChainRecords(chain)[0].rtype == SOA
  {
    if chain != [] {
      assert chain == [chain[0]] + chain[1..];
      ChainRecordsCons(chain[0], chain[1..]);
    }
  }

  /** Cutting the delta stream at its SOAs gives back the delta list. */
  lemma {:induction false} SplitChain(chain: seq<ZoneDelta>)
    requires ProperDeltas(chain)
    ensures SplitDifferences(ChainRecords(chain)) == Some(DifferencesOf(chain))
    decreases |chain|
  {
    hide DeltaRecords, SplitDifferences, DifferencesOf, ProperDelta;
    if chain == [] {
      SplitNothing();
    } else {
      var d, more := chain[0], chain[1..];
      assert chain == [d] + more;
      ChainRecordsCons(d, more);
      SplitChain(more);
      ChainStartsWithSoa(more);
      SplitFirstDelta(d, ChainRecords(more));
      DifferencesCons(d, more);
    }
  }

  lemma DifferencesCons(d: ZoneDelta, chain: seq<ZoneDelta>)
    ensures DifferencesOf([d] + chain) == [DifferenceOf(d)] + DifferencesOf(chain)
  {}

  lemma SplitNothing()
    ensures SplitDifferences([]) == Some([]) && DifferencesOf([]) == []
  {}

  // The secondary

  function ApplyDifference(d: Difference, items: set<Item>): set<Item> {
    items - ItemsOf(d.removed) + ItemsOf(d.added)
  }

  function ApplyDifferences(ds: seq<Difference>, items: set<Item>): set<Item>
    decreases |ds|
  {
    if ds == [] then items else ApplyDifferences(ds[1..], ApplyDifference(ds[0], items))
  }

  /**
   What a secondary holding `items` ends with after an incremental answer: nothing changes
   for a single SOA, otherwise the differences between the outer SOAs are applied in turn.
   */
  function Updated(records: seq<Record>, items: set<Item>): Option<set<Item>> {
    if |records| == 1 && records[0].rtype == SOA then Some(items)
    else if |records| < 2 || records[0].rtype != SOA || records[|records| - 1] != records[0] then None
    else
      var ds := SplitDifferences(records[1..|records| - 1]);
      if ds.None? then None else Some(ApplyDifferences(ds.value, items))
  }

  lemma {:induction false} ApplyDifferencesOf(chain: seq<ZoneDelta>, items: set<Item>)
    ensures ApplyDifferences(DifferencesOf(chain), items) == Apply(chain, items)
    decreases |chain|
  {
    hide ItemsOf;
    if chain != [] {
      assert DifferencesOf(chain)[1..] == DifferencesOf(chain[1..]);
      ApplyDifferencesOf(chain[1..], ApplyDelta(chain[0], items));
    }
  }

  lemma UpdatedByChain(soa: Record, chain: seq<ZoneDelta>, items: set<Item>)
    requires soa.rtype == SOA && ProperDeltas(chain)
    ensures Updated(IxfrRecords(soa, chain), items) == Some(Apply(chain, items))
  {
    hide SplitDifferences, Apply, ApplyDifferences;
    var rs := IxfrRecords(soa, chain);
    assert rs[1..|rs| - 1] == ChainRecords(chain);
    SplitChain(chain);
    ApplyDifferencesOf(chain, items);
  }

  // The incremental answer

  /** The records `ixfr_stream` sends in its delta branch and in its up-to-date branch; nothing otherwise. */
  function Incremental(z: ZoneView, serial: u32, chain: Option<seq<ZoneDelta>>): Option<seq<Record>> {
    var soa := ApexSoa(z);
    if soa.None? then None
    else
      var ours := SoaSerial(soa.value.rdata);
      var number := if ours.Some? then ours.value else 0;
      if number == serial then Some([soa.value])
      else if chain.Some? && chain.value != [] && chain.value[|chain.value| - 1].toSerial == number then
        Some(IxfrRecords(soa.value, chain.value))
      else None
  }

  lemma FromLogIsProper(chain: seq<ZoneDelta>, versions: set<ZoneView>)
    requires AllFromLog(chain, versions) && forall z :: z in versions ==> SoaIsSoa(z)
    ensures ProperDeltas(chain)
  {
    forall i | 0 <= i < |chain| ensures ProperDelta(chain[i]) {
      assert FromLog(chain[i], versions);
      var a, b :| a in versions && b in versions && IsDelta(chain[i], a, b);
    }
  }

  /** The apex SOA set holds SOA records. */
  predicate SoaIsSoa(z: ZoneView) {
    var soa := ApexSoa(z);
    soa.Some? ==> soa.value.rtype == SOA
  }

  /**
   What an incremental answer does to a secondary that holds a version with the requested
   serial: it ends with the newest version of the number the served zone goes by. That is the
   served zone exactly when its serial decodes or it has those records anyway; the number 0
   that stands for an undecodable serial may belong to another version. Any run, any
   interleaving of a reload between taking the zone and taking the chain.
   */
  lemma IncrementalExactly(run: seq<Server>, i: nat, j: nat, origin: text, served: ZoneView, held: ZoneView,
                           newest: ZoneView, serial: u32)
    requires IsRun(run) && i <= j < |run|
    requires served in run[i].published && served in Log(run[i], origin)
    requires SerialsAgree(Log(run[j], origin)) && forall z :: z in Log(run[j], origin) ==> SoaIsSoa(z)
    requires held in Log(run[j], origin) && Serial(held) == Some(serial)
    requires Incremental(served, serial, IxfrChain(run[j].manager, origin, serial)).Some?
    requires newest in Log(run[j], origin) && Serial(newest) == Some(Number(served))
    ensures var rs := Incremental(served, serial, IxfrChain(run[j].manager, origin, serial)).value;
            && Updated(rs, Items(held)) == Some(Items(newest))
            && (Updated(rs, Items(held)) == Some(Items(served))
                <==> Serial(served).Some? || Items(served) == Items(newest))
  {
    hide Items, SplitDifferences, ItemsOf, IsRun, ApexSoa, SoaSerial, ChainRecords, SerialsAgree, IxfrChain, Log;
    var chain := IxfrChain(run[j].manager, origin, serial);
    LogGrows(run, i, j, origin);
    assert SoaIsSoa(served);
    if Number(served) == serial {
      EqualSerials(Log(run[j], origin), held, newest);
      if Serial(served).Some? {
        EqualSerials(Log(run[j], origin), served, newest);
      }
    } else {
      TransferIsExact(run, i, j, origin, served, held, newest, serial);
      ChainIsProper(run, j, origin, serial);
      UpdatedByChain(ApexSoa(served).value, chain.value, Items(held));
    }
  }

  /** Some loaded version has the number the served zone goes by, whenever an incremental answer is given. */
  lemma NewestForAnswer(run: seq<Server>, j: nat, origin: text, served: ZoneView, held: ZoneView, serial: u32)
    returns (newest: ZoneView)
    requires IsRun(run) && j < |run| && held in Log(run[j], origin) && Serial(held) == Some(serial)
    requires Incremental(served, serial, IxfrChain(run[j].manager, origin, serial)).Some?
    ensures newest in Log(run[j], origin) && Serial(newest) == Some(Number(served))
  {
    hide IsRun, IxfrChain, Log, SoaSerial;
    if Number(served) == serial {
      newest := held;
    } else {
      newest := NewestLoaded(run, j, origin, serial);
    }
  }

  lemma ProperSoaHasSerial(z: ZoneView)
    requires ApexSoa(z).Some? && SoaIsSoa(z) && ProperRecord(ApexSoa(z).value)
    ensures Serial(z).Some?
  {
    hide ApexSoa, ReadName, ReadU32, SoaWire;
  }

  /**
   End to end: the octets of an incremental answer, parsed, cut at their SOAs and applied by
   a secondary that holds a version with the requested serial, give exactly the served zone.
   Any run, any interleaving of a reload between taking the zone and taking the chain.
   */
  lemma SecondaryEndsWithServedZone(run: seq<Server>, i: nat, j: nat, origin: text, served: ZoneView, held: ZoneView,
                                    serial: u32, req: Packet)
    requires IsRun(run) && i <= j < |run|
    requires served in run[i].published && served in Log(run[i], origin)
    requires SerialsAgree(Log(run[j], origin)) && forall z :: z in Log(run[j], origin) ==> SoaIsSoa(z)
    requires held in Log(run[j], origin) && Serial(held) == Some(serial)
    requires ProperQuestions(req.questions) && |req.questions| < 0x1_0000
    requires var rs := Incremental(served, serial, IxfrChain(run[j].manager, origin, serial));
             rs.Some? && ProperRecords(rs.value)
    ensures var rs := Incremental(served, serial, IxfrChain(run[j].manager, origin, serial)).value;
            var received := Received(Messages(req, Chunks(rs)));
            received.Some? && Updated(received.value, Items(held)) == Some(Items(served))
  {
    hide Items, Chunks, Messages, Received, Updated, IsRun, SerialsAgree, IxfrChain, Log, SoaIsSoa;
    hide ProperRecord, Serial;
    var rs := Incremental(served, serial, IxfrChain(run[j].manager, origin, serial)).value;
    ChunksFlatten(rs);
    ReceivedBack(req, Chunks(rs));
    LogGrows(run, i, j, origin);
    assert SoaIsSoa(served);
    assert rs[0] == ApexSoa(served).value;
    ProperSoaHasSerial(served);
    var newest := NewestForAnswer(run, j, origin, served, held, serial);
    IncrementalExactly(run, i, j, origin, served, held, newest, serial);
  }

  lemma ChainIsProper(run: seq<Server>, j: nat, origin: text, serial: u32)
    requires IsRun(run) && j < |run| && IxfrChain(run[j].manager, origin, serial).Some?
    requires forall z :: z in Log(run[j], origin) ==> SoaIsSoa(z)
    ensures ProperDeltas(IxfrChain(run[j].manager, origin, serial).value)
  {
    hide FromLog, SoaIsSoa;
    RunKeepsExact(run, j);
    var chain := IxfrChain(run[j].manager, origin, serial).value;
    assert AllFromLog(chain, Log(run[j], origin));
    FromLogIsProper(chain, Log(run[j], origin));
  }

  // The full answer

  /** Owner name as octets, then type. */
  predicate RecordLe(a: Record, b: Record) {
    var c := CompareBytes(a.name, b.name);
    c == Less || (c == Equal && Code(a.rtype) <= Code(b.rtype))
  }

  lemma RecordLeOrders()
    ensures TotalPreorder(RecordLe)
  {
    forall a, b ensures RecordLe(a, b) || RecordLe(b, a) {
      CompareBytesTotal(a.name, b.name);
      CompareBytesTotal(b.name, a.name);
    }
    forall a, b, c | RecordLe(a, b) && RecordLe(b, c) ensures RecordLe(a, c) {
      CompareBytesTransitive(a.name, b.name, c.name);
      CompareBytesTotal(a.name, b.name);
      CompareBytesTotal(b.name, c.name);
      CompareBytesTotal(a.name, c.name);
    }
  }

  /** A listing of every record that is not an SOA, each as often as it stands in the zone. */
  ghost predicate ListsBody(z: ZoneView, body: seq<Record>) {
    forall r :: multiset(body)[r] == if r.rtype == SOA then 0 else CountIn(z, r)
  }

  lemma {:induction false} NonSoaCounts(rs: seq<Record>, r: Record)
    ensures multiset(NonSoa(rs, {}))[r] == if r.rtype == SOA then 0 else multiset(rs)[r]
  {
    if rs != [] {
      NonSoaCounts(rs[1..], r);
      assert rs == [rs[0]] + rs[1..];
    }
  }

  predicate FullChunks(done: seq<seq<Record>>) {
    forall i :: 0 <= i < |done| ==> |done[i]| == MAX_RRS_PER_MSG
  }

  /** Full chunks followed by one that is neither empty nor too long are the chunks of their concatenation. */
  lemma {:induction false} ChunksOf(done: seq<seq<Record>>, current: seq<Record>)
    requires FullChunks(done) && 1 <= |current| <= MAX_RRS_PER_MSG
    ensures Chunks(Flatten(done) + current) == done + [current]
    decreases |done|
  {
    if done == [] {
      assert [] + current == current && done + [current] == [current];
    } else {
      var rrs := Flatten(done) + current;
      var rest := Flatten(done[1..]) + current;
      assert rrs == done[0] + rest;
      assert rrs[..MAX_RRS_PER_MSG] == done[0] && rrs[MAX_RRS_PER_MSG..] == rest;
      ChunksOf(done[1..], current);
      assert done + [current] == [done[0]] + (done[1..] + [current]);
    }
  }

  lemma {:induction false} FlattenSnoc(done: seq<seq<Record>>, chunk: seq<Record>)
    ensures Flatten(done + [chunk]) == Flatten(done) + chunk
  {
    if done == [] {
      assert done + [chunk] == [chunk] && [chunk][1..] == [];
    } else {
      assert (done + [chunk])[1..] == done[1..] + [chunk];
      FlattenSnoc(done[1..], chunk);
      assert done[0] + (Flatten(done[1..]) + chunk) == done[0] + Flatten(done[1..]) + chunk;
    }
  }

  lemma MessagesSnoc(req: Packet, done: seq<seq<Record>>, chunk: seq<Record>)
    ensures Messages(req, done + [chunk]) == Messages(req, done) + [Serialize(Message(req, chunk), false)]
  {
    hide Serialize, Message;
  }

  method BuildMessage(req: Packet, answers: seq<Record>) returns (m: bytes)
    ensures m == Serialize(Message(req, answers), false)
  {
    m := SerializePacket(Message(req, answers), false);
  }

  method SortedBody(z: ZoneView) returns (body: seq<Record>)
    requires Keyed(z)
    ensures ListsBody(z, body) && Sorted(RecordLe, body)
  {
    hide NonSoa, RecordLe, Keyed;
    var all := AllRecords(z);
    var unsorted := NonSoa(all, {});
    body := SortBy(RecordLe, unsorted);
    RecordLeOrders();
    SortByCorrect(RecordLe, unsorted);
    forall r: Record ensures multiset(body)[r] == if r.rtype == SOA then 0 else CountIn(z, r) {
      NonSoaCounts(all, r);
    }
  }

  /** The messages finished so far and the records of the one being filled, for the records in `so_far`. */
  ghost predicate Filling(req: Packet, packets: seq<bytes>, done: seq<seq<Record>>, current: seq<Record>,
      soFar: seq<Record>) {
    packets == Messages(req, done) && FullChunks(done) && Flatten(done) + current == soFar
  }

  lemma FillingStarts(req: Packet, soa: Record)
    ensures Filling(req, [], [], [soa], [soa])
  {
    assert Flatten([]) + [soa] == [soa];
  }

  lemma FillingFlushes(req: Packet, packets: seq<bytes>, done: seq<seq<Record>>, current: seq<Record>,
      soFar: seq<Record>)
    requires Filling(req, packets, done, current, soFar) && |current| == MAX_RRS_PER_MSG
    ensures Filling(req, packets + [Serialize(Message(req, current), false)], done + [current], [], soFar)
  {
    hide Serialize, Message, Messages, Flatten;
    MessagesSnoc(req, done, current);
    FlattenSnoc(done, current);
    assert Flatten(done + [current]) + [] == soFar;
  }

  lemma FillingGrows(req: Packet, packets: seq<bytes>, done: seq<seq<Record>>, current: seq<Record>,
      soFar: seq<Record>, r: Record)
    requires Filling(req, packets, done, current, soFar)
    ensures Filling(req, packets, done, current + [r], soFar + [r])
  {
    hide Messages, FullChunks, Flatten;
    assert Flatten(done) + (current + [r]) == Flatten(done) + current + [r];
  }

  lemma FillingEnds(req: Packet, packets: seq<bytes>, done: seq<seq<Record>>, current: seq<Record>, soFar: seq<Record>)
    requires Filling(req, packets, done, current, soFar) && 1 <= |current| <= MAX_RRS_PER_MSG
    ensures packets + [Serialize(Message(req, current), false)] == Messages(req, Chunks(soFar))
  {
    hide Serialize, Message, Messages, Flatten, Chunks;
    MessagesSnoc(req, done, current);
    ChunksOf(done, current);
  }

  /**
   The full answer: the SOA, every other record of the zone in order, the SOA again, in
   messages of 1 to 64 records. `body` is the sorted listing that was sent.
   */
  method AxfrStream(req: Packet, z: ZoneView) returns (packets: seq<bytes>, ghost body: seq<Record>)
    requires Keyed(z)
    ensures ApexSoa(z).None? ==> packets == []
    ensures ApexSoa(z).Some? ==>
              var soa := ApexSoa(z).value;
              ListsBody(z, body) && Sorted(RecordLe, body)
              && packets == Messages(req, Chunks([soa] + body + [soa]))
  {
    hide Serialize, Message, Chunks, RecordLe, Keyed, Filling, ListsBody, Sorted, Messages;
    var apex := ApexSoa(z);
    if apex.None? { return [], []; }
    var soa := apex.value;
    var sorted := SortedBody(z);
    body := sorted;

    packets := [];
    var current := [soa];
    ghost var done: seq<seq<Record>> := [];
    FillingStarts(req, soa);
    assert [soa] + sorted[..0] == [soa];
    for i := 0 to |sorted|
      invariant 1 <= |current| <= MAX_RRS_PER_MSG
      invariant Filling(req, packets, done, current, [soa] + sorted[..i])
    {
      if |current| >= MAX_RRS_PER_MSG {
        var m := BuildMessage(req, current);
        FillingFlushes(req, packets, done, current, [soa] + sorted[..i]);
        packets := packets + [m];
        done := done + [current];
        current := [];
      }
      FillingGrows(req, packets, done, current, [soa] + sorted[..i], sorted[i]);
      current := current + [sorted[i]];
      assert [soa] + sorted[..i + 1] == [soa] + sorted[..i] + [sorted[i]];
    }
    assert sorted[..|sorted|] == sorted;
    if |current| >= MAX_RRS_PER_MSG {
      var m := BuildMessage(req, current);
      FillingFlushes(req, packets, done, current, [soa] + sorted);
      packets := packets + [m];
      done := done + [current];
      current := [];
    }
    FillingGrows(req, packets, done, current, [soa] + sorted, soa);
    current := current + [soa];
    var last := BuildMessage(req, current);
    FillingEnds(req, packets, done, current, [soa] + sorted + [soa]);
    packets := packets + [last];
  }

  lemma BodyMembers(z: ZoneView, body: seq<Record>, r: Record)
    requires ListsBody(z, body)
    ensures r in body <==> r.rtype != SOA && Holds(z, r)
  {
    assert multiset(body)[r] == if r.rtype == SOA then 0 else CountIn(z, r);
    assert r in body <==> multiset(body)[r] > 0;
  }

  lemma ItemInZone(z: ZoneView, r: Record)
    requires Holds(z, r) && r.rtype != SOA
    ensures ItemOf(r) in Items(z)
  {
    var k := RrsetKey(r);
    var j :| 0 <= j < |z.rrsets[k]| && z.rrsets[k][j] == r;
  }

  /** The whole zone read off a full answer between its SOAs is the zone that was served. */
  lemma FullTransferItems(z: ZoneView, body: seq<Record>)
    requires Keyed(z) && ListsBody(z, body)
    ensures ItemsOf(body) == Items(z)
  {
    hide ItemOf, ListsBody, Holds;
    forall i | 0 <= i < |body| ensures ItemOf(body[i]) in Items(z) {
      BodyMembers(z, body, body[i]);
      ItemInZone(z, body[i]);
    }
    forall x | x in Items(z) ensures x in ItemsOf(body) {
      var k, j :| k in z.rrsets && 0 <= j < |z.rrsets[k]| && z.rrsets[k][j].rtype != SOA && ItemOf(z.rrsets[k][j]) == x;
      var r := z.rrsets[k][j];
      HoldsStored(z, k, j);
      BodyMembers(z, body, r);
      var i :| 0 <= i < |body| && body[i] == r;
    }
  }

  /**
   End to end for a full transfer: the octets of the answer, parsed, are the SOA, the listing
   and the SOA again, and what lies between the SOAs is the zone that was served.
   */
  lemma SecondaryCopiesZone(z: ZoneView, body: seq<Record>, req: Packet)
    requires Keyed(z) && ListsBody(z, body) && ApexSoa(z).Some?
    requires ProperQuestions(req.questions) && |req.questions| < 0x1_0000
    requires ProperRecords([ApexSoa(z).value] + body + [ApexSoa(z).value])
    ensures var rs := [ApexSoa(z).value] + body + [ApexSoa(z).value];
            var received := Received(Messages(req, Chunks(rs)));
            received == Some(rs) && ItemsOf(received.value[1..|rs| - 1]) == Items(z)
  {
    hide Items, ItemsOf, ProperRecords, Chunks, Messages, Received, ApexSoa, ListsBody, Keyed;
    var rs := [ApexSoa(z).value] + body + [ApexSoa(z).value];
    ChunksFlatten(rs);
    ReceivedBack(req, Chunks(rs));
    FullTransferItems(z, body);
    assert rs[1..|rs| - 1] == body;
  }

  lemma HoldsStored(z: ZoneView, k: (text, u16), j: nat)
    requires Keyed(z) && k in z.rrsets && j < |z.rrsets[k]|
    ensures Holds(z, z.rrsets[k][j])
  {
    assert RrsetKey(z.rrsets[k][j]) == k;
  }

  lemma SingleMessage(req: Packet, soa: Record)
    ensures Messages(req, Chunks([soa])) == [Serialize(Message(req, [soa]), false)]
  {
    hide Serialize, Message;
    MessagesSnoc(req, [], [soa]);
    assert [] + [[soa]] == [[soa]];
  }

  /** The records of a delta answer: deletions under the old SOA, additions under the new. */
  method ListDeltas(soa: Record, deltas: seq<ZoneDelta>) returns (rrs: seq<Record>)
    ensures rrs == IxfrRecords(soa, deltas)
  {
    rrs := [soa];
    for i := 0 to |deltas|
      invariant rrs == [soa] + ChainRecords(deltas[..i])
    {
      var d := deltas[i];
      assert deltas[..i + 1][..i] == deltas[..i];
      ghost var before := rrs;
      rrs := rrs + [d.fromSoa];
      rrs := rrs + d.removed;
      rrs := rrs + [d.toSoa];
      rrs := rrs + d.added;
      assert rrs == before + DeltaRecords(d);
    }
    assert deltas[..|deltas|] == deltas;
    rrs := rrs + [soa];
  }

  /** One message per chunk. */
  method Pack(req: Packet, chunks: seq<seq<Record>>) returns (packets: seq<bytes>)
    ensures packets == Messages(req, chunks)
  {
    hide Serialize, Message;
    packets := [];
    for i := 0 to |chunks|
      invariant packets == Messages(req, chunks[..i])
    {
      var m := BuildMessage(req, chunks[i]);
      assert chunks[..i + 1] == chunks[..i] + [chunks[i]];
      MessagesSnoc(req, chunks[..i], chunks[i]);
      packets := packets + [m];
    }
    assert chunks[..|chunks|] == chunks;
  }

  method IxfrStream(req: Packet, z: ZoneView, serial: u32, history: Option<seq<ZoneDelta>>)
    returns (packets: seq<bytes>, ghost body: seq<Record>)
    requires Keyed(z)
    ensures ApexSoa(z).None? ==> packets == []
    ensures Incremental(z, serial, history).Some? ==>
              packets == Messages(req, Chunks(Incremental(z, serial, history).value))
    ensures ApexSoa(z).Some? && Incremental(z, serial, history).None? ==>
              var soa := ApexSoa(z).value;
              ListsBody(z, body) && Sorted(RecordLe, body)
              && packets == Messages(req, Chunks([soa] + body + [soa]))
  {
    hide Serialize, Message, Messages, Chunks, IxfrRecords, Sorted, ListsBody, SoaSerial, RecordLe, Keyed;
    packets, body := [], [];
    var apex := ApexSoa(z);
    if apex.None? { return; }
    var soa := apex.value;
    var serialRead := SoaSerial(soa.rdata);
    var ours := if serialRead.Some? then serialRead.value else 0;
    if ours == serial {
      SingleMessage(req, soa);
      var m := BuildMessage(req, [soa]);
      return [m], [];
    }
    if history.Some? && history.value != [] && history.value[|history.value| - 1].toSerial == ours {
      var rrs := ListDeltas(soa, history.value);
      packets := Pack(req, Chunks(rrs));
      return packets, [];
    }
    packets, body := AxfrStream(req, z);
  }
}
