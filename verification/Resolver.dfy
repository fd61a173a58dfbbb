/**
 Iterative resolution (src/resolver.rs): the walk down from the root servers. Whatever
 arrives on the network is a parameter, so every statement is about every peer.
 */
module Resolver {
  import opened Bytes
  import opened Names
  import opened Wire
  import opened RoundTrip
  import opened RecordData
  import opened PacketRoundTrip
  import opened Canonical

  const MAX_REFERRALS: nat := 20
  const MAX_NS_LOOKUP_DEPTH: nat := 4

  /** An IPv4 address: four octets. */
  type Ip = bytes

  const ROOT_SERVERS: seq<Ip> := [
    [198, 41, 0, 4], [199, 9, 14, 201], [192, 33, 4, 12], [199, 7, 91, 13], [192, 203, 230, 10],
    [192, 5, 5, 241], [192, 112, 36, 4], [198, 97, 190, 53], [192, 36, 148, 17], [192, 58, 128, 30],
    [193, 0, 14, 129], [199, 7, 83, 42], [202, 12, 27, 33]]

  // Bailiwick

  function Norm(name: text): text {
    Lower(TrimDots(name))
  }

  /** `name` is `zone` or below it, as strings; the root contains everything. */
  predicate InBailiwick(name: text, zone: text) {
    var n, z := Norm(name), Norm(zone);
    z == [] || n == z || EndsWith(n, [DOT] + z)
  }

  /** The dot-separated pieces of a name without its trailing dots; none for the root. */
  function Pieces(name: text): seq<text> {
    if Norm(name) == [] then [] else Split(Norm(name))
  }

  predicate IsSuffix(short: seq<text>, long: seq<text>) {
    |short| <= |long| && long[|long| - |short|..] == short
  }

  lemma SuffixGivesPieces(n: text, z: text)
    requires EndsWith(n, [DOT] + z)
    ensures IsSuffix(Split(z), Split(n)) && |Split(z)| < |Split(n)|
  {
    var above := n[..|n| - |z| - 1];
    assert n == above + [DOT] + z;
    SplitConcat(above, z);
  }

  lemma PiecesGiveSuffix(n: text, z: text)
    requires IsSuffix(Split(z), Split(n))
    ensures n == z || EndsWith(n, [DOT] + z)
  {
    hide Split, Join;
    var above := Split(n)[..|Split(n)| - |Split(z)|];
    assert Split(n) == above + Split(z);
    JoinSplit(n);
    JoinSplit(z);
    if above == [] {
      assert Split(n) == Split(z);
    } else {
      JoinConcat(above, Split(z));
      assert n == Join(above) + ([DOT] + z);
    }
  }

  /** The string test is the tree test. */
  lemma BailiwickIsSuffix(name: text, zone: text)
    ensures InBailiwick(name, zone) <==> IsSuffix(Pieces(zone), Pieces(name))
  {
    hide Split, TrimDots, Lower, IsSuffix, EndsWith;
    var n, z := Norm(name), Norm(zone);
    if z == [] {
      assert IsSuffix(Pieces(zone), Pieces(name)) by { NothingIsSuffix(Pieces(name)); }
    } else if n == [] {
      NothingHasNoSuffix(n, z);
    } else {
      if EndsWith(n, [DOT] + z) { SuffixGivesPieces(n, z); }
      if n == z { AllIsSuffix(Split(n)); }
      if IsSuffix(Split(z), Split(n)) { PiecesGiveSuffix(n, z); }
    }
  }

  lemma NothingIsSuffix(ls: seq<text>)
    ensures IsSuffix([], ls)
  {}

  lemma AllIsSuffix(ls: seq<text>)
    ensures IsSuffix(ls, ls)
  {}

  lemma NothingHasNoSuffix(n: text, z: text)
    requires n == [] && z != []
    ensures !EndsWith(n, [DOT] + z) && !IsSuffix(Split(z), [])
  {}

  lemma BailiwickTransitive(a: text, b: text, c: text)
    requires InBailiwick(a, b) && InBailiwick(b, c)
    ensures InBailiwick(a, c)
  {
    hide InBailiwick, Pieces;
    BailiwickIsSuffix(a, b);
    BailiwickIsSuffix(b, c);
    BailiwickIsSuffix(a, c);
  }

  lemma BailiwickReflexive(a: text)
    ensures InBailiwick(a, a)
  {}

  /** A zone inside another has more pieces exactly when trimming and case do not make them equal. */
  lemma DeeperExactly(inner: text, outer: text)
    requires InBailiwick(inner, outer)
    ensures |Pieces(outer)| <= |Pieces(inner)|
    ensures |Pieces(outer)| < |Pieces(inner)| <==> Norm(inner) != Norm(outer)
  {
    hide Split, Join, TrimDots, Lower, InBailiwick;
    BailiwickIsSuffix(inner, outer);
    if |Pieces(outer)| == |Pieces(inner)| {
      assert Pieces(outer) == Pieces(inner);
      if Norm(inner) != [] {
        JoinSplit(Norm(inner));
        JoinSplit(Norm(outer));
      }
    }
  }

  lemma RootContainsAll(name: text)
    ensures InBailiwick(name, ROOT)
  {
    assert TrimDots(ROOT) == TrimDots(ROOT[..0]);
  }

  // What the network delivers

  /** One `udp_exchange`: the datagrams that arrive in time, and the octets a TCP retry would get. */
  datatype Exchange = Exchange(id: u16, datagrams: seq<bytes>, stream: Option<bytes>)

  type Network = nat -> Exchange

  predicate EqIgnoreCase(a: text, b: text) {
    Lower(a) == Lower(b)
  }

  predicate IsResponse(p: Packet) {
    p.flags / 0x8000 % 2 == 1
  }

  predicate Truncated(p: Packet) {
    p.flags / 0x200 % 2 == 1
  }

  function Rcode(p: Packet): nat {
    p.flags % 0x10
  }

  const RCODE_NXDOMAIN: nat := 3

  predicate AnswersQuery(query: Packet, reply: Packet) {
    query.questions != [] && reply.questions != [] &&
    var asked, answered := query.questions[0], reply.questions[0];
    IsResponse(reply) && reply.id == query.id && EqIgnoreCase(answered.name, asked.name)
    && answered.qtype == asked.qtype && answered.qclass == asked.qclass
  }

  function BuildQuery(id: u16, name: text, qtype: RType): Packet {
    Packet(id, 0, [Question(name, qtype, 1)], [], [], [], 4096, false)
  }

  /** The first datagram that parses and answers the query; anything else is ignored. */
  function FirstReply(expected: Packet, datagrams: seq<bytes>): Option<Packet> {
    if datagrams == [] then None
    else
      var reply := Parse(datagrams[0]);
      if reply.Got? && AnswersQuery(expected, reply.value) then Some(reply.value)
      else FirstReply(expected, datagrams[1..])
  }

  function UdpExchange(query: bytes, x: Exchange): Option<Packet> {
    var expected := Parse(query);
    if expected.Fail? then None
    else
      var reply :- FirstReply(expected.value, x.datagrams);
      if !Truncated(reply) then Some(reply)
      else
        var octets :- x.stream;
        var again := Parse(octets);
        if again.Got? && AnswersQuery(expected.value, again.value) then Some(again.value) else None
  }

  lemma {:induction false} FirstReplyAnswers(expected: Packet, datagrams: seq<bytes>)
    ensures var r := FirstReply(expected, datagrams); r.Some? ==> AnswersQuery(expected, r.value)
  {
    hide AnswersQuery, Parse;
    if datagrams != [] {
      FirstReplyAnswers(expected, datagrams[1..]);
    }
  }

  /** A name the resolver may ask for: every label is one the reader gives back. */
  predicate Askable(name: text) {
    ProperLabels(Labels(name))
  }

  /** The name with its empty pieces dropped, which is what goes out on the wire. */
  function Respelled(name: text): text {
    if Labels(name) == [] then ROOT else Join(Labels(name))
  }

  /** Every name read from a packet is askable, even when a label hides dots. */
  lemma ReadIsAskable(buf: bytes, pos: nat)
    requires ReadName(buf, pos).Got?
    ensures Askable(ReadName(buf, pos).value)
  {
    hide ReadLabels, Split, ProperLabel;
    var name := ReadName(buf, pos).value;
    var raws := ReadLabels(buf, pos, 0).value;
    NamePartsOfRead(buf, pos);
    if raws == [] {
      RootLabels();
    } else {
      JoinedPiecesProper(DecodeLabels(raws));
      LabelsUntrimmed(name);
      NonEmptyProper(Split(name));
    }
  }

  lemma {:induction false} NonEmptyProper(ls: seq<text>)
    requires ShorterThan(ls, 0xC0) && GoodPieces(ls)
    ensures ProperLabels(NonEmpty(ls))
  {
    hide IsLower, ValidUtf8;
    if ls != [] {
      NonEmptyProper(ls[1..]);
      var head: seq<text> := if ls[0] == [] then [] else [ls[0]];
      assert ProperLabels(head);
      assert NonEmpty(ls) == head + NonEmpty(ls[1..]);
    }
  }

  lemma RespelledIsProper(name: text)
    requires Askable(name)
    ensures ProperName(Respelled(name)) && Labels(Respelled(name)) == Labels(name)
  {
    hide ProperLabel, Labels, Split;
    var ls := Labels(name);
    if ls == [] {
      RootLabels();
    } else {
      SplitJoin(ls);
      LabelsOfProper(Join(ls));
    }
  }

  /** The question that comes back is the one asked exactly when the name has no empty piece. */
  lemma RespelledExactly(name: text)
    requires Askable(name)
    ensures EqIgnoreCase(Respelled(name), name) <==> Restorable(name)
  {
    hide Labels, Split, ProperLabel, Lower, Join;
    var proper := Respelled(name);
    RespelledIsProper(name);
    if NoEmptyLabel(name) {
      LabelsOfProper(name);
      JoinSplit(name);
    } else if name == ROOT {
      RootLabels();
    } else if EqIgnoreCase(proper, name) {
      SplitLower(name);
      SplitLower(proper);
      assert Split(Lower(name)) == Split(Lower(proper));
      if proper == ROOT {
        RootAlone(name);
      } else {
        SameEmptyPieces(proper, name);
      }
    }
  }

  lemma RootAlone(name: text)
    requires Lower(name) == Lower(ROOT)
    ensures name == ROOT
  {
    assert Lower(name)[0] == Lower(ROOT)[0] == DOT;
  }

  lemma SameEmptyPieces(proper: text, name: text)
    requires ProperLabels(Split(proper)) && LowerAll(Split(proper)) == LowerAll(Split(name))
    ensures NoEmptyLabel(name)
  {
    hide Split, IsLower, ValidUtf8;
    var a, b := Split(proper), Split(name);
    forall i | 0 <= i < |b| ensures b[i] != [] {
      assert ProperLabel(a[i]);
      assert |LowerAll(a)[i]| == |a[i]| && |LowerAll(b)[i]| == |b[i]|;
    }
  }

  /**
   Whatever arrives, an accepted reply carries the identifier that was sent and the question
   for the name without its empty pieces: the name itself exactly when it has none.
   */
  lemma AcceptedReplyMatches(id: u16, name: text, qtype: RType, x: Exchange)
    requires Askable(name) && ProperType(qtype)
    ensures var r := UdpExchange(Serialize(BuildQuery(id, name, qtype), true), x);
            r.Some? ==> IsResponse(r.value) && r.value.id == id && r.value.questions != []
                        && EqIgnoreCase(r.value.questions[0].name, Respelled(name))
                        && (EqIgnoreCase(r.value.questions[0].name, name) <==> Restorable(name))
                        && r.value.questions[0].qtype == qtype && r.value.questions[0].qclass == 1
  {
    hide Parse, Serialize, FirstReply, IsResponse, ProperName, Restorable, Askable, Respelled, Lower;
    var q := BuildQuery(id, Respelled(name), qtype);
    RespelledIsProper(name);
    RespelledExactly(name);
    assert ProperPacket(q) by { QueryIsProper(id, Respelled(name), qtype); }
    SameQuery(id, name, Respelled(name), qtype);
    ParseSerialize(q);
    FirstReplyAnswers(q, x.datagrams);
  }

  lemma SameQuery(id: u16, a: text, b: text, qtype: RType)
    requires Labels(a) == Labels(b)
    ensures Serialize(BuildQuery(id, a, qtype), true) == Serialize(BuildQuery(id, b, qtype), true)
  {
    hide Labels, LabelsWire, RecordsWire, Be16;
    var p, q := BuildQuery(id, a, qtype), BuildQuery(id, b, qtype);
    assert p.questions[..0] == [] == q.questions[..0];
    assert QuestionWire(p.questions[0]) == QuestionWire(q.questions[0]);
  }

  lemma QueryIsProper(id: u16, name: text, qtype: RType)
    requires ProperName(name) && ProperType(qtype)
    ensures ProperPacket(BuildQuery(id, name, qtype))
  {
    hide ProperName;
  }

  // One reply

  function Keep(rs: seq<Record>, zone: text, optToo: bool): seq<Record> {
    if rs == [] then []
    else (if (optToo && rs[0].rtype == OPT) || InBailiwick(rs[0].name, zone) then [rs[0]] else [])
         + Keep(rs[1..], zone, optToo)
  }

  /** The reply without anything outside the zone whose servers were asked. */
  function Confine(p: Packet, zone: text): Packet {
    p.(answers := Keep(p.answers, zone, false), authority := Keep(p.authority, zone, false),
       additional := Keep(p.additional, zone, true))
  }

  predicate AllWithin(rs: seq<Record>, zone: text) {
    forall i :: 0 <= i < |rs| ==> rs[i].rtype == OPT || InBailiwick(rs[i].name, zone)
  }

  predicate Confined(p: Packet, zone: text) {
    AllWithin(p.answers, zone) && AllWithin(p.authority, zone) && AllWithin(p.additional, zone)
  }

  lemma {:induction false} KeepsWithin(rs: seq<Record>, zone: text, optToo: bool)
    ensures AllWithin(Keep(rs, zone, optToo), zone)
    ensures forall r :: r in Keep(rs, zone, optToo) ==> r in rs
  {
    hide InBailiwick;
    if rs != [] {
      KeepsWithin(rs[1..], zone, optToo);
    }
  }

  datatype Failure = DepthExceeded | TooManyReferrals | AllServersFailed | CnameLoop | BogusReferral
                   | EmptyReferral | NoServers

  datatype ResolveResult = Answer(packet: Packet) | NxDomain(packet: Packet) | ServFail(why: Failure)

  datatype Decision = Done(result: ResolveResult) | Restart(target: text)
                    | Refer(zone: text, servers: seq<text>, glue: seq<Ip>)

  function FirstOf(rs: seq<Record>, t: RType): Option<Record> {
    if rs == [] then None else if rs[0].rtype == t then Some(rs[0]) else FirstOf(rs[1..], t)
  }

  /** `Parser::new(rdata).name().unwrap_or_default()` */
  function NameFromRdata(rdata: bytes): text {
    var r := ReadName(rdata, 0);
    if r.Got? then r.value else []
  }

  function NsNames(rs: seq<Record>, zone: text): seq<text> {
    if rs == [] then []
    else
      var target := NameFromRdata(rs[0].rdata);
      (if rs[0].rtype == NS && EqIgnoreCase(rs[0].name, zone) && target != [] then [target] else [])
      + NsNames(rs[1..], zone)
  }

  predicate IsAddress(r: Record) {
    r.rtype == A && |r.rdata| == 4
  }

  function GlueFor(server: text, additional: seq<Record>): seq<Ip> {
    if additional == [] then []
    else (if EqIgnoreCase(additional[0].name, server) && IsAddress(additional[0]) then [additional[0].rdata] else [])
         + GlueFor(server, additional[1..])
  }

  function Glue(servers: seq<text>, additional: seq<Record>): seq<Ip> {
    if servers == [] then [] else GlueFor(servers[0], additional) + Glue(servers[1..], additional)
  }

  function Addresses(rs: seq<Record>): seq<Ip> {
    if rs == [] then [] else (if IsAddress(rs[0]) then [rs[0].rdata] else []) + Addresses(rs[1..])
  }

  /** What a confined reply leads to. */
  function Decide(name: text, qtype: RType, zone: text, chain: seq<text>, p: Packet): Decision {
    if Rcode(p) == RCODE_NXDOMAIN then Done(NxDomain(p))
    else if p.answers != [] then
      var cname := FirstOf(p.answers, CNAME);
      if cname.Some? && qtype != CNAME then
        var target := NameFromRdata(cname.value.rdata);
        if target == [] || target in chain then Done(ServFail(CnameLoop)) else Restart(target)
      else Done(Answer(p))
    else if p.authority != [] then
      var delegation := FirstOf(p.authority, NS);
      if delegation.None? then Done(ServFail(BogusReferral))
      else
        var delegated := Lower(delegation.value.name);
        if delegated == zone || !InBailiwick(name, delegated) then Done(ServFail(BogusReferral))
        else
          var servers := NsNames(p.authority, delegated);
          if servers == [] then Done(ServFail(EmptyReferral))
          else Refer(delegated, servers, Glue(servers, p.additional))
    else Done(Answer(p))
  }

  // The walk

  /** Loop variables of `iterative_resolve`. */
  datatype State = State(name: text, zone: text, servers: seq<Ip>, referrals: nat,
                         visited: set<(text, Ip)>, chain: seq<text>)

  /** One turn of the loop: the name asked for and the zone whose servers were asked. */
  datatype Hop = Hop(name: text, zone: text)

  datatype Lookup = Lookup(result: ResolveResult, clock: nat, hops: seq<Hop>)

  function Start(name: text): State {
    State(name, ROOT, ROOT_SERVERS, 0, {}, [])
  }

  /** The first server, not yet asked for this name, that replies; `clock` counts exchanges. */
  function AskServers(net: Network, clock: nat, query: bytes, name: text, servers: seq<Ip>,
                      visited: set<(text, Ip)>): (Option<Packet>, set<(text, Ip)>, nat)
    decreases |servers|
  {
    if servers == [] then (None, visited, clock)
    else if (name, servers[0]) in visited then AskServers(net, clock, query, name, servers[1..], visited)
    else
      var reply := UdpExchange(query, net(clock));
      var seen := visited + {(name, servers[0])};
      if reply.Some? then (reply, seen, clock + 1)
      else AskServers(net, clock + 1, query, name, servers[1..], seen)
  }

  function DepthLeft(depth: nat): nat {
    if depth > MAX_NS_LOOKUP_DEPTH then 0 else MAX_NS_LOOKUP_DEPTH + 1 - depth
  }

  function Resolve(net: Network, clock: nat, name: text, qtype: RType, depth: nat): Lookup
    decreases DepthLeft(depth), MAX_REFERRALS + 1, 0
  {
    if depth > MAX_NS_LOOKUP_DEPTH then Lookup(ServFail(DepthExceeded), clock, [])
    else Rounds(net, clock, Start(name), qtype, depth)
  }

  function Refused(why: Failure, clock: nat, hops: seq<Hop>): Lookup {
    Lookup(ServFail(why), clock, hops)
  }

  function ReferralsLeft(s: State): nat {
    if s.referrals >= MAX_REFERRALS then 0 else MAX_REFERRALS - s.referrals
  }

  function Restarted(s: State, visited: set<(text, Ip)>, target: text): State {
    State(target, ROOT, ROOT_SERVERS, s.referrals + 1, visited, s.chain + [s.name])
  }

  function Referred(s: State, visited: set<(text, Ip)>, zone: text, servers: seq<Ip>): State {
    s.(zone := zone, servers := servers, referrals := s.referrals + 1, visited := visited)
  }

  function WithHop(hop: Hop, rest: Lookup): Lookup {
    rest.(hops := [hop] + rest.hops)
  }

  function Rounds(net: Network, clock: nat, s: State, qtype: RType, depth: nat): Lookup
    requires depth <= MAX_NS_LOOKUP_DEPTH
    decreases DepthLeft(depth), ReferralsLeft(s)
  {
    if s.referrals >= MAX_REFERRALS then Refused(TooManyReferrals, clock, [])
    else
      var hop := Hop(s.name, s.zone);
      var query := Serialize(BuildQuery(net(clock).id, s.name, qtype), true);
      var (reply, visited, asked) := AskServers(net, clock, query, s.name, s.servers, s.visited);
      if reply.None? then Refused(AllServersFailed, asked, [hop])
      else
        match Decide(s.name, qtype, s.zone, s.chain, Confine(reply.value, s.zone))
        case Done(result) => Lookup(result, asked, [hop])
        case Restart(target) => WithHop(hop, Rounds(net, asked, Restarted(s, visited, target), qtype, depth))
        case Refer(zone, servers, glue) =>
          var (found, later) := if glue != [] then (glue, asked) else FindServers(net, asked, servers, depth);
          if found == [] then Refused(NoServers, later, [hop])
          else WithHop(hop, Rounds(net, later, Referred(s, visited, zone, found), qtype, depth))
  }

  /** Addresses of the first name server that resolves, one level down. */
  function FindServers(net: Network, clock: nat, servers: seq<text>, depth: nat): (seq<Ip>, nat)
    requires depth <= MAX_NS_LOOKUP_DEPTH
    decreases DepthLeft(depth), 0, |servers|
  {
    if servers == [] then ([], clock)
    else
      var l := Resolve(net, clock, servers[0], A, depth + 1);
      var found := if l.result.Answer? then Addresses(l.result.packet.answers) else [];
      if found != [] then (found, l.clock) else FindServers(net, l.clock, servers[1..], depth)
  }

  // What every walk keeps

  /** A referral goes down: same name, a zone inside the previous one that still holds the name. */
  ghost predicate Descends(a: Hop, b: Hop) {
    && b.name == a.name && b.zone != a.zone && Lower(b.zone) == b.zone
    && InBailiwick(b.zone, a.zone) && InBailiwick(b.name, b.zone)
  }

  /** Consecutive turns: a referral, or a fresh start at the root for an alias. */
  ghost predicate Linked(a: Hop, b: Hop) {
    b.zone == ROOT || Descends(a, b)
  }

  ghost predicate GoodHops(hops: seq<Hop>) {
    && (forall i :: 0 <= i < |hops| ==> InBailiwick(hops[i].name, hops[i].zone))
    && (forall i, j :: 0 <= i < |hops| && j == i + 1 && j < |hops| ==> Linked(hops[i], hops[j]))
  }

  /** A packet handed back holds nothing outside the zone whose servers were asked last. */
  ghost predicate ResultWithin(r: ResolveResult, hops: seq<Hop>) {
    !r.ServFail? ==> hops != [] && Confined(r.packet, hops[|hops| - 1].zone)
  }

  ghost predicate GoodWalk(l: Lookup) {
    GoodHops(l.hops) && ResultWithin(l.result, l.hops)
  }

  lemma ConfineConfines(p: Packet, zone: text)
    ensures Confined(Confine(p, zone), zone)
  {
    hide Keep, AllWithin;
    KeepsWithin(p.answers, zone, false);
    KeepsWithin(p.authority, zone, false);
    KeepsWithin(p.additional, zone, true);
  }

  lemma {:induction false} FirstIsMember(rs: seq<Record>, t: RType)
    ensures var r := FirstOf(rs, t); r.Some? ==> r.value.rtype == t && exists i :: 0 <= i < |rs| && rs[i] == r.value
  {
    if rs != [] && rs[0].rtype != t {
      FirstIsMember(rs[1..], t);
      var r := FirstOf(rs[1..], t);
      if r.Some? {
        var i :| 0 <= i < |rs[1..]| && rs[1..][i] == r.value;
        assert rs[i + 1] == r.value;
      }
    }
  }

  lemma NormOfLower(s: text)
    ensures Norm(Lower(s)) == Norm(s)
  {
    TrimLower(s);
    LowerTwice(TrimDots(s));
  }

  /** What one confined reply can lead to. */
  lemma DecisionDescends(name: text, qtype: RType, zone: text, chain: seq<text>, p: Packet)
    requires Confined(p, zone)
    ensures var d := Decide(name, qtype, zone, chain, p);
            && (d.Done? && !d.result.ServFail? ==> d.result.packet == p)
            && (d.Refer? ==> Descends(Hop(name, zone), Hop(name, d.zone)))
  {
    hide InBailiwick, Lower, Norm, FirstOf, NsNames, Glue;
    var delegation := FirstOf(p.authority, NS);
    FirstIsMember(p.authority, NS);
    if delegation.Some? {
      var i :| 0 <= i < |p.authority| && p.authority[i] == delegation.value;
      assert InBailiwick(p.authority[i].name, zone);
      LoweredWithin(p.authority[i].name, zone);
      LowerTwice(p.authority[i].name);
    }
  }

  lemma LoweredWithin(name: text, zone: text)
    requires InBailiwick(name, zone)
    ensures InBailiwick(Lower(name), zone)
  {
    hide Norm, Lower;
    NormOfLower(name);
  }

  lemma FirstHop(net: Network, clock: nat, s: State, qtype: RType, depth: nat)
    requires depth <= MAX_NS_LOOKUP_DEPTH
    ensures var hops := Rounds(net, clock, s, qtype, depth).hops; hops != [] ==> hops[0] == Hop(s.name, s.zone)
  {
    hide Serialize, AskServers, Decide, Confine, FindServers;
  }

  lemma AlongWalk(hop: Hop, rest: Lookup)
    requires GoodWalk(rest) && InBailiwick(hop.name, hop.zone)
    requires rest.hops != [] ==> Linked(hop, rest.hops[0])
    ensures GoodWalk(WithHop(hop, rest))
  {
    hide InBailiwick, Linked, Confined;
    var hops := [hop] + rest.hops;
    forall i | 0 <= i < |hops| ensures InBailiwick(hops[i].name, hops[i].zone) {
      if i > 0 { assert hops[i] == rest.hops[i - 1]; }
    }
    forall i, j | 0 <= i < |hops| && j == i + 1 && j < |hops| ensures Linked(hops[i], hops[j]) {
      if i > 0 { assert hops[i] == rest.hops[i - 1] && hops[j] == rest.hops[j - 1]; }
    }
  }

  /**
   Over every walk, whatever the network delivers: the zone asked always contains the name,
   every referral goes down, at most `MAX_REFERRALS` turns are taken, and the packet handed
   back lies inside the zone whose servers were asked.
   */
  lemma {:induction false} WalkIsConfined(net: Network, clock: nat, s: State, qtype: RType, depth: nat)
    requires depth <= MAX_NS_LOOKUP_DEPTH && InBailiwick(s.name, s.zone)
    ensures var l := Rounds(net, clock, s, qtype, depth);
            GoodWalk(l) && |l.hops| <= ReferralsLeft(s)
    decreases ReferralsLeft(s)
  {
    hide InBailiwick, Serialize, AskServers, Decide, Confine, Confined, FindServers;
    if s.referrals < MAX_REFERRALS {
      var hop := Hop(s.name, s.zone);
      var query := Serialize(BuildQuery(net(clock).id, s.name, qtype), true);
      var (reply, visited, asked) := AskServers(net, clock, query, s.name, s.servers, s.visited);
      if reply.Some? {
        var p := Confine(reply.value, s.zone);
        ConfineConfines(reply.value, s.zone);
        DecisionDescends(s.name, qtype, s.zone, s.chain, p);
        match Decide(s.name, qtype, s.zone, s.chain, p)
        case Done(result) =>
        case Restart(target) =>
          var next := Restarted(s, visited, target);
          RootContainsAll(target);
          WalkIsConfined(net, asked, next, qtype, depth);
          FirstHop(net, asked, next, qtype, depth);
          AlongWalk(hop, Rounds(net, asked, next, qtype, depth));
        case Refer(zone, servers, glue) =>
          var (found, later) := if glue != [] then (glue, asked) else FindServers(net, asked, servers, depth);
          if found != [] {
            var next := Referred(s, visited, zone, found);
            WalkIsConfined(net, later, next, qtype, depth);
            FirstHop(net, later, next, qtype, depth);
            AlongWalk(hop, Rounds(net, later, next, qtype, depth));
          }
      }
    }
  }

  /** The same for a whole lookup, nested lookups of name servers included. */
  lemma LookupIsConfined(net: Network, clock: nat, name: text, qtype: RType, depth: nat)
    ensures var l := Resolve(net, clock, name, qtype, depth);
            && GoodWalk(l) && |l.hops| <= MAX_REFERRALS
            && (l.hops != [] ==> l.hops[0] == Hop(name, ROOT))
  {
    hide Rounds, GoodWalk, InBailiwick;
    if depth <= MAX_NS_LOOKUP_DEPTH {
      RootContainsAll(name);
      WalkIsConfined(net, clock, Start(name), qtype, depth);
      FirstHop(net, clock, Start(name), qtype, depth);
    } else {
      NoHops(DepthExceeded, clock);
    }
  }

  lemma NoHops(why: Failure, clock: nat)
    ensures GoodWalk(Refused(why, clock, []))
  {}

  // How far down referrals lead

  /** Every turn after the first came from a referral. */
  ghost predicate Stretch(hops: seq<Hop>) {
    forall i, j :: 0 <= i < |hops| && j == i + 1 && j < |hops| ==> Descends(hops[i], hops[j])
  }

  /** Referrals that change the zone's spelling but not the zone: only trailing dots differ. */
  function Sideways(hops: seq<Hop>): nat {
    if |hops| < 2 then 0
    else (if Norm(hops[0].zone) == Norm(hops[1].zone) then 1 else 0) + Sideways(hops[1..])
  }

  lemma {:induction false} StretchDeepens(hops: seq<Hop>)
    requires Stretch(hops) && hops != []
    ensures hops[|hops| - 1].name == hops[0].name
    ensures InBailiwick(hops[|hops| - 1].zone, hops[0].zone)
    ensures |Pieces(hops[0].zone)| + |hops| - 1 <= |Pieces(hops[|hops| - 1].zone)| + Sideways(hops)
  {
    hide InBailiwick, Pieces, Norm, Lower;
    if |hops| > 1 {
      var a, b := hops[0], hops[1];
      assert Descends(a, b);
      DeeperExactly(b.zone, a.zone);
      StretchDeepens(hops[1..]);
      assert hops[1..][|hops| - 2] == hops[|hops| - 1];
      BailiwickTransitive(hops[|hops| - 1].zone, b.zone, a.zone);
    } else {
      BailiwickReflexive(hops[0].zone);
    }
  }

  /**
   Between alias restarts there are no more referrals than pieces in the name, not counting
   the ones that only respell the zone.
   */
  lemma ReferralsAtMostPieces(hops: seq<Hop>)
    requires Stretch(hops) && GoodHops(hops) && hops != []
    ensures |hops| - 1 <= |Pieces(hops[0].name)| + Sideways(hops)
  {
    hide InBailiwick, Pieces, Stretch, Sideways;
    var last := hops[|hops| - 1];
    StretchDeepens(hops);
    BailiwickIsSuffix(last.name, last.zone);
  }

  lemma ProperTrim(name: text)
    requires ProperName(name)
    ensures Norm(name) == (if name == ROOT then [] else name)
    ensures Pieces(name) == Labels(name)
  {
    ProperNameLower(name);
    TrimLower(name);
    if name == ROOT {
      RootLabels();
      assert TrimDots(ROOT) == TrimDots([]);
    } else {
      LabelsOfProper(name);
    }
  }

  /** A name read from the wire whose labels hold no dot is proper. */
  lemma ReadIsProperName(buf: bytes, pos: nat)
    requires ReadLabels(buf, pos, 0).Got? && DotFree(ReadLabels(buf, pos, 0).value)
    ensures ReadName(buf, pos).Got? && ProperName(ReadName(buf, pos).value)
  {
    hide ReadLabels;
    var raws := ReadLabels(buf, pos, 0).value;
    NamePartsOfRead(buf, pos);
    if raws != [] {
      forall i | 0 <= i < |raws| ensures DOT !in DecodeLabels(raws)[i] {
        assert DOT !in raws[i];
      }
      SplitJoin(DecodeLabels(raws));
    }
  }

  /** Among proper zone names every referral gains a label: respelling is impossible. */
  lemma ProperReferralDeepens(a: Hop, b: Hop)
    requires Descends(a, b) && ProperName(a.zone) && ProperName(b.zone)
    ensures |Labels(a.zone)| < |Labels(b.zone)|
  {
    hide InBailiwick, Pieces, Norm, Lower, ProperName, Labels;
    DeeperExactly(b.zone, a.zone);
    ProperTrim(a.zone);
    ProperTrim(b.zone);
    ProperNotEmpty(a.zone);
    ProperNotEmpty(b.zone);
  }

  lemma ProperNotEmpty(name: text)
    requires ProperName(name)
    ensures name != []
  {
    SplitNothing();
    assert !ProperLabels([[]]) by { assert !ProperLabel([[]][0]); }
  }

  lemma {:induction false} NoSideways(hops: seq<Hop>)
    requires Stretch(hops) && forall i :: 0 <= i < |hops| ==> ProperName(hops[i].zone)
    ensures Sideways(hops) == 0
  {
    hide InBailiwick, Pieces, Norm, Lower, ProperName;
    if |hops| > 1 {
      NoSideways(hops[1..]);
      assert Descends(hops[0], hops[1]);
      ProperTrim(hops[0].zone);
      ProperTrim(hops[1].zone);
      ProperNotEmpty(hops[0].zone);
      ProperNotEmpty(hops[1].zone);
    }
  }

  /** With proper zone names: at most as many referrals as the name has labels. */
  lemma ReferralsAtMostLabels(hops: seq<Hop>)
    requires Stretch(hops) && GoodHops(hops) && hops != [] && ProperName(hops[0].name)
    requires forall i :: 0 <= i < |hops| ==> ProperName(hops[i].zone)
    ensures |hops| - 1 <= |Labels(hops[0].name)|
  {
    hide ProperName, Pieces, Stretch, GoodHops, Sideways;
    NoSideways(hops);
    ReferralsAtMostPieces(hops);
    ProperTrim(hops[0].name);
  }

  const COM: text := [99, 111, 109]
  const COM_DOT: text := [99, 111, 109, 46]
  const SERVER: text := [120]

  /** An authority section delegating a zone spelled `com.`: one label of four octets. */
  function RespelledReferral(): Packet {
    Packet(0, 0x8000, [], [], [Record(COM_DOT, NS, 1, 0, [1, 120, 0])], [], 0, false)
  }

  /**
   Not every referral gains a label: asked inside `com`, a delegation to a zone whose single
   label is the four octets `com.` is accepted although it is the same zone.
   */
  lemma RespelledZoneAccepted(chain: seq<text>)
    ensures ReadName([4] + COM_DOT + [0], 0) == Got(COM_DOT, 6)
    ensures Confined(RespelledReferral(), COM)
    ensures Decide(COM, A, COM, chain, RespelledReferral()) == Refer(COM_DOT, [SERVER], [])
    ensures Pieces(COM_DOT) == Pieces(COM)
  {
    hide ReadName, Norm, Lower, NameFromRdata, ValidUtf8;
    RespelledNames();
    OneLabelReads(COM_DOT);
    ServerReads();
    var p := RespelledReferral();
    assert NsNames(p.authority[1..], COM_DOT) == [];
    assert NsNames(p.authority, COM_DOT) == [SERVER];
    assert Glue([SERVER], []) == [] by { assert Glue([], []) == []; }
  }

  lemma RespelledNames()
    ensures Norm(COM_DOT) == Norm(COM) == COM && Lower(COM_DOT) == COM_DOT && DecodeLabel(COM_DOT) == COM_DOT
  {
    AsciiIsUtf8(COM_DOT);
    assert Lower(COM_DOT) == COM_DOT && Lower(COM) == COM;
    assert COM_DOT[..3] == COM;
  }

  lemma ServerReads()
    ensures NameFromRdata([1, 120, 0]) == SERVER
  {
    OneLabelReads(SERVER);
    AsciiIsUtf8(SERVER);
    assert Lower(SERVER) == SERVER;
    assert [1] + SERVER + [0] == [1, 120, 0];
  }

  lemma OneLabelReads(l: text)
    requires 0 < |l| < 0xC0
    ensures ReadName([|l|] + l + [0], 0) == Got(DecodeLabel(l), |l| + 2)
  {
    hide ReadLabels;
    var wire := [|l|] + l + [0];
    assert LabelsWire([l]) == LabelWire(l) + LabelsWire([l][1..]);
    assert At(wire, 0, LabelsWire([l]) + [0]);
    ReadLabelsBack(wire, 0, [l], 0);
    assert DecodeLabels([l]) == [DecodeLabel(l)];
  }

  lemma {:induction false} AsciiIsUtf8(s: text)
    requires forall i :: 0 <= i < |s| ==> s[i] < 0x80
    ensures ValidUtf8(s)
  {
    if s != [] {
      AsciiIsUtf8(s[1..]);
    }
  }

  // Glue

  lemma {:induction false} GlueForIsConfined(server: text, additional: seq<Record>, ip: Ip)
    requires ip in GlueFor(server, additional)
    ensures exists r :: r in additional && EqIgnoreCase(r.name, server) && IsAddress(r) && r.rdata == ip
  {
    var head := if EqIgnoreCase(additional[0].name, server)
        && IsAddress(additional[0]) then [additional[0].rdata] else [];
    if ip in head {
      assert additional[0] in additional;
    } else {
      GlueForIsConfined(server, additional[1..], ip);
      var r :| r in additional[1..] && EqIgnoreCase(r.name, server) && IsAddress(r) && r.rdata == ip;
      assert r in additional;
    }
  }

  /** The record an address was taken from. */
  ghost predicate GlueRecord(r: Record, p: Packet, servers: seq<text>, zone: text, ip: Ip) {
    && r in p.additional && IsAddress(r) && r.rdata == ip && InBailiwick(r.name, zone)
    && exists i :: 0 <= i < |servers| && EqIgnoreCase(r.name, servers[i])
  }

  lemma {:induction false} GlueFromServer(servers: seq<text>, additional: seq<Record>, ip: Ip) returns (i: nat)
    requires ip in Glue(servers, additional)
    ensures i < |servers| && ip in GlueFor(servers[i], additional)
  {
    if ip in GlueFor(servers[0], additional) {
      i := 0;
    } else {
      var k := GlueFromServer(servers[1..], additional, ip);
      i := k + 1;
    }
  }

  /**
   Every address a referral supplies by itself comes from an A record of the reply, inside
   the zone asked and owned by a server the delegation names.
   */
  lemma GlueIsInBailiwick(name: text, qtype: RType, zone: text, chain: seq<text>, reply: Packet, ip: Ip)
    requires var d := Decide(name, qtype, zone, chain, Confine(reply, zone)); d.Refer? && ip in d.glue
    ensures var d := Decide(name, qtype, zone, chain, Confine(reply, zone));
            exists r :: GlueRecord(r, reply, d.servers, zone, ip)
  {
    hide InBailiwick, EqIgnoreCase, Keep, Glue, GlueFor, NsNames, FirstOf;
    var p := Confine(reply, zone);
    var d := Decide(name, qtype, zone, chain, p);
    assert d.glue == Glue(d.servers, p.additional);
    var i := GlueFromServer(d.servers, p.additional, ip);
    GlueForIsConfined(d.servers[i], p.additional, ip);
    var r :| r in p.additional && EqIgnoreCase(r.name, d.servers[i]) && IsAddress(r) && r.rdata == ip;
    KeepsWithin(reply.additional, zone, true);
    var k :| 0 <= k < |p.additional| && p.additional[k] == r;
    assert GlueRecord(r, reply, d.servers, zone, ip);
  }

  // The loop

  /** `'ns_loop`: ask each server not yet asked for this name until one replies. */
  method AskEach(net: Network, start: nat, query: bytes, name: text, servers: seq<Ip>, seen: set<(text, Ip)>)
    returns (reply: Option<Packet>, visited: set<(text, Ip)>, clock: nat)
    ensures (reply, visited, clock) == AskServers(net, start, query, name, servers, seen)
  {
    hide UdpExchange;
    reply, visited, clock := None, seen, start;
    var i := 0;
    while i < |servers|
      invariant 0 <= i <= |servers| && reply.None?
      invariant AskServers(net, start, query, name, servers, seen)
                == AskServers(net, clock, query, name, servers[i..], visited)
    {
      var key := (name, servers[i]);
      assert servers[i..][0] == servers[i] && servers[i..][1..] == servers[i + 1..];
      i := i + 1;
      if key in visited { continue; }
      visited := visited + {key};
      var got := UdpExchange(query, net(clock));
      clock := clock + 1;
      if got.Some? {
        reply := got;
        return;
      }
    }
  }

  method CollectGlue(servers: seq<text>, additional: seq<Record>) returns (found: seq<Ip>)
    ensures found == Glue(servers, additional)
  {
    found := [];
    for i := 0 to |servers|
      invariant Glue(servers, additional) == found + Glue(servers[i..], additional)
    {
      assert servers[i..][0] == servers[i] && servers[i..][1..] == servers[i + 1..];
      Reassociate(found, GlueFor(servers[i], additional), Glue(servers[i + 1..], additional));
      var more := CollectGlueFor(servers[i], additional);
      found := found + more;
    }
  }

  method CollectGlueFor(server: text, additional: seq<Record>) returns (found: seq<Ip>)
    ensures found == GlueFor(server, additional)
  {
    hide EqIgnoreCase, IsAddress;
    found := [];
    for k := 0 to |additional|
      invariant GlueFor(server, additional) == found + GlueFor(server, additional[k..])
    {
      var add := additional[k];
      assert additional[k..][0] == add && additional[k..][1..] == additional[k + 1..];
      if EqIgnoreCase(add.name, server) && IsAddress(add) {
        Reassociate(found, [add.rdata], GlueFor(server, additional[k + 1..]));
        found := found + [add.rdata];
      }
    }
  }

  /** The branches a confined reply takes. */
  method ReadReply(name: text, qtype: RType, zone: text, chain: seq<text>, p: Packet) returns (d: Decision)
    ensures d == Decide(name, qtype, zone, chain, p)
  {
    hide InBailiwick, EqIgnoreCase, NameFromRdata, NsNames, Glue, FirstOf;
    if Rcode(p) == RCODE_NXDOMAIN { return Done(NxDomain(p)); }
    if p.answers != [] {
      var cname := FirstOf(p.answers, CNAME);
      if cname.Some? && qtype != CNAME {
        var target := NameFromRdata(cname.value.rdata);
        if target == [] || target in chain { return Done(ServFail(CnameLoop)); }
        return Restart(target);
      }
      return Done(Answer(p));
    }
    if p.authority != [] {
      var delegation := FirstOf(p.authority, NS);
      if delegation.None? { return Done(ServFail(BogusReferral)); }
      var delegated := Lower(delegation.value.name);
      if delegated == zone || !InBailiwick(name, delegated) { return Done(ServFail(BogusReferral)); }
      var servers := NsNames(p.authority, delegated);
      if servers == [] { return Done(ServFail(EmptyReferral)); }
      var glue := CollectGlue(servers, p.additional);
      return Refer(delegated, servers, glue);
    }
    return Done(Answer(p));
  }

  lemma AddressesStep(rs: seq<Record>, i: nat)
    requires i < |rs|
    ensures Addresses(rs[i..]) == (if IsAddress(rs[i]) then [rs[i].rdata] else []) + Addresses(rs[i + 1..])
  {
    assert rs[i..][0] == rs[i] && rs[i..][1..] == rs[i + 1..];
  }

  method CollectAddresses(rs: seq<Record>) returns (found: seq<Ip>)
    ensures found == Addresses(rs)
  {
    found := [];
    for i := 0 to |rs|
      invariant Addresses(rs) == found + Addresses(rs[i..])
    {
      hide Addresses, IsAddress;
      var r := rs[i];
      AddressesStep(rs, i);
      if IsAddress(r) {
        Reassociate(found, [r.rdata], Addresses(rs[i + 1..]));
        found := found + [r.rdata];
      } else {
        assert [] + Addresses(rs[i + 1..]) == Addresses(rs[i + 1..]);
      }
    }
  }

  /** Resolve the servers' names, one level down, until one has addresses. */
  method ResolveServers(net: Network, start: nat, servers: seq<text>, depth: nat) returns (found: seq<Ip>, clock: nat)
    requires depth <= MAX_NS_LOOKUP_DEPTH
    ensures (found, clock) == FindServers(net, start, servers, depth)
    decreases DepthLeft(depth), 0
  {
    hide Resolve, Addresses;
    found, clock := [], start;
    var i := 0;
    while i < |servers|
      invariant 0 <= i <= |servers| && found == []
      invariant FindServers(net, start, servers, depth) == FindServers(net, clock, servers[i..], depth)
    {
      assert servers[i..][0] == servers[i] && servers[i..][1..] == servers[i + 1..];
      var result;
      result, clock := IterativeResolve(net, clock, servers[i], A, depth + 1);
      if result.Answer? {
        found := CollectAddresses(result.packet.answers);
      }
      if found != [] { return; }
      i := i + 1;
    }
  }

  ghost predicate SameOutcome(l: Lookup, m: Lookup) {
    l.result == m.result && l.clock == m.clock
  }

  /** `iterative_resolve` ends on every network: lookups nest less deep, then fewer referrals remain. */
  method IterativeResolve(net: Network, start: nat, name: text, qtype: RType, depth: nat)
    returns (result: ResolveResult, clock: nat)
    ensures var l := Resolve(net, start, name, qtype, depth); result == l.result && clock == l.clock
    decreases DepthLeft(depth), 1
  {
    hide AskServers, Confine, Decide, Serialize, FindServers;
    if depth > MAX_NS_LOOKUP_DEPTH { return ServFail(DepthExceeded), start; }
    var nameservers := ROOT_SERVERS;
    var currentZone := ROOT;
    var referralCount := 0;
    var visited: set<(text, Ip)> := {};
    var cnameChain: seq<text> := [];
    var currentName := name;
    clock := start;
    while true
      invariant SameOutcome(Resolve(net, start, name, qtype, depth),
                            Rounds(net, clock,
                                   State(currentName, currentZone, nameservers, referralCount, visited, cnameChain),
                                   qtype, depth))
      decreases MAX_REFERRALS - referralCount
    {
      if referralCount >= MAX_REFERRALS { return ServFail(TooManyReferrals), clock; }
      var query := Serialize(BuildQuery(net(clock).id, currentName, qtype), true);
      var reply;
      reply, visited, clock := AskEach(net, clock, query, currentName, nameservers, visited);
      if reply.None? { return ServFail(AllServersFailed), clock; }
      var d := ReadReply(currentName, qtype, currentZone, cnameChain, Confine(reply.value, currentZone));
      match d
      case Done(r) =>
        return r, clock;
      case Restart(target) =>
        cnameChain := cnameChain + [currentName];
        currentName := target;
        nameservers := ROOT_SERVERS;
        currentZone := ROOT;
        referralCount := referralCount + 1;
      case Refer(zone, servers, glue) =>
        var found := glue;
        if found == [] {
          found, clock := ResolveServers(net, clock, servers, depth);
        }
        if found == [] { return ServFail(NoServers), clock; }
        nameservers := found;
        currentZone := zone;
        referralCount := referralCount + 1;
    }
  }
}
