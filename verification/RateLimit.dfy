/**
 The rate limiter (src/ratelimit.rs): a bounded, pruned, sharded table of token buckets
 that decides as an unbounded one would, and a per-second global cap. Time and tokens are
 reals; calls are taken one at a time with a clock that never goes back.
 */
module RateLimit {

  type Ip = nat

  datatype Bucket = Bucket(tokens: real, lastRefill: real)

  datatype Shard = Shard(buckets: map<Ip, Bucket>, lastPrune: real)

  /** Capacity equals the rate: one second's worth. Both are positive where buckets are kept. */
  datatype Limits = Limits(rate: real, maxPerShard: nat)

  const SHARDS: nat := 64

  predicate Usable(l: Limits) {
    l.rate > 0.0 && l.maxPerShard >= 1
  }

  function Elapsed(now: real, since: real): real {
    if now >= since then now - since else 0.0
  }

  function Min(a: real, b: real): real {
    if a <= b then a else b
  }

  // One bucket

  function Fresh(l: Limits, now: real): Bucket {
    Bucket(l.rate, now)
  }

  function Refilled(l: Limits, b: Bucket, now: real): Bucket {
    Bucket(Min(b.tokens + Elapsed(now, b.lastRefill) * l.rate, l.rate), now)
  }

  /** The bucket after a call at `now`, and whether the call took a token. */
  function Take(l: Limits, b: Bucket, now: real): (Bucket, bool) {
    var r := Refilled(l, b, now);
    if r.tokens >= 1.0 then (r.(tokens := r.tokens - 1.0), true) else (r, false)
  }

  function BucketOf(l: Limits, buckets: map<Ip, Bucket>, ip: Ip, now: real): Bucket {
    if ip in buckets then buckets[ip] else Fresh(l, now)
  }

  // One shard

  /** Let through by the table-full rule, or decided by a bucket. */
  datatype Verdict = Unmetered | Admitted | Refused

  /** The bucket would be full by now. */
  predicate Idle(l: Limits, b: Bucket, now: real) {
    b.tokens + Elapsed(now, b.lastRefill) * l.rate >= l.rate
  }

  /** `retain`: buckets that would be full by now are dropped. */
  function Pruned(l: Limits, buckets: map<Ip, Bucket>, now: real): map<Ip, Bucket> {
    map ip | ip in buckets && !Idle(l, buckets[ip], now) :: buckets[ip]
  }

  function Metered(l: Limits, s: Shard, ip: Ip, now: real): (Shard, Verdict) {
    var (b, taken) := Take(l, BucketOf(l, s.buckets, ip, now), now);
    (s.(buckets := s.buckets[ip := b]), if taken then Admitted else Refused)
  }

  /** `check_source` on the source's shard. */
  function CheckShard(l: Limits, s: Shard, ip: Ip, now: real): (Shard, Verdict) {
    if ip !in s.buckets && |s.buckets| >= l.maxPerShard then
      if Elapsed(now, s.lastPrune).Floor < 1 then (s, Unmetered)
      else
        var pruned := Shard(Pruned(l, s.buckets, now), now);
        if |pruned.buckets| >= l.maxPerShard then (pruned, Unmetered) else Metered(l, pruned, ip, now)
    else Metered(l, s, ip, now)
  }

  // The never-forgetting table

  function IdealTake(l: Limits, ideal: map<Ip, Bucket>, ip: Ip, now: real): (map<Ip, Bucket>, bool) {
    var (b, taken) := Take(l, BucketOf(l, ideal, ip, now), now);
    (ideal[ip := b], taken)
  }

  predicate Sound(l: Limits, b: Bucket, now: real) {
    0.0 <= b.tokens <= l.rate && b.lastRefill <= now
  }

  /**
   The bounded shard remembers sources exactly as the unbounded table does, and whatever it
   forgot would be full again by now. `mine` tells which sources belong to the shard.
   */
  ghost predicate Agrees(l: Limits, s: Shard, ideal: map<Ip, Bucket>, mine: Ip -> bool, now: real) {
    && (forall ip :: ip in s.buckets ==> mine(ip) && ip in ideal && s.buckets[ip] == ideal[ip])
    && (forall ip :: ip in ideal && mine(ip) && ip !in s.buckets ==> Idle(l, ideal[ip], now))
    && (forall ip :: ip in ideal ==> Sound(l, ideal[ip], now))
  }

  lemma IdleLater(l: Limits, b: Bucket, now: real, later: real)
    requires Usable(l) && Sound(l, b, now) && now <= later
    ensures Sound(l, b, later)
    ensures Idle(l, b, now) ==> Idle(l, b, later)
  {
    assert (later - b.lastRefill) * l.rate >= (now - b.lastRefill) * l.rate;
  }

  lemma TakeSound(l: Limits, b: Bucket, now: real)
    requires Usable(l) && Sound(l, b, now)
    ensures Sound(l, Take(l, b, now).0, now)
  {
    assert Elapsed(now, b.lastRefill) * l.rate >= 0.0;
  }

  /** A bucket that would be full behaves like a new one. */
  lemma IdleIsFresh(l: Limits, b: Bucket, now: real)
    requires Usable(l) && Idle(l, b, now)
    ensures Take(l, b, now) == Take(l, Fresh(l, now), now)
  {
    assert Elapsed(now, now) * l.rate == 0.0;
  }

  lemma AgreesLater(l: Limits, s: Shard, ideal: map<Ip, Bucket>, mine: Ip -> bool, now: real, later: real)
    requires Usable(l) && Agrees(l, s, ideal, mine, now) && now <= later
    ensures Agrees(l, s, ideal, mine, later)
  {
    hide Idle, Sound;
    forall ip | ip in ideal ensures Sound(l, ideal[ip], later) && (Idle(l, ideal[ip], now)
        ==> Idle(l, ideal[ip], later)) {
      IdleLater(l, ideal[ip], now, later);
    }
  }

  lemma PruneKeepsAgreement(l: Limits, s: Shard, ideal: map<Ip, Bucket>, mine: Ip -> bool, now: real, at: real)
    requires Agrees(l, s, ideal, mine, now)
    ensures Agrees(l, Shard(Pruned(l, s.buckets, now), at), ideal, mine, now)
    ensures Pruned(l, s.buckets, now).Keys <= s.buckets.Keys
  {
    hide Idle, Sound;
  }

  lemma MeteredAgrees(l: Limits, s: Shard, ideal: map<Ip, Bucket>, mine: Ip -> bool, ip: Ip, now: real)
    requires Usable(l) && Agrees(l, s, ideal, mine, now) && mine(ip)
    ensures var (t, verdict) := Metered(l, s, ip, now);
            var (after, taken) := IdealTake(l, ideal, ip, now);
            Agrees(l, t, after, mine, now) && (verdict == Admitted <==> taken) && verdict != Unmetered
  {
    hide Idle, Take;
    if ip !in s.buckets && ip in ideal {
      IdleIsFresh(l, ideal[ip], now);
    }
    TakeSound(l, BucketOf(l, ideal, ip, now), now);
  }

  /** A call to another shard leaves this shard in agreement. */
  lemma OtherShardAgrees(l: Limits, s: Shard, ideal: map<Ip, Bucket>, mine: Ip -> bool, ip: Ip, now: real)
    requires Usable(l) && Agrees(l, s, ideal, mine, now) && !mine(ip)
    ensures Agrees(l, s, IdealTake(l, ideal, ip, now).0, mine, now)
  {
    hide Idle, Take;
    TakeSound(l, BucketOf(l, ideal, ip, now), now);
  }

  // The table of shards

  function ShardOf(hash: Ip -> nat, ip: Ip): (i: nat)
    ensures i < SHARDS
  {
    hash(ip) % SHARDS
  }

  /** All shards, one per residue of the hash. */
  type Table = t: seq<Shard> | |t| == 64 witness seq(64, _ => Shard(map[], 0.0))

  function CheckTable(l: Limits, hash: Ip -> nat, t: Table, ip: Ip, now: real): (Table, Verdict) {
    var i := ShardOf(hash, ip);
    var (s, v) := CheckShard(l, t[i], ip, now);
    (t[i := s], v)
  }

  function InShard(hash: Ip -> nat, i: nat): Ip -> bool {
    (ip: Ip) => ShardOf(hash, ip) == i
  }

  ghost predicate TableAgrees(l: Limits, hash: Ip -> nat, t: Table, ideal: map<Ip, Bucket>, now: real) {
    forall i :: 0 <= i < SHARDS ==> Agrees(l, t[i], ideal, InShard(hash, i), now)
  }

  predicate Bounded(l: Limits, t: Table) {
    forall i :: 0 <= i < SHARDS ==> |t[i].buckets| <= l.maxPerShard
  }

  lemma PrunedFits(l: Limits, buckets: map<Ip, Bucket>, now: real)
    ensures |Pruned(l, buckets, now)| <= |buckets|
  {
    var p := Pruned(l, buckets, now);
    assert p.Keys <= buckets.Keys;
    SubsetSize(p.Keys, buckets.Keys);
  }

  lemma {:induction false} SubsetSize(a: set<Ip>, b: set<Ip>)
    requires a <= b
    ensures |a| <= |b|
  {
    if a != {} {
      var x :| x in a;
      SubsetSize(a - {x}, b - {x});
    }
  }

  lemma MeteredBounded(l: Limits, s: Shard, ip: Ip, now: real)
    requires |s.buckets| < l.maxPerShard || (ip in s.buckets && |s.buckets| <= l.maxPerShard)
    ensures |Metered(l, s, ip, now).0.buckets| <= l.maxPerShard
  {
    hide Take;
    var m := Metered(l, s, ip, now).0.buckets;
    assert m.Keys == s.buckets.Keys + {ip};
    if ip in s.buckets { assert m.Keys == s.buckets.Keys; }
  }

  lemma CheckBounded(l: Limits, hash: Ip -> nat, t: Table, ip: Ip, now: real)
    requires Usable(l) && Bounded(l, t)
    ensures Bounded(l, CheckTable(l, hash, t, ip, now).0)
  {
    hide Metered, Pruned;
    var s := t[ShardOf(hash, ip)];
    PrunedFits(l, s.buckets, now);
    if ip in s.buckets || |s.buckets| < l.maxPerShard {
      MeteredBounded(l, s, ip, now);
    } else if |Pruned(l, s.buckets, now)| < l.maxPerShard {
      MeteredBounded(l, Shard(Pruned(l, s.buckets, now), now), ip, now);
    }
  }

  /**
   One call: the bounded table decides as the unbounded one unless the table-full rule lets
   the call through, in which case the unbounded one does not see it; agreement is kept.
   */
  lemma CheckAgrees(l: Limits, hash: Ip -> nat, t: Table, ideal: map<Ip, Bucket>, ip: Ip, before: real, now: real)
    requires Usable(l) && TableAgrees(l, hash, t, ideal, before) && before <= now
    ensures var (u, verdict) := CheckTable(l, hash, t, ip, now);
            var (after, taken) := IdealTake(l, ideal, ip, now);
            (verdict == Unmetered ==> TableAgrees(l, hash, u, ideal, now))
            && (verdict != Unmetered ==> TableAgrees(l, hash, u, after, now) && (verdict == Admitted <==> taken))
  {
    hide Metered, Pruned, IdealTake, Agrees;
    var i := ShardOf(hash, ip);
    forall j | 0 <= j < SHARDS ensures Agrees(l, t[j], ideal, InShard(hash, j), now) {
      AgreesLater(l, t[j], ideal, InShard(hash, j), before, now);
    }
    forall j | 0 <= j < SHARDS && j != i
      ensures Agrees(l, t[j], IdealTake(l, ideal, ip, now).0, InShard(hash, j), now)
    {
      OtherShardAgrees(l, t[j], ideal, InShard(hash, j), ip, now);
    }
    var mine := InShard(hash, i);
    var pruned := Shard(Pruned(l, t[i].buckets, now), now);
    PruneKeepsAgreement(l, t[i], ideal, mine, now, now);
    MeteredAgrees(l, t[i], ideal, mine, ip, now);
    MeteredAgrees(l, pruned, ideal, mine, ip, now);
  }

  // Runs

  datatype Call = Call(ip: Ip, time: real)

  /** The clock does not go back, starting from `since`. */
  predicate Timely(calls: seq<Call>, since: real)
    decreases |calls|
  {
    calls == [] || (since <= calls[0].time && Timely(calls[1..], calls[0].time))
  }

  function Verdicts(l: Limits, hash: Ip -> nat, t: Table, calls: seq<Call>): (vs: seq<Verdict>)
    ensures |vs| == |calls|
    decreases |calls|
  {
    if calls == [] then []
    else
      var (u, v) := CheckTable(l, hash, t, calls[0].ip, calls[0].time);
      [v] + Verdicts(l, hash, u, calls[1..])
  }

  /** What the never-forgetting table decides on the calls it sees. */
  function IdealVerdicts(l: Limits, ideal: map<Ip, Bucket>, calls: seq<Call>, seen: seq<bool>): (vs: seq<bool>)
    requires |seen| == |calls|
    ensures |vs| == |calls|
    decreases |calls|
  {
    if calls == [] then []
    else if !seen[0] then [false] + IdealVerdicts(l, ideal, calls[1..], seen[1..])
    else
      var (after, taken) := IdealTake(l, ideal, calls[0].ip, calls[0].time);
      [taken] + IdealVerdicts(l, after, calls[1..], seen[1..])
  }

  function MeteredCalls(vs: seq<Verdict>): (r: seq<bool>)
    ensures |r| == |vs| && forall i :: 0 <= i < |r| ==> r[i] == (vs[i] != Unmetered)
  {
    seq(|vs|, i requires 0 <= i < |vs| => vs[i] != Unmetered)
  }

  function Admissions(vs: seq<Verdict>): (r: seq<bool>)
    ensures |r| == |vs| && forall i :: 0 <= i < |r| ==> r[i] == (vs[i] == Admitted)
  {
    seq(|vs|, i requires 0 <= i < |vs| => vs[i] == Admitted)
  }

  /**
   Over every run with a nondecreasing clock the pruned, bounded, sharded table makes the
   decision of a never-forgetting token bucket per source on every call not let through by
   the table-full rule.
   */
  lemma {:induction false} DecidesAsUnbounded(l: Limits, hash: Ip -> nat, t: Table, ideal: map<Ip, Bucket>,
                                              calls: seq<Call>, since: real)
    requires Usable(l) && Timely(calls, since) && TableAgrees(l, hash, t, ideal, since)
    ensures var vs := Verdicts(l, hash, t, calls);
            Admissions(vs) == IdealVerdicts(l, ideal, calls, MeteredCalls(vs))
    decreases |calls|
  {
    hide CheckTable, IdealTake, TableAgrees, Verdicts, IdealVerdicts;
    if calls != [] {
      var call := calls[0];
      CheckAgrees(l, hash, t, ideal, call.ip, since, call.time);
      var (u, v) := CheckTable(l, hash, t, call.ip, call.time);
      var next := if v == Unmetered then ideal else IdealTake(l, ideal, call.ip, call.time).0;
      DecidesAsUnbounded(l, hash, u, next, calls[1..], call.time);
      VerdictsFirst(l, hash, t, calls);
      MarksFirst(v, Verdicts(l, hash, u, calls[1..]));
      IdealFirst(l, ideal, calls, MeteredCalls(Verdicts(l, hash, t, calls)));
    }
  }

  lemma VerdictsFirst(l: Limits, hash: Ip -> nat, t: Table, calls: seq<Call>)
    requires calls != []
    ensures var (u, v) := CheckTable(l, hash, t, calls[0].ip, calls[0].time);
            Verdicts(l, hash, t, calls) == [v] + Verdicts(l, hash, u, calls[1..])
  {
    hide CheckTable;
  }

  lemma MarksFirst(v: Verdict, rest: seq<Verdict>)
    ensures MeteredCalls([v] + rest) == [v != Unmetered] + MeteredCalls(rest)
    ensures Admissions([v] + rest) == [v == Admitted] + Admissions(rest)
  {}

  lemma IdealFirst(l: Limits, ideal: map<Ip, Bucket>, calls: seq<Call>, seen: seq<bool>)
    requires calls != [] && |seen| == |calls|
    ensures var (after, taken) := IdealTake(l, ideal, calls[0].ip, calls[0].time);
            IdealVerdicts(l, ideal, calls, seen)
            == [seen[0] && taken] + IdealVerdicts(l, if seen[0] then after else ideal, calls[1..], seen[1..])
  {
    hide IdealTake;
  }

  /** The table after the calls. */
  function After(l: Limits, hash: Ip -> nat, t: Table, calls: seq<Call>): Table
    decreases |calls|
  {
    if calls == [] then t
    else After(l, hash, CheckTable(l, hash, t, calls[0].ip, calls[0].time).0, calls[1..])
  }

  function Tracked(t: seq<Shard>): nat {
    if t == [] then 0 else |t[0].buckets| + Tracked(t[1..])
  }

  lemma {:induction false} TrackedFits(t: seq<Shard>, n: nat)
    requires forall i :: 0 <= i < |t| ==> |t[i].buckets| <= n
    ensures Tracked(t) <= n * |t|
  {
    if t != [] {
      TrackedFits(t[1..], n);
      assert n * |t| == n + n * |t[1..]|;
    }
  }

  lemma {:induction false} RunBounded(l: Limits, hash: Ip -> nat, t: Table, calls: seq<Call>)
    requires Usable(l) && Bounded(l, t)
    ensures Bounded(l, After(l, hash, t, calls))
    decreases |calls|
  {
    hide CheckTable;
    if calls != [] {
      CheckBounded(l, hash, t, calls[0].ip, calls[0].time);
      RunBounded(l, hash, CheckTable(l, hash, t, calls[0].ip, calls[0].time).0, calls[1..]);
    }
  }

  function MaxPerShard(maxTracked: nat): nat {
    if maxTracked / SHARDS >= 1 then maxTracked / SHARDS else 1
  }

  /** Tracked sources never exceed the configured number, or 64 when that is less. */
  lemma TableStaysBounded(maxTracked: nat, rate: real, hash: Ip -> nat, t: Table, calls: seq<Call>)
    requires rate > 0.0 && Bounded(Limits(rate, MaxPerShard(maxTracked)), t)
    ensures Tracked(After(Limits(rate, MaxPerShard(maxTracked)), hash, t, calls))
            <= if maxTracked >= SHARDS then maxTracked else SHARDS
  {
    var l := Limits(rate, MaxPerShard(maxTracked));
    RunBounded(l, hash, t, calls);
    TrackedFits(After(l, hash, t, calls), l.maxPerShard);
  }

  // How much one source gets

  /** Tokens the source would have at `now`. */
  function Level(l: Limits, ideal: map<Ip, Bucket>, ip: Ip, now: real): real {
    Refilled(l, BucketOf(l, ideal, ip, now), now).tokens
  }

  function AdmittedTo(ip: Ip, calls: seq<Call>, taken: seq<bool>): nat
    requires |calls| == |taken|
    decreases |calls|
  {
    if calls == [] then 0
    else (if calls[0].ip == ip && taken[0] then 1 else 0) + AdmittedTo(ip, calls[1..], taken[1..])
  }

  function LastTime(calls: seq<Call>, since: real): real {
    if calls == [] then since else calls[|calls| - 1].time
  }

  /** Tokens that accrue between two instants. */
  function Earned(l: Limits, from: real, to: real): real {
    l.rate * (to - from)
  }

  ghost predicate AllSound(l: Limits, ideal: map<Ip, Bucket>, now: real) {
    forall ip :: ip in ideal ==> Sound(l, ideal[ip], now)
  }

  lemma LevelGrows(l: Limits, ideal: map<Ip, Bucket>, ip: Ip, now: real, later: real)
    requires Usable(l) && AllSound(l, ideal, now) && now <= later
    ensures Level(l, ideal, ip, later) <= Level(l, ideal, ip, now) + Earned(l, now, later)
    ensures Level(l, ideal, ip, now) <= l.rate && 0.0 <= Level(l, ideal, ip, now)
  {
    hide Refilled, Earned;
    if ip in ideal {
      BucketGrows(l, ideal[ip], now, later);
    } else {
      FreshIsFull(l, now);
      FreshIsFull(l, later);
      EarnedPositive(l, now, later);
    }
  }

  lemma BucketGrows(l: Limits, b: Bucket, now: real, later: real)
    requires Usable(l) && Sound(l, b, now) && now <= later
    ensures Refilled(l, b, later).tokens <= Refilled(l, b, now).tokens + Earned(l, now, later)
    ensures 0.0 <= Refilled(l, b, now).tokens <= l.rate
  {
    RefillIsEarned(l, b, now);
    RefillIsEarned(l, b, later);
    EarnedAdds(l, b.lastRefill, now, later);
    EarnedPositive(l, b.lastRefill, now);
    EarnedPositive(l, now, later);
    hide Earned;
  }

  lemma RefillIsEarned(l: Limits, b: Bucket, now: real)
    requires b.lastRefill <= now
    ensures Refilled(l, b, now).tokens == Min(b.tokens + Earned(l, b.lastRefill, now), l.rate)
  {}

  lemma EarnedPositive(l: Limits, from: real, to: real)
    requires Usable(l) && from <= to
    ensures Earned(l, from, to) >= 0.0
  {}

  lemma FreshIsFull(l: Limits, now: real)
    ensures Refilled(l, Fresh(l, now), now).tokens == l.rate
  {
    assert Elapsed(now, now) * l.rate == 0.0;
  }

  lemma TakeLowersLevel(l: Limits, ideal: map<Ip, Bucket>, ip: Ip, now: real, other: Ip)
    requires Usable(l) && AllSound(l, ideal, now)
    ensures var (after, taken) := IdealTake(l, ideal, ip, now);
            AllSound(l, after, now)
            && Level(l, after, other, now)
               == Level(l, ideal, other, now) - if other == ip && taken then 1.0 else 0.0
  {
    var b := BucketOf(l, ideal, ip, now);
    TakeSound(l, b, now);
    var after := Take(l, b, now).0;
    assert Elapsed(now, after.lastRefill) * l.rate == 0.0;
    assert Elapsed(now, b.lastRefill) * l.rate >= 0.0;
  }

  /** Between `since` and the last call a source is admitted at most its level plus rate times the time passed. */
  lemma {:induction false} AdmittedAtMost(l: Limits, ideal: map<Ip, Bucket>, calls: seq<Call>, seen: seq<bool>, ip: Ip,
                                          since: real)
    requires Usable(l) && Timely(calls, since) && |seen| == |calls| && AllSound(l, ideal, since)
    ensures AdmittedTo(ip, calls, IdealVerdicts(l, ideal, calls, seen)) as real
            <= Level(l, ideal, ip, since) + Earned(l, since, LastTime(calls, since))
    decreases |calls|
  {
    hide Level, IdealTake, Sound, AllSound, IdealVerdicts, Earned;
    LevelGrows(l, ideal, ip, since, since);
    EarnedAdds(l, since, since, since);
    if calls != [] {
      var now := calls[0].time;
      SoundLater(l, ideal, since, now);
      LevelGrows(l, ideal, ip, since, now);
      TakeLowersLevel(l, ideal, calls[0].ip, now, ip);
      var (after, taken) := IdealTake(l, ideal, calls[0].ip, now);
      var next := if seen[0] then after else ideal;
      AdmittedAtMost(l, next, calls[1..], seen[1..], ip, now);
      IdealFirst(l, ideal, calls, seen);
      AdmittedFirst(ip, calls, seen[0] && taken, IdealVerdicts(l, next, calls[1..], seen[1..]));
      assert LastTime(calls[1..], now) == LastTime(calls, since);
      EarnedAdds(l, since, now, LastTime(calls, since));
    }
  }

  lemma AdmittedFirst(ip: Ip, calls: seq<Call>, first: bool, rest: seq<bool>)
    requires |calls| == |rest| + 1
    ensures AdmittedTo(ip, calls, [first] + rest)
            == (if calls[0].ip == ip && first then 1 else 0) + AdmittedTo(ip, calls[1..], rest)
  {
    assert ([first] + rest)[1..] == rest;
  }

  lemma EarnedAdds(l: Limits, a: real, b: real, c: real)
    ensures Earned(l, a, b) + Earned(l, b, c) == Earned(l, a, c) && Earned(l, a, a) == 0.0
  {}

  lemma SoundLater(l: Limits, ideal: map<Ip, Bucket>, now: real, later: real)
    requires Usable(l) && AllSound(l, ideal, now) && now <= later
    ensures AllSound(l, ideal, later)
  {
    forall ip | ip in ideal ensures Sound(l, ideal[ip], later) {
      IdleLater(l, ideal[ip], now, later);
    }
  }

  /**
   The promise of a token bucket, for the bounded table: in any stretch of a run, from a call
   at or after `since` to the last, the metered calls admitted to one source number at most
   the capacity plus rate times the time between. `t` and `ideal` are whatever the earlier
   part of the run left.
   */
  lemma SourceGetsAtMost(l: Limits, hash: Ip -> nat, t: Table, ideal: map<Ip, Bucket>, calls: seq<Call>, ip: Ip,
      since: real)
    requires Usable(l) && Timely(calls, since) && TableAgrees(l, hash, t, ideal, since)
    ensures AdmittedTo(ip, calls, Admissions(Verdicts(l, hash, t, calls))) as real
            <= l.rate + Earned(l, since, LastTime(calls, since))
  {
    hide Level, Verdicts, TableAgrees, Earned, AllSound;
    DecidesAsUnbounded(l, hash, t, ideal, calls, since);
    var vs := Verdicts(l, hash, t, calls);
    AgreementIsSound(l, hash, t, ideal, since);
    AdmittedAtMost(l, ideal, calls, MeteredCalls(vs), ip, since);
    LevelGrows(l, ideal, ip, since, since);
  }

  lemma AgreementIsSound(l: Limits, hash: Ip -> nat, t: Table, ideal: map<Ip, Bucket>, now: real)
    requires TableAgrees(l, hash, t, ideal, now)
    ensures AllSound(l, ideal, now)
  {
    assert Agrees(l, t[0], ideal, InShard(hash, 0), now);
  }

  /** A new limiter agrees with the empty unbounded table. */
  lemma NewTableAgrees(l: Limits, hash: Ip -> nat, now: real)
    ensures TableAgrees(l, hash, seq(64, _ => Shard(map[], now)), map[], now)
    ensures Bounded(l, seq(64, _ => Shard(map[], now)))
  {}

  lemma {:induction false} RunAgrees(l: Limits, hash: Ip -> nat, t: Table, ideal: map<Ip, Bucket>, calls: seq<Call>,
      since: real)
    returns (after: map<Ip, Bucket>)
    requires Usable(l) && Timely(calls, since) && TableAgrees(l, hash, t, ideal, since)
    ensures TableAgrees(l, hash, After(l, hash, t, calls), after, LastTime(calls, since))
    decreases |calls|
  {
    hide CheckTable, IdealTake, TableAgrees;
    if calls == [] {
      return ideal;
    }
    var call := calls[0];
    CheckAgrees(l, hash, t, ideal, call.ip, since, call.time);
    var (u, v) := CheckTable(l, hash, t, call.ip, call.time);
    var next := if v == Unmetered then ideal else IdealTake(l, ideal, call.ip, call.time).0;
    after := RunAgrees(l, hash, u, next, calls[1..], call.time);
  }

  lemma {:induction false} VerdictsSplit(l: Limits, hash: Ip -> nat, t: Table, a: seq<Call>, b: seq<Call>)
    ensures Verdicts(l, hash, t, a + b) == Verdicts(l, hash, t, a) + Verdicts(l, hash, After(l, hash, t, a), b)
    decreases |a|
  {
    hide CheckTable;
    if a == [] {
      assert a + b == b;
      assert Verdicts(l, hash, t, a) == [];
    } else {
      assert (a + b)[1..] == a[1..] + b;
      VerdictsSplit(l, hash, CheckTable(l, hash, t, a[0].ip, a[0].time).0, a[1..], b);
    }
  }

  lemma {:induction false} TimelySplit(a: seq<Call>, b: seq<Call>, since: real)
    requires Timely(a + b, since)
    ensures Timely(a, since) && Timely(b, LastTime(a, since))
    decreases |a|
  {
    if a == [] {
      assert a + b == b;
    } else {
      assert (a + b)[1..] == a[1..] + b;
      TimelySplit(a[1..], b, a[0].time);
      assert LastTime(a[1..], a[0].time) == LastTime(a, since);
    }
  }

  function NewTable(now: real): Table {
    seq(64, _ => Shard(map[], now))
  }

  /**
   From a new limiter, after any earlier calls, over any stretch of further calls: the calls
   of one source that a bucket admits number at most capacity + rate * T, T being the time
   from the first to the last call of the stretch.
   */
  lemma AnyStretchIsLimited(l: Limits, hash: Ip -> nat, start: real, earlier: seq<Call>, stretch: seq<Call>, ip: Ip)
    requires Usable(l) && Timely(earlier + stretch, start) && stretch != []
    ensures var vs := Verdicts(l, hash, NewTable(start), earlier + stretch)[|earlier|..];
            AdmittedTo(ip, stretch, Admissions(vs)) as real
            <= l.rate + Earned(l, stretch[0].time, stretch[|stretch| - 1].time)
  {
    hide Verdicts, TableAgrees, After;
    var t := NewTable(start);
    NewTableAgrees(l, hash, start);
    TimelySplit(earlier, stretch, start);
    var ideal := RunAgrees(l, hash, t, map[], earlier, start);
    var u := After(l, hash, t, earlier);
    var since := LastTime(earlier, start);
    TableAgreesLater(l, hash, u, ideal, since, stretch[0].time);
    SourceGetsAtMost(l, hash, u, ideal, stretch, ip, stretch[0].time);
    VerdictsSplit(l, hash, t, earlier, stretch);
    assert Verdicts(l, hash, t, earlier + stretch)[|earlier|..] == Verdicts(l, hash, u, stretch);
  }

  lemma TableAgreesLater(l: Limits, hash: Ip -> nat, t: Table, ideal: map<Ip, Bucket>, now: real, later: real)
    requires Usable(l) && TableAgrees(l, hash, t, ideal, now) && now <= later
    ensures TableAgrees(l, hash, t, ideal, later)
  {
    hide Agrees;
    forall i | 0 <= i < SHARDS ensures Agrees(l, t[i], ideal, InShard(hash, i), later) {
      AgreesLater(l, t[i], ideal, InShard(hash, i), now, later);
    }
  }

  // The global cap

  datatype Global = Global(window: nat, count: nat)

  function WindowOf(started: real, now: real): nat {
    Elapsed(now, started).Floor
  }

  /** `check_global` with a limit that is not zero. */
  function CheckWindow(limit: nat, g: Global, window: nat): (Global, bool) {
    var count := if g.window != window then 0 else g.count;
    (Global(window, count + 1), count < limit)
  }

  function WindowVerdicts(limit: nat, g: Global, windows: seq<nat>): (vs: seq<bool>)
    ensures |vs| == |windows|
    decreases |windows|
  {
    if windows == [] then []
    else
      var (h, v) := CheckWindow(limit, g, windows[0]);
      [v] + WindowVerdicts(limit, h, windows[1..])
  }

  predicate Climbs(windows: seq<nat>, from: nat)
    decreases |windows|
  {
    windows == [] || (from <= windows[0] && Climbs(windows[1..], windows[0]))
  }

  function AdmittedInWindow(windows: seq<nat>, vs: seq<bool>, w: nat): nat
    requires |windows| == |vs|
    decreases |windows|
  {
    if windows == [] then 0
    else (if windows[0] == w && vs[0] then 1 else 0) + AdmittedInWindow(windows[1..], vs[1..], w)
  }

  /** What is left of the limit in window `w`. */
  function Left(limit: nat, g: Global, w: nat): nat {
    if g.window != w then limit else if g.count < limit then limit - g.count else 0
  }

  /** At most `limit` queries are admitted in any whole-second window. */
  lemma {:induction false} WindowGetsAtMost(limit: nat, g: Global, windows: seq<nat>, w: nat)
    requires Climbs(windows, g.window)
    ensures AdmittedInWindow(windows, WindowVerdicts(limit, g, windows), w)
            <= if w < g.window then 0 else Left(limit, g, w)
    decreases |windows|
  {
    if windows != [] {
      var (h, v) := CheckWindow(limit, g, windows[0]);
      WindowGetsAtMost(limit, h, windows[1..], w);
      assert WindowVerdicts(limit, g, windows)[1..] == WindowVerdicts(limit, h, windows[1..]);
    }
  }

  function WindowsOf(started: real, times: seq<real>): (ws: seq<nat>)
    ensures |ws| == |times| && forall i :: 0 <= i < |ws| ==> ws[i] == WindowOf(started, times[i])
  {
    seq(|times|, i requires 0 <= i < |times| => WindowOf(started, times[i]))
  }

  predicate Ascends(times: seq<real>) {
    forall i, j :: 0 <= i <= j < |times| ==> times[i] <= times[j]
  }

  function CountTrue(vs: seq<bool>): nat {
    if vs == [] then 0 else (if vs[0] then 1 else 0) + CountTrue(vs[1..])
  }

  lemma {:induction false} TwoWindowsCoverAll(windows: seq<nat>, vs: seq<bool>, w: nat)
    requires |windows| == |vs| && forall i :: 0 <= i < |windows| ==> windows[i] == w || windows[i] == w + 1
    ensures CountTrue(vs) == AdmittedInWindow(windows, vs, w) + AdmittedInWindow(windows, vs, w + 1)
    decreases |windows|
  {
    if windows != [] {
      TwoWindowsCoverAll(windows[1..], vs[1..], w);
    }
  }

  lemma {:induction false} WindowsClimb(started: real, times: seq<real>, from: nat)
    requires Ascends(times) && (times != [] ==> from <= WindowOf(started, times[0]))
    ensures Climbs(WindowsOf(started, times), from)
    decreases |times|
  {
    if times != [] {
      assert WindowsOf(started, times)[1..] == WindowsOf(started, times[1..]);
      if |times| > 1 {
        assert times[0] <= times[1];
        FloorMonotone(Elapsed(times[0], started), Elapsed(times[1], started));
      }
      WindowsClimb(started, times[1..], WindowOf(started, times[0]));
    }
  }

  lemma FloorMonotone(a: real, b: real)
    requires a <= b
    ensures a.Floor <= b.Floor
    ensures b < a + 1.0 ==> b.Floor <= a.Floor + 1
  {}

  /**
   In any stretch of calls that takes less than a second the global cap admits at most twice
   its limit: the stretch meets at most two windows. `g` is what the earlier calls left.
   */
  lemma ShortStretchGetsTwice(limit: nat, started: real, g: Global, times: seq<real>)
    requires Ascends(times) && times != [] && times[|times| - 1] < times[0] + 1.0
    requires g.window <= WindowOf(started, times[0])
    ensures CountTrue(WindowVerdicts(limit, g, WindowsOf(started, times))) <= 2 * limit
  {
    var windows := WindowsOf(started, times);
    var w := windows[0];
    forall i | 0 <= i < |windows| ensures windows[i] == w || windows[i] == w + 1 {
      assert times[0] <= times[i] <= times[|times| - 1];
      FloorMonotone(Elapsed(times[0], started), Elapsed(times[i], started));
    }
    WindowsClimb(started, times, g.window);
    TwoWindowsCoverAll(windows, WindowVerdicts(limit, g, windows), w);
    WindowGetsAtMost(limit, g, windows, w);
    WindowGetsAtMost(limit, g, windows, w + 1);
  }

  // Both limits together

  /** What a limiter remembers. */
  datatype State = State(shards: Table, global: Global)

  /** `check`: the source's limit first, and the global cap only for what it lets through. */
  function CheckBoth(l: Limits, hash: Ip -> nat, limit: nat, started: real, s: State, call: Call): (State, bool) {
    var (t, v) := CheckTable(l, hash, s.shards, call.ip, call.time);
    var shards := if l.rate <= 0.0 then s.shards else t;
    if l.rate > 0.0 && v == Refused then (State(shards, s.global), false)
    else if limit == 0 then (State(shards, s.global), true)
    else
      var (g, passed) := CheckWindow(limit, s.global, WindowOf(started, call.time));
      (State(shards, g), passed)
  }

  function Allowed(l: Limits, hash: Ip -> nat, limit: nat, started: real, s: State, calls: seq<Call>): (vs: seq<bool>)
    ensures |vs| == |calls|
    decreases |calls|
  {
    if calls == [] then []
    else
      var (t, v) := CheckBoth(l, hash, limit, started, s, calls[0]);
      [v] + Allowed(l, hash, limit, started, t, calls[1..])
  }

  function Times(calls: seq<Call>): (ts: seq<real>)
    ensures |ts| == |calls| && forall i :: 0 <= i < |ts| ==> ts[i] == calls[i].time
  {
    seq(|calls|, i requires 0 <= i < |calls| => calls[i].time)
  }

  function CallWindows(started: real, calls: seq<Call>): (ws: seq<nat>)
    ensures |ws| == |calls| && forall i :: 0 <= i < |ws| ==> ws[i] == WindowOf(started, calls[i].time)
  {
    WindowsOf(started, Times(calls))
  }

  /** Whatever the sources' limit refuses on the way, a window admits no more than was left of it. */
  lemma {:induction false} RunKeepsLeft(l: Limits, hash: Ip -> nat, limit: nat, started: real, s: State,
                                        calls: seq<Call>, since: real, w: nat)
    requires limit > 0 && Timely(calls, since) && s.global.window <= WindowOf(started, since)
    ensures AdmittedInWindow(CallWindows(started, calls), Allowed(l, hash, limit, started, s, calls), w)
            <= if w < s.global.window then 0 else Left(limit, s.global, w)
    decreases |calls|
  {
    hide CheckTable, WindowOf;
    if calls != [] {
      var (t, v) := CheckBoth(l, hash, limit, started, s, calls[0]);
      WindowGrows(started, since, calls[0].time);
      RunKeepsLeft(l, hash, limit, started, t, calls[1..], calls[0].time, w);
      assert CallWindows(started, calls)[1..] == CallWindows(started, calls[1..]);
      assert Allowed(l, hash, limit, started, s, calls)[1..] == Allowed(l, hash, limit, started, t, calls[1..]);
    }
  }

  lemma WindowGrows(started: real, from: real, to: real)
    requires from <= to
    ensures WindowOf(started, from) <= WindowOf(started, to)
    ensures to < from + 1.0 ==> WindowOf(started, to) <= WindowOf(started, from) + 1
  {
    FloorMonotone(Elapsed(from, started), Elapsed(to, started));
  }

  /** Over every run of a new limiter at most `limit` calls of all sources together are allowed in any whole second. */
  lemma EverySecondIsCapped(l: Limits, hash: Ip -> nat, limit: nat, started: real, calls: seq<Call>, w: nat)
    requires limit > 0 && Timely(calls, started)
    ensures AdmittedInWindow(CallWindows(started, calls),
                             Allowed(l, hash, limit, started, State(NewTable(started), Global(0, 0)), calls), w)
            <= limit
  {
    RunKeepsLeft(l, hash, limit, started, State(NewTable(started), Global(0, 0)), calls, started, w);
  }

  lemma {:induction false} AdmittedSplit(windows: seq<nat>, vs: seq<bool>, k: nat, w: nat)
    requires |windows| == |vs| && k <= |vs|
    ensures AdmittedInWindow(windows, vs, w)
            == AdmittedInWindow(windows[..k], vs[..k], w) + AdmittedInWindow(windows[k..], vs[k..], w)
    decreases k
  {
    if k == 0 {
      assert windows[0..] == windows && vs[0..] == vs;
    } else {
      AdmittedSplit(windows[1..], vs[1..], k - 1, w);
      assert windows[..k][1..] == windows[1..][..k - 1] && vs[..k][1..] == vs[1..][..k - 1];
      assert windows[1..][k - 1..] == windows[k..] && vs[1..][k - 1..] == vs[k..];
    }
  }

  lemma StretchWithin(windows: seq<nat>, vs: seq<bool>, i: nat, j: nat, w: nat)
    requires |windows| == |vs| && i <= j <= |vs|
    ensures AdmittedInWindow(windows[i..j], vs[i..j], w) <= AdmittedInWindow(windows, vs, w)
  {
    AdmittedSplit(windows, vs, j, w);
    AdmittedSplit(windows[..j], vs[..j], i, w);
    assert windows[..j][i..] == windows[i..j] && vs[..j][i..] == vs[i..j];
  }

  lemma {:induction false} TimesAscend(calls: seq<Call>, since: real, i: nat, j: nat)
    requires Timely(calls, since) && i <= j < |calls|
    ensures since <= calls[i].time <= calls[j].time
    decreases |calls|
  {
    if j > 0 {
      TimesAscend(calls[1..], calls[0].time, if i == 0 then 0 else i - 1, j - 1);
    }
  }

  /** And at most twice that in any stretch of the run that takes less than a second. */
  lemma ShortStretchIsCapped(l: Limits, hash: Ip -> nat, limit: nat, started: real, calls: seq<Call>, i: nat, j: nat)
    requires limit > 0 && Timely(calls, started) && i < j <= |calls| && calls[j - 1].time < calls[i].time + 1.0
    ensures CountTrue(Allowed(l, hash, limit, started, State(NewTable(started), Global(0, 0)), calls)[i..j])
            <= 2 * limit
  {
    hide Allowed, AdmittedInWindow, WindowOf;
    var vs := Allowed(l, hash, limit, started, State(NewTable(started), Global(0, 0)), calls);
    var windows := CallWindows(started, calls);
    var w := windows[i];
    forall k | 0 <= k < j - i ensures windows[i..j][k] == w || windows[i..j][k] == w + 1 {
      TimesAscend(calls, started, i, i + k);
      TimesAscend(calls, started, i + k, j - 1);
      WindowGrows(started, calls[i].time, calls[i + k].time);
    }
    TwoWindowsCoverAll(windows[i..j], vs[i..j], w);
    StretchWithin(windows, vs, i, j, w);
    StretchWithin(windows, vs, i, j, w + 1);
    EverySecondIsCapped(l, hash, limit, started, calls, w);
    EverySecondIsCapped(l, hash, limit, started, calls, w + 1);
  }

  // The limiter

  /** Refill, then take a token if there is one. */
  method Draw(l: Limits, full: Bucket, now: real) returns (bucket: Bucket, allowed: bool)
    ensures (bucket, allowed) == Take(l, full, now)
  {
    var elapsed := Elapsed(now, full.lastRefill);
    bucket := full.(tokens := Min(full.tokens + elapsed * l.rate, l.rate));
    bucket := bucket.(lastRefill := now);
    if bucket.tokens >= 1.0 {
      bucket := bucket.(tokens := bucket.tokens - 1.0);
      allowed := true;
    } else {
      allowed := false;
    }
  }

  class RateLimiter {
    const limits: Limits
    const hash: Ip -> nat
    const globalLimit: nat
    const started: real
    var shards: Table
    var global: Global

    constructor (queriesPerSecond: nat, globalPerSecond: nat, maxTracked: nat, hash: Ip -> nat, now: real)
      ensures limits == Limits(queriesPerSecond as real, MaxPerShard(maxTracked)) && this.hash == hash
      ensures globalLimit == globalPerSecond && started == now
      ensures shards == NewTable(now) && global == Global(0, 0)
    {
      limits := Limits(queriesPerSecond as real, MaxPerShard(maxTracked));
      this.hash := hash;
      globalLimit := globalPerSecond;
      started := now;
      shards := seq(64, _ => Shard(map[], now));
      global := Global(0, 0);
    }

    method Check(ip: Ip, now: real) returns (allowed: bool)
      modifies this
      ensures (State(shards, global), allowed)
              == CheckBoth(limits, hash, globalLimit, started, State(old(shards), old(global)), Call(ip, now))
    {
      var source := CheckSource(ip, now);
      if !source { return false; }
      allowed := CheckGlobal(now);
    }

    method CheckGlobal(now: real) returns (allowed: bool)
      modifies this`global
      ensures globalLimit == 0 ==> allowed && global == old(global)
      ensures globalLimit != 0 ==> (global, allowed) == CheckWindow(globalLimit, old(global), WindowOf(started, now))
    {
      if globalLimit == 0 { return true; }
      var window := Elapsed(now, started).Floor;
      var previous := global.window;
      global := global.(window := window);
      if previous != window { global := global.(count := 0); }
      var count := global.count;
      global := global.(count := count + 1);
      return count < globalLimit;
    }

    method CheckSource(ip: Ip, now: real) returns (allowed: bool)
      modifies this`shards
      ensures limits.rate <= 0.0 ==> allowed && shards == old(shards)
      ensures limits.rate > 0.0 ==>
                var (t, v) := CheckTable(limits, hash, old(shards), ip, now);
                shards == t && (allowed <==> v != Refused)
    {
      hide Take, Pruned;
      if limits.rate <= 0.0 { return true; }
      var index := hash(ip) % SHARDS;
      var shard := shards[index];
      if ip !in shard.buckets && |shard.buckets| >= limits.maxPerShard {
        if Elapsed(now, shard.lastPrune).Floor < 1 {
          assert shards[index := shard] == shards;
          return true;
        }
        shard := shard.(lastPrune := now);
        shard := shard.(buckets := Pruned(limits, shard.buckets, now));
        shards := shards[index := shard];
        if |shard.buckets| >= limits.maxPerShard { return true; }
      }
      var bucket := if ip in shard.buckets then shard.buckets[ip] else Bucket(limits.rate, now);
      bucket, allowed := Draw(limits, bucket, now);
      shards := shards[index := shard.(buckets := shard.buckets[ip := bucket])];
    }
  }
}
