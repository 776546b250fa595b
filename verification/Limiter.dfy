/** The per-peer request limiter: token buckets in a table that is bounded by evicting idle peers.
    Time is in seconds, as a real; so are tokens. */
module Limiter {
  import opened Sets

  const RatePerSecond := 100.0
  const RateBurst := 200.0
  const MaxPeers := 4096
  const PeerIdle := 600.0

  datatype Bucket = Bucket(tokens: real, updated: real)

  type Peers = map<string, Bucket>

  function Min(a: real, b: real): real {
    if a <= b then a else b
  }

  function Refilled(b: Bucket, now: real): real {
    Min(RateBurst, b.tokens + (now - b.updated) * RatePerSecond)
  }

  function Charge(b: Bucket, now: real): Bucket {
    var t := Refilled(b, now);
    Bucket(if t >= 1.0 then t - 1.0 else t, now)
  }

  function BucketOf(m: Peers, peer: string, now: real): Bucket {
    if peer in m then m[peer] else Bucket(RateBurst, now)
  }

  predicate Idle(b: Bucket, now: real) {
    now - b.updated >= PeerIdle
  }

  function Active(m: Peers, now: real): Peers {
    map k | k in m && !Idle(m[k], now) :: m[k]
  }

  /** A call refused for want of a slot: a new peer, and a table full of peers that are not idle. */
  predicate Crowded(m: Peers, peer: string, now: real) {
    peer !in m && |m| >= MaxPeers && |Active(m, now)| >= MaxPeers
  }

  /** The table a call works on: idle peers are dropped only to make room for a new one. */
  function Swept(m: Peers, peer: string, now: real): Peers {
    if peer !in m && |m| >= MaxPeers then Active(m, now) else m
  }

  function Step(m: Peers, peer: string, now: real): (Peers, bool) {
    var kept := Swept(m, peer, now);
    if Crowded(m, peer, now) then (kept, false)
    else
      var b := BucketOf(m, peer, now);
      (kept[peer := Charge(b, now)], Refilled(b, now) >= 1.0)
  }

  class Limiter {
    var peers: Peers

    constructor ()
      ensures peers == map[]
    {
      peers := map[];
    }

    method Allow(peer: string, now: real) returns (allowed: bool)
      modifies this
      ensures peers == Step(old(peers), peer, now).0
      ensures allowed == Step(old(peers), peer, now).1
    {
      var b := Bucket(RateBurst, now);
      if peer in peers {
        b := peers[peer];
      } else if |peers| >= MaxPeers {
        DropIdle(now);
        if |peers| >= MaxPeers {
          return false;
        }
      }
      b := Bucket(Min(RateBurst, b.tokens + (now - b.updated) * RatePerSecond), now);
      allowed := b.tokens >= 1.0;
      if allowed {
        b := b.(tokens := b.tokens - 1.0);
      }
      peers := peers[peer := b];
    }

    /** The eviction loop of `allow`. */
    method DropIdle(now: real)
      modifies this
      ensures peers == Active(old(peers), now)
    {
      var left := peers.Keys;
      while left != {}
        invariant left <= old(peers).Keys
        invariant forall k :: k in peers <==> k in old(peers) && (k in left || !Idle(old(peers)[k], now))
        invariant forall k :: k in peers ==> peers[k] == old(peers)[k]
        decreases left
      {
        var key :| key in left;
        left := left - {key};
        if Idle(peers[key], now) {
          peers := peers - {key};
        }
      }
    }
  }

  // ---------- the level of a peer ----------

  /** Every bucket holds between none and a full burst, and was last touched by time `now`. */
  ghost predicate Sane(m: Peers, now: real) {
    forall p :: p in m ==> 0.0 <= m[p].tokens <= RateBurst && m[p].updated <= now
  }

  /** What a peer could spend at `now`; a peer not in the table has a full burst. */
  function Level(m: Peers, p: string, now: real): real {
    Refilled(BucketOf(m, p, now), now)
  }

  lemma {:induction false} LevelGrows(m: Peers, p: string, now: real, later: real)
    requires Sane(m, now) && now <= later
    ensures Sane(m, later) && 0.0 <= Level(m, p, now) <= RateBurst
    ensures Level(m, p, later) == Min(RateBurst, Level(m, p, now) + (later - now) * RatePerSecond)
  {
  }

  /** Dropping idle peers is invisible: whoever is dropped had refilled to a full burst. */
  lemma {:induction false} DroppingIsInvisible(m: Peers, now: real, p: string)
    requires Sane(m, now)
    ensures Sane(Active(m, now), now) && Level(Active(m, now), p, now) == Level(m, p, now)
  {
    if p in m && Idle(m[p], now) {
      assert (now - m[p].updated) * RatePerSecond >= PeerIdle * RatePerSecond;
    }
  }

  lemma {:induction false} ChargeByLevel(m: Peers, peer: string, now: real, p: string)
    requires Sane(m, now)
    ensures var m' := m[peer := Charge(BucketOf(m, peer, now), now)];
            && Sane(m', now)
            && Level(m', p, now) == Level(m, p, now) - (if p == peer && Level(m, peer, now) >= 1.0 then 1.0 else 0.0)
  {
  }

  /** A call is decided by the level of its peer, and takes one token exactly when admitted; no other
      peer notices. */
  lemma {:induction false} StepByLevel(m: Peers, peer: string, now: real, p: string)
    requires Sane(m, now)
    ensures var (m', ok) := Step(m, peer, now);
            && Sane(m', now)
            && ok == (!Crowded(m, peer, now) && Level(m, peer, now) >= 1.0)
            && Level(m', p, now) == Level(m, p, now) - (if p == peer && ok then 1.0 else 0.0)
  {
    DroppingIsInvisible(m, now, p);
  }

  lemma {:induction false} StepBounded(m: Peers, peer: string, now: real)
    requires |m| <= MaxPeers
    ensures |Step(m, peer, now).0| <= MaxPeers
  {
    if peer in m {
      assert m[peer := Charge(m[peer], now)].Keys == m.Keys;
      assert |m[peer := Charge(m[peer], now)]| == |m[peer := Charge(m[peer], now)].Keys| == |m.Keys| == |m|;
    } else if |m| >= MaxPeers {
      FewerKeys(m, Active(m, now));
    }
  }

  // ---------- runs ----------

  datatype Call = Call(peer: string, now: real)

  ghost predicate Ordered(calls: seq<Call>) {
    forall i, j :: 0 <= i < j < |calls| ==> calls[i].now <= calls[j].now
  }

  /** The table after the calls. */
  function Table(calls: seq<Call>): Peers {
    if calls == [] then map[]
    else var c := calls[|calls| - 1]; Step(Table(calls[..|calls| - 1]), c.peer, c.now).0
  }

  predicate Admitted(calls: seq<Call>, i: nat)
    requires i < |calls|
  {
    Step(Table(calls[..i]), calls[i].peer, calls[i].now).1
  }

  predicate TurnedAway(calls: seq<Call>, i: nat)
    requires i < |calls|
  {
    Crowded(Table(calls[..i]), calls[i].peer, calls[i].now)
  }

  /** The reference: one bucket per peer, never dropped, however many peers there are. It does not see
      the calls that were turned away for want of a slot. */
  function Ideal(calls: seq<Call>): Peers {
    if calls == [] then map[]
    else
      var n := |calls| - 1;
      var m := Ideal(calls[..n]);
      if TurnedAway(calls, n) then m
      else m[calls[n].peer := Charge(BucketOf(m, calls[n].peer, calls[n].now), calls[n].now)]
  }

  predicate IdeallyAdmitted(calls: seq<Call>, i: nat)
    requires i < |calls|
  {
    Level(Ideal(calls[..i]), calls[i].peer, calls[i].now) >= 1.0
  }

  /** The clock at call `i`, or at the last call. */
  function Clock(calls: seq<Call>): real {
    if calls == [] then 0.0 else calls[|calls| - 1].now
  }

  /** At every moment the bounded table and the reference give every peer the same level. */
  lemma {:induction false} SameLevels(calls: seq<Call>, now: real, p: string)
    requires Ordered(calls) && (calls != [] ==> Clock(calls) <= now)
    ensures Sane(Table(calls), now) && Sane(Ideal(calls), now)
    ensures Level(Table(calls), p, now) == Level(Ideal(calls), p, now)
  {
    if calls != [] {
      var n := |calls| - 1;
      var c := calls[n];
      hide Step, Crowded, Level, Charge, Sane, BucketOf;
      SameLevels(calls[..n], c.now, p);
      SameLevels(calls[..n], c.now, c.peer);
      ChargeByLevel(Ideal(calls[..n]), c.peer, c.now, p);
      StepByLevel(Table(calls[..n]), c.peer, c.now, p);
      LevelGrows(Table(calls), p, c.now, now);
      LevelGrows(Ideal(calls), p, c.now, now);
    }
  }

  /** Every call that is not turned away for want of a slot is decided exactly as a table that never
      evicts would decide it. */
  lemma {:induction false} EvictionIsInvisible(calls: seq<Call>, i: nat)
    requires Ordered(calls) && i < |calls| && !TurnedAway(calls, i)
    ensures Admitted(calls, i) == IdeallyAdmitted(calls, i)
  {
    SameLevels(calls[..i], calls[i].now, calls[i].peer);
    StepByLevel(Table(calls[..i]), calls[i].peer, calls[i].now, calls[i].peer);
  }

  lemma {:induction false} TableIsBounded(calls: seq<Call>)
    ensures |Table(calls)| <= 4096
  {
    if calls != [] {
      var n := |calls| - 1;
      TableIsBounded(calls[..n]);
      StepBounded(Table(calls[..n]), calls[n].peer, calls[n].now);
    }
  }

  /** How many calls of `p` are admitted among calls number `a` up to (not including) `b`. */
  function AdmittedCount(calls: seq<Call>, p: string, a: nat, b: nat): nat
    requires a <= b <= |calls|
  {
    if a == b then 0
    else AdmittedCount(calls, p, a, b - 1) + if calls[b - 1].peer == p && Admitted(calls, b - 1) then 1 else 0
  }

  lemma {:induction false} TableStep(calls: seq<Call>, i: nat)
    requires i < |calls|
    ensures Table(calls[..i + 1]) == Step(Table(calls[..i]), calls[i].peer, calls[i].now).0
  {
    assert calls[..i + 1][..i] == calls[..i];
  }

  /** Admissions are paid for: by the level at the start of a window and the refill over it, less what
      is left at its end. */
  lemma {:induction false} AdmissionsArePaid(calls: seq<Call>, p: string, a: nat, b: nat)
    requires Ordered(calls) && a < b <= |calls|
    ensures Sane(Table(calls[..b]), calls[b - 1].now)
    ensures AdmittedCount(calls, p, a, b) as real
            <= Level(Table(calls[..a]), p, calls[a].now)
               + (calls[b - 1].now - calls[a].now) * RatePerSecond
               - Level(Table(calls[..b]), p, calls[b - 1].now)
  {
    hide Step, Level, Sane, Table, Crowded;
    var c := calls[b - 1];
    TableStep(calls, b - 1);
    SameLevels(calls[..b - 1], c.now, p);
    StepByLevel(Table(calls[..b - 1]), c.peer, c.now, p);
    if a < b - 1 {
      AdmissionsArePaid(calls, p, a, b - 1);
      LevelGrows(Table(calls[..b - 1]), p, calls[b - 2].now, c.now);
    }
  }

  /** In any window of calls spanning `T` seconds, a peer is admitted at most 200 + 100 * T times. */
  lemma {:induction false} WindowBound(calls: seq<Call>, p: string, a: nat, b: nat)
    requires Ordered(calls) && a < b <= |calls|
    ensures AdmittedCount(calls, p, a, b) as real <= 200.0 + (calls[b - 1].now - calls[a].now) * 100.0
  {
    AdmissionsArePaid(calls, p, a, b);
    SameLevels(calls[..a], calls[a].now, p);
    LevelGrows(Table(calls[..a]), p, calls[a].now, calls[a].now);
    LevelGrows(Table(calls[..b]), p, calls[b - 1].now, calls[b - 1].now);
  }

  /** What a peer may spend is exactly what is left of a full burst it had at some call, and of the refill
      since, after the admissions since. */
  lemma {:induction false} LevelIsAccounted(calls: seq<Call>, p: string, b: nat) returns (a: nat)
    requires Ordered(calls) && b < |calls|
    ensures a <= b
    ensures Level(Table(calls[..b]), p, calls[b].now) ==
            200.0 + (calls[b].now - calls[a].now) * 100.0 - AdmittedCount(calls, p, a, b) as real
  {
    a := b;
    assert b == 0 ==> Table(calls[..b]) == map[];
    if Level(Table(calls[..b]), p, calls[b].now) != 200.0 {
      var c := calls[b - 1];
      a := LevelIsAccounted(calls, p, b - 1);
      hide Step, Level, Sane, Table, Crowded;
      TableStep(calls, b - 1);
      SameLevels(calls[..b - 1], c.now, p);
      StepByLevel(Table(calls[..b - 1]), c.peer, c.now, p);
      LevelGrows(Table(calls[..b]), p, c.now, calls[b].now);
    }
  }

  /** So a call that found a slot is refused only if its peer had spent more than 199 + 100 * T in some window
      of T seconds up to it. */
  lemma {:induction false} RefusalIsEarned(calls: seq<Call>, b: nat) returns (a: nat)
    requires Ordered(calls) && b < |calls| && !TurnedAway(calls, b) && !Admitted(calls, b)
    ensures a <= b
    ensures AdmittedCount(calls, calls[b].peer, a, b) as real > 199.0 + (calls[b].now - calls[a].now) * 100.0
  {
    a := LevelIsAccounted(calls, calls[b].peer, b);
    SameLevels(calls[..b], calls[b].now, calls[b].peer);
    StepByLevel(Table(calls[..b]), calls[b].peer, calls[b].now, calls[b].peer);
  }

  // ---------- who finds a slot ----------

  /** The peers heard from within the last ten minutes. */
  function Recent(m: Peers, now: real): set<string> {
    set p | p in m && now - m[p].updated < 600.0
  }

  /** A new peer is admitted if and only if the table is not full, or fewer than 4096 of its peers were heard
      from within ten minutes; a peer in the table is never turned away for want of a slot. */
  lemma {:induction false} NewPeerAdmittedIff(m: Peers, peer: string, now: real)
    ensures peer !in m ==> (Step(m, peer, now).1 <==> |m| < 4096 || |Recent(m, now)| < 4096)
    ensures peer in m ==> (Step(m, peer, now).1 <==> Level(m, peer, now) >= 1.0)
  {
    assert Active(m, now).Keys == Recent(m, now);
    assert |Active(m, now)| == |Active(m, now).Keys|;
  }

  /** So one idle peer in a table within its bound makes room for a new one. */
  lemma {:induction false} OneIdlePeerMakesRoom(calls: seq<Call>, idle: string, peer: string, now: real)
    requires idle in Table(calls) && now - Table(calls)[idle].updated >= 600.0
    requires peer !in Table(calls)
    ensures Step(Table(calls), peer, now).1
  {
    var m := Table(calls);
    TableIsBounded(calls);
    NewPeerAdmittedIff(m, peer, now);
    SubsetSize(Recent(m, now), m.Keys - {idle});
    assert |m| == |m.Keys|;
  }
}
