/** The replay cache of pkg/authlimit: bounded memory, and what that bound costs. */
module NonceCache {
  import opened Common

  type Nonce = Bytes

  const DEFAULT_TTL := 300_000_000_000
  const DEFAULT_MAX_NONCES := 4096

  // ---------------------------------------------------------------------
  // What one call may do
  // ---------------------------------------------------------------------

  ghost function Unexpired(seen: map<Nonce, int>, ttl: int, now: int): map<Nonce, int> {
    map k | k in seen && now - seen[k] <= ttl :: seen[k]
  }

  /** Expired entries go; if that is not enough, so does one oldest survivor (any, on a tie). */
  ghost predicate Swept(seen: map<Nonce, int>, after: map<Nonce, int>, ttl: int, max: int, now: int) {
    var live := Unexpired(seen, ttl, now);
    if |live| >= max && |live| > 0
    then exists oldest <- live :: (forall k <- live :: live[oldest] <= live[k]) && after == live - {oldest}
    else after == live
  }

  ghost predicate Rejects(seen: map<Nonce, int>, ttl: int, n: Nonce, now: int) {
    n == [] || (n in seen && now - seen[n] <= ttl)
  }

  ghost predicate Used(seen: map<Nonce, int>, after: map<Nonce, int>, ttl: int, max: int, n: Nonce, now: int,
                       accepted: bool) {
    && (accepted <==> !Rejects(seen, ttl, n, now))
    && (!accepted ==> after == seen)
    && (accepted && |seen| < max ==> after == seen[n := now])
    && (accepted && |seen| >= max ==> exists mid :: Swept(seen, mid, ttl, max, now) && after == mid[n := now])
  }

  class NonceCache {
    const ttl: int
    const max: int
    var seen: map<Nonce, int>

    ghost predicate Valid()
      reads this
    {
      ttl > 0 && 0 < max && |seen| <= max
    }

    constructor (ttl: int, max: int)
      ensures Valid() && seen == map[]
      ensures this.ttl == (if ttl <= 0 then DEFAULT_TTL else ttl)
      ensures this.max == (if max <= 0 then DEFAULT_MAX_NONCES else max)
    {
      this.ttl := if ttl <= 0 then DEFAULT_TTL else ttl;
      this.max := if max <= 0 then DEFAULT_MAX_NONCES else max;
      seen := map[];
    }

    method Use(n: Nonce, now: int) returns (accepted: bool)
      requires Valid()
      modifies this
      ensures Valid()
      ensures Used(old(seen), seen, ttl, max, n, now, accepted)
    {
      if n == [] {
        return false;
      }
      if n in seen && now - seen[n] <= ttl {
        return false;
      }
      if |seen| >= max {
        Sweep(now);
      }
      InsertSize(seen, n, now);
      seen := seen[n := now];
      return true;
    }

    /** One pass over the map in whatever order it yields its keys, deleting as it goes. */
    method Sweep(now: int)
      requires Valid()
      modifies this
      ensures Swept(old(seen), seen, ttl, max, now)
      ensures |seen| < max
    {
      var rest := seen.Keys;
      var oldest: Option<Nonce> := None;
      ghost var live := Unexpired(seen, ttl, now);
      assert live.Keys <= seen.Keys;
      while rest != {}
        invariant rest <= old(seen).Keys
        invariant seen == map k | k in old(seen) && (k in rest || k in live) :: old(seen)[k]
        invariant oldest.None? ==> forall k <- live :: k in rest
        invariant oldest.Some? ==>
                  oldest.value in live && forall k <- live :: k in rest || live[oldest.value] <= live[k]
        decreases rest
      {
        var k :| k in rest;
        rest := rest - {k};
        var at := seen[k];
        if now - at > ttl {
          seen := seen - {k};
        } else if oldest.None? || at < seen[oldest.value] {
          oldest := Some(k);
        }
      }
      assert seen == live;
      SubsetCardinality(live.Keys, old(seen).Keys);
      if |seen| >= max && oldest.Some? {
        seen := seen - {oldest.value};
        assert seen.Keys == live.Keys - {oldest.value};
      } else if oldest.None? {
        assert live.Keys == {};
      }
    }
  }

  lemma InsertSize(seen: map<Nonce, int>, n: Nonce, now: int)
    ensures |seen[n := now]| == |seen| + if n in seen then 0 else 1
  {
    assert seen[n := now].Keys == seen.Keys + {n};
  }

  // ---------------------------------------------------------------------
  // Runs
  // ---------------------------------------------------------------------

  datatype Call = Call(n: Nonce, now: int)

  /** A run from the empty cache; the clock never goes back. */
  ghost predicate Trace(ttl: int, max: int, calls: seq<Call>, accepted: seq<bool>, states: seq<map<Nonce, int>>) {
    && |accepted| == |calls| && |states| == |calls| + 1
    && states[0] == map[]
    && (forall i, j :: 0 <= i <= j < |calls| ==> calls[i].now <= calls[j].now)
    && (forall i :: 0 <= i < |calls| ==>
          Used(states[i], states[i + 1], ttl, max, calls[i].n, calls[i].now, accepted[i]))
  }

  /** Distinct nonces accepted with a timestamp in [from, to]. */
  ghost function AcceptedBetween(calls: seq<Call>, accepted: seq<bool>, from: int, to: int): set<Nonce>
    requires |accepted| == |calls|
  {
    set i | 0 <= i < |calls| && accepted[i] && from <= calls[i].now <= to :: calls[i].n
  }

  lemma {:induction false} CacheNeverExceedsMax(ttl: int, max: int, calls: seq<Call>, accepted: seq<bool>,
                                                states: seq<map<Nonce, int>>, i: nat)
    requires Trace(ttl, max, calls, accepted, states) && max > 0 && i < |states|
    ensures |states[i]| <= max
  {
    hide Used;
    if i > 0 {
      CacheNeverExceedsMax(ttl, max, calls, accepted, states, i - 1);
      UseSize(states[i - 1], states[i], ttl, max, calls[i - 1].n, calls[i - 1].now, accepted[i - 1]);
    }
  }

  lemma UseSize(seen: map<Nonce, int>, after: map<Nonce, int>, ttl: int, max: int, n: Nonce, now: int, ok: bool)
    requires Used(seen, after, ttl, max, n, now, ok) && |seen| <= max && max > 0
    ensures |after| <= max
  {
    InsertSize(seen, n, now);
    if ok && |seen| >= max {
      var mid :| Swept(seen, mid, ttl, max, now) && after == mid[n := now];
      SweptSize(seen, mid, ttl, max, now);
      InsertSize(mid, n, now);
    }
  }

  lemma SweptSize(seen: map<Nonce, int>, after: map<Nonce, int>, ttl: int, max: int, now: int)
    requires Swept(seen, after, ttl, max, now) && |seen| <= max && max > 0
    ensures |after| < max
  {
    var live := Unexpired(seen, ttl, now);
    assert live.Keys <= seen.Keys;
    SubsetCardinality(live.Keys, seen.Keys);
    if |live| >= max {
      var oldest :| oldest in live && after == live - {oldest};
      assert after.Keys == live.Keys - {oldest};
    }
  }

  /** Every remembered entry is an earlier acceptance at that very time. */
  lemma {:induction false} EntriesAreAcceptances(ttl: int, max: int, calls: seq<Call>, accepted: seq<bool>,
                                                 states: seq<map<Nonce, int>>, i: nat, k: Nonce)
    requires Trace(ttl, max, calls, accepted, states) && i < |states| && k in states[i]
    ensures exists m :: 0 <= m < i && accepted[m] && calls[m] == Call(k, states[i][k])
  {
    var c := calls[i - 1];
    if accepted[i - 1] && k == c.n {
      assert calls[i - 1] == Call(k, states[i][k]);
    } else {
      StepKeepsEntry(states[i - 1], states[i], ttl, max, c.n, c.now, accepted[i - 1], k);
      EntriesAreAcceptances(ttl, max, calls, accepted, states, i - 1, k);
    }
  }

  lemma StepKeepsEntry(seen: map<Nonce, int>, after: map<Nonce, int>, ttl: int, max: int, n: Nonce, now: int,
                       ok: bool, k: Nonce)
    requires Used(seen, after, ttl, max, n, now, ok) && k in after && !(ok && k == n)
    ensures k in seen && seen[k] == after[k]
  {
    if ok && |seen| >= max {
      var mid :| Swept(seen, mid, ttl, max, now) && after == mid[n := now];
      assert k in mid;
    }
  }

  /** A nonce is accepted unless it is empty or was accepted within ttl before. */
  lemma {:induction false} UnseenIsAccepted(ttl: int, max: int, calls: seq<Call>, accepted: seq<bool>,
                                            states: seq<map<Nonce, int>>, j: nat)
    requires Trace(ttl, max, calls, accepted, states) && j < |calls|
    ensures !accepted[j] <==>
              calls[j].n == [] || (calls[j].n in states[j] && calls[j].now - states[j][calls[j].n] <= ttl)
    ensures !accepted[j] && calls[j].n != [] ==>
              exists i :: 0 <= i < j && accepted[i] && calls[i].n == calls[j].n && calls[j].now - calls[i].now <= ttl
  {
    assert Used(states[j], states[j + 1], ttl, max, calls[j].n, calls[j].now, accepted[j]);
    if !accepted[j] && calls[j].n != [] {
      EntriesAreAcceptances(ttl, max, calls, accepted, states, j, calls[j].n);
    }
  }

  /** An acceptance that finds the cache full leaves nothing expired in it; nothing else forgets anything. */
  lemma FullCacheIsPurged(ttl: int, max: int, calls: seq<Call>, accepted: seq<bool>,
                          states: seq<map<Nonce, int>>, j: nat)
    requires Trace(ttl, max, calls, accepted, states) && j < |calls| && ttl >= 0
    ensures accepted[j] && |states[j]| >= max ==>
              Unexpired(states[j + 1], ttl, calls[j].now) == states[j + 1]
    ensures accepted[j] ==> calls[j].n in states[j + 1] && states[j + 1][calls[j].n] == calls[j].now
    ensures !accepted[j] ==> states[j + 1] == states[j]
    ensures accepted[j] && |states[j]| < max ==> states[j + 1] == states[j][calls[j].n := calls[j].now]
  {
    assert Used(states[j], states[j + 1], ttl, max, calls[j].n, calls[j].now, accepted[j]);
  }

  /** Other nonces accepted between calls i and j, by their timestamps. */
  ghost function Others(calls: seq<Call>, accepted: seq<bool>, i: nat, j: nat): set<Nonce>
    requires |accepted| == |calls| && i < |calls| && j < |calls|
  {
    AcceptedBetween(calls, accepted, calls[i].now, calls[j].now) - {calls[i].n}
  }

  /**
   The price of bounded memory: replaying a nonce inside its window takes at
   least `max` other distinct nonces accepted between the two uses.
   */
  lemma {:induction false} ReplayCostsAFullCache(ttl: int, max: int, calls: seq<Call>, accepted: seq<bool>,
                                                 states: seq<map<Nonce, int>>, i: nat, j: nat)
    requires Trace(ttl, max, calls, accepted, states) && max > 0
    requires i < j < |calls| && accepted[i] && accepted[j]
    requires calls[i].n == calls[j].n && calls[j].now - calls[i].now <= ttl
    ensures |Others(calls, accepted, i, j)| >= max
  {
    hide Others;
    Remembered(ttl, max, calls, accepted, states, i, j, j);
    assert Used(states[j], states[j + 1], ttl, max, calls[j].n, calls[j].now, accepted[j]);
  }

  lemma {:induction false} Remembered(ttl: int, max: int, calls: seq<Call>, accepted: seq<bool>,
                                      states: seq<map<Nonce, int>>, i: nat, s: nat, j: nat)
    requires Trace(ttl, max, calls, accepted, states) && max > 0
    requires i < s <= j < |calls| && accepted[i] && calls[j].now - calls[i].now <= ttl
    ensures |states| == |accepted| + 1 == |calls| + 1
    ensures (calls[i].n in states[s] && states[s][calls[i].n] >= calls[i].now)
            || |Others(calls, accepted, i, j)| >= max
    decreases s
  {
    hide Others, Used;
    var n, from := calls[i].n, calls[i].now;
    if s == i + 1 {
      assert Used(states[i], states[s], ttl, max, n, from, accepted[i]);
      InsertedLast(states[i], states[s], ttl, max, n, from);
    } else {
      Remembered(ttl, max, calls, accepted, states, i, s - 1, j);
      if n in states[s - 1] && states[s - 1][n] >= from && !(n in states[s] && states[s][n] >= from) {
        EvictedCrowd(ttl, max, calls, accepted, states, i, s - 1, j);
      }
    }
  }

  lemma InsertedLast(seen: map<Nonce, int>, after: map<Nonce, int>, ttl: int, max: int, n: Nonce, now: int)
    requires Used(seen, after, ttl, max, n, now, true)
    ensures n in after && after[n] == now
  {
  }

  /** The call that evicts an unexpired entry finds the cache full of entries no older. */
  lemma EvictedCrowd(ttl: int, max: int, calls: seq<Call>, accepted: seq<bool>,
                     states: seq<map<Nonce, int>>, i: nat, s: nat, j: nat)
    requires Trace(ttl, max, calls, accepted, states) && max > 0
    requires i < s < j < |calls| && calls[j].now - calls[i].now <= ttl
    requires |states| == |accepted| + 1 == |calls| + 1
    requires var n := calls[i].n;
             n in states[s] && states[s][n] >= calls[i].now
             && !(n in states[s + 1] && states[s + 1][n] >= calls[i].now)
    ensures |Others(calls, accepted, i, j)| >= max
  {
    hide Used;
    var n, from, c := calls[i].n, calls[i].now, calls[s];
    assert from <= c.now <= calls[j].now;
    assert Used(states[s], states[s + 1], ttl, max, c.n, c.now, accepted[s]);
    var crowd := Eviction(states[s], states[s + 1], ttl, max, c.n, c.now, accepted[s], n, from);
    forall k | k in crowd ensures k in Others(calls, accepted, i, j) {
      if k != c.n {
        EntriesAreAcceptances(ttl, max, calls, accepted, states, s, k);
        var m :| 0 <= m < s && accepted[m] && calls[m] == Call(k, states[s][k]);
        assert from <= calls[m].now <= calls[j].now;
      }
    }
    SubsetCardinality(crowd, Others(calls, accepted, i, j));
  }

  /** One call losing an unexpired entry: `max` other nonces, all no older, one of them just accepted. */
  lemma Eviction(seen: map<Nonce, int>, after: map<Nonce, int>, ttl: int, max: int, c: Nonce, now: int, ok: bool,
                 n: Nonce, from: int) returns (crowd: set<Nonce>)
    requires Used(seen, after, ttl, max, c, now, ok) && max > 0
    requires n in seen && seen[n] >= from && now - from <= ttl && from <= now
    requires !(n in after && after[n] >= from)
    ensures ok && c in crowd && n !in crowd && |crowd| >= max
    ensures forall k <- crowd :: k != c ==> k in seen && seen[k] >= from
  {
    var live := Unexpired(seen, ttl, now);
    assert now - seen[n] <= ttl;
    var mid :| Swept(seen, mid, ttl, max, now) && after == mid[c := now];
    assert n in live && n !in mid;
    assert live.Keys - {n} + {n} == live.Keys;
    crowd := live.Keys - {n} + {c};
  }

  // ---------------------------------------------------------------------
  // The price is met
  // ---------------------------------------------------------------------

  const REPLAYED: Nonce := [0]

  /** The k-th of the other nonces. */
  function Filler(k: nat): Nonce {
    seq(k, _ => 1)
  }

  /** The first k of them, all accepted at time 1. */
  function Fill(k: nat): map<Nonce, int> {
    if k == 0 then map[] else Fill(k - 1)[Filler(k) := 1]
  }

  lemma {:induction false} FillFacts(k: nat)
    ensures |Fill(k)| == k && REPLAYED !in Fill(k)
    ensures forall n :: n in Fill(k) <==> 1 <= |n| <= k && n == Filler(|n|)
    ensures forall n <- Fill(k) :: Fill(k)[n] == 1
  {
    if k > 0 {
      FillFacts(k - 1);
      InsertSize(Fill(k - 1), Filler(k), 1);
      assert Filler(k)[0] == 1;
    }
  }

  /** The calls: the nonce, `max` others a moment later, and the nonce again. */
  function Costly(max: nat, i: nat): Call {
    if i == 0 then Call(REPLAYED, 0) else if i <= max then Call(Filler(i), 1) else Call(REPLAYED, 1)
  }

  function CostlyState(max: nat, i: nat): map<Nonce, int> {
    if i == 0 then map[]
    else if i <= max then Fill(i - 1)[REPLAYED := 0]
    else if i == max + 1 then Fill(max)
    else (Fill(max) - {Filler(1)})[REPLAYED := 1]
  }

  lemma CostlyStep(ttl: int, max: nat, i: nat)
    requires ttl > 0 && max > 0 && i <= max + 1
    ensures Used(CostlyState(max, i), CostlyState(max, i + 1), ttl, max, Costly(max, i).n, Costly(max, i).now, true)
  {
    hide Swept, Fill, Filler, Used;
    var seen, n := CostlyState(max, i), Costly(max, i).n;
    if i == 0 {
      NoneFilled();
      Inserts(seen, ttl, max, n, 0);
    } else if i <= max {
      FillFacts(i - 1);
      FillNext(i);
      assert n !in seen;
      InsertSize(Fill(i - 1), REPLAYED, 0);
      if i == max {
        SweepsReplayed(seen, Fill(i - 1), ttl, max);
        SweepsThenInserts(seen, Fill(i - 1), ttl, max, n, 1);
      } else {
        Inserts(seen, ttl, max, n, 1);
        assert seen[n := 1] == Fill(i)[REPLAYED := 0];
      }
    } else {
      FillFacts(max);
      FillNext(1);
      SweepsFirst(seen, ttl, max);
      SweepsThenInserts(seen, seen - {Filler(1)}, ttl, max, n, 1);
    }
  }

  lemma NoneFilled()
    ensures Fill(0) == map[]
  {
  }

  lemma Inserts(seen: map<Nonce, int>, ttl: int, max: int, n: Nonce, now: int)
    requires n != [] && n !in seen && |seen| < max
    ensures Used(seen, seen[n := now], ttl, max, n, now, true)
  {
  }

  lemma SweepsThenInserts(seen: map<Nonce, int>, mid: map<Nonce, int>, ttl: int, max: int, n: Nonce, now: int)
    requires n != [] && n !in seen && |seen| >= max && Swept(seen, mid, ttl, max, now)
    ensures Used(seen, mid[n := now], ttl, max, n, now, true)
  {
  }

  lemma FillNext(i: nat)
    requires i > 0
    ensures Fill(i) == Fill(i - 1)[Filler(i) := 1] && |Filler(i)| == i && Filler(i) != REPLAYED
  {
    assert Filler(i)[0] == 1;
  }

  lemma FillerLength(i: nat)
    ensures |Filler(i)| == i
  {
  }

  lemma SweepsReplayed(seen: map<Nonce, int>, rest: map<Nonce, int>, ttl: int, max: nat)
    requires ttl > 0 && |seen| == max > 0
    requires REPLAYED !in rest && seen == rest[REPLAYED := 0] && forall n <- rest :: rest[n] == 1
    ensures Swept(seen, rest, ttl, max, 1)
  {
    assert Unexpired(seen, ttl, 1) == seen;
    assert seen - {REPLAYED} == rest;
    assert REPLAYED in seen;
  }

  lemma SweepsFirst(seen: map<Nonce, int>, ttl: int, max: nat)
    requires ttl > 0 && |seen| == max > 0 && Filler(1) in seen && forall n <- seen :: seen[n] == 1
    ensures Swept(seen, seen - {Filler(1)}, ttl, max, 1)
  {
    assert Unexpired(seen, ttl, 1) == seen;
  }

  /** The bound is exact: for every cache there is a run that replays a nonce after just `max` others. */
  lemma ReplayCostIsMet(ttl: int, max: nat)
    returns (calls: seq<Call>, accepted: seq<bool>, states: seq<map<Nonce, int>>)
    requires ttl > 0 && max > 0
    ensures Trace(ttl, max, calls, accepted, states) && |calls| == max + 2
    ensures accepted[0] && accepted[max + 1] && calls[0].n == calls[max + 1].n
    ensures calls[max + 1].now - calls[0].now <= ttl
    ensures |Others(calls, accepted, 0, max + 1)| == max
  {
    hide Used, Fill, Filler;
    calls := seq(max + 2, i requires i >= 0 => Costly(max, i));
    accepted := seq(max + 2, _ => true);
    states := seq(max + 3, i requires i >= 0 => CostlyState(max, i));
    forall i | 0 <= i < |calls|
      ensures Used(states[i], states[i + 1], ttl, max, calls[i].n, calls[i].now, accepted[i])
    {
      CostlyStep(ttl, max, i);
    }
    FillFacts(max);
    OthersAreFillers(max, calls, accepted);
  }

  lemma OthersAreFillers(max: nat, calls: seq<Call>, accepted: seq<bool>)
    requires max > 0 && |calls| == |accepted| == max + 2
    requires forall i :: 0 <= i < max + 2 ==> calls[i] == Costly(max, i) && accepted[i]
    ensures Others(calls, accepted, 0, max + 1) == Fill(max).Keys
    ensures |Fill(max).Keys| == max
  {
    hide Fill;
    FillFacts(max);
    var others := Others(calls, accepted, 0, max + 1);
    forall n | n in others ensures n in Fill(max) {
      var i :| 0 <= i < |calls| && calls[i].n == n && n != REPLAYED;
      FillerLength(i);
    }
    forall n | n in Fill(max) ensures n in others {
      assert calls[|n|].n == n;
    }
    assert |Fill(max).Keys| == |Fill(max)|;
  }
}
