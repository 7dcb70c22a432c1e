/** The windowed per-source limiter of pkg/authlimit. */
module SourceLimiter {
  import opened Common

  type Source = Bytes

  const DEFAULT_WINDOW := 60_000_000_000
  const DEFAULT_MAX_SOURCES := 65536

  datatype Counted = Counted(n: nat, since: int)

  // ---------------------------------------------------------------------
  // What one call may do
  // ---------------------------------------------------------------------

  ghost function InWindow(sources: map<Source, Counted>, window: int, now: int): map<Source, Counted> {
    map k | k in sources && now - sources[k].since <= window :: sources[k]
  }

  function Target(max: int): int {
    max - max / 10
  }

  /** Expired sources go, then arbitrary ones until the table is down to the target. */
  ghost predicate Swept(sources: map<Source, Counted>, after: map<Source, Counted>, window: int, max: int, now: int) {
    var live := InWindow(sources, window, now);
    && (forall k <- after :: k in live && after[k] == live[k])
    && (if |live| <= Target(max) then after == live else |after| == Target(max))
  }

  /** Counting one action against what is left of the table. */
  ghost predicate Charged(mid: map<Source, Counted>, after: map<Source, Counted>, limit: int, window: int,
                          source: Source, now: int, ok: bool)
  {
    if source !in mid || now - mid[source].since > window
    then ok && after == mid[source := Counted(1, now)]
    else after == mid[source := Counted(mid[source].n + 1, mid[source].since)] && (ok <==> mid[source].n + 1 <= limit)
  }

  ghost predicate SweepDue(sources: map<Source, Counted>, sweepAt: int, max: int, now: int) {
    now > sweepAt || |sources| >= max
  }

  class SourceLimiter {
    const limit: int
    const window: int
    const max: int
    var sources: map<Source, Counted>
    var sweepAt: int

    /** `zero` is Go's zero time, before any clock reading. */
    constructor (limit: int, window: int, max: int, zero: int)
      ensures this.limit == limit && this.window > 0 && this.max > 0
      ensures window > 0 ==> this.window == window
      ensures max > 0 ==> this.max == max
      ensures sources == map[] && sweepAt == zero
    {
      this.limit := limit;
      this.window := if window <= 0 then DEFAULT_WINDOW else window;
      this.max := if max <= 0 then DEFAULT_MAX_SOURCES else max;
      sources, sweepAt := map[], zero;
    }

    method Allow(source: Source, now: int) returns (ok: bool, ghost mid: map<Source, Counted>)
      requires max > 0
      modifies this
      ensures limit <= 0 ==> ok && sources == old(sources) && sweepAt == old(sweepAt)
      ensures limit > 0 ==> Charged(mid, sources, limit, window, source, now, ok)
      ensures limit > 0 && SweepDue(old(sources), old(sweepAt), max, now) ==>
                Swept(old(sources), mid, window, max, now) && sweepAt == now + window
      ensures limit > 0 && !SweepDue(old(sources), old(sweepAt), max, now) ==>
                mid == old(sources) && sweepAt == old(sweepAt)
    {
      mid := sources;
      if limit <= 0 {
        return true, mid;
      }
      if now > sweepAt || |sources| >= max {
        Sweep(now);
        sweepAt := now + window;
      }
      mid := sources;
      if source !in sources || now - sources[source].since > window {
        sources := sources[source := Counted(1, now)];
        return true, mid;
      }
      sources := sources[source := sources[source].(n := sources[source].n + 1)];
      ok := sources[source].n <= limit;
    }

    method Sweep(now: int)
      requires max > 0
      modifies this`sources
      ensures Swept(old(sources), sources, window, max, now)
    {
      var rest := sources.Keys;
      ghost var live := InWindow(sources, window, now);
      while rest != {}
        invariant rest <= old(sources).Keys
        invariant sources == map k | k in old(sources) && (k in rest || k in live) :: old(sources)[k]
        decreases rest
      {
        var k :| k in rest;
        rest := rest - {k};
        if now - sources[k].since > window {
          sources := sources - {k};
        }
      }
      assert sources == live;
      var target := max - max / 10;
      rest := sources.Keys;
      while rest != {}
        invariant rest <= sources.Keys
        invariant forall k <- sources :: k in live && sources[k] == live[k]
        invariant sources.Keys - rest == {}
        invariant if |live| <= target then sources == live else |sources| >= target
        decreases rest
      {
        var k :| k in rest;
        if |sources| <= target {
          break;
        }
        rest := rest - {k};
        ghost var before := sources;
        sources := sources - {k};
        assert sources.Keys == before.Keys - {k};
      }
      assert rest == {} ==> sources.Keys == {};
    }
  }

  // ---------------------------------------------------------------------
  // Runs
  // ---------------------------------------------------------------------

  datatype State = State(sources: map<Source, Counted>, sweepAt: int)

  /** One call: the table before, between sweep and count, and after. */
  datatype Call = Call(source: Source, now: int, mid: map<Source, Counted>, ok: bool)

  ghost predicate Step(s: State, c: Call, s': State, limit: int, window: int, max: int) {
    && Charged(c.mid, s'.sources, limit, window, c.source, c.now, c.ok)
    && (if SweepDue(s.sources, s.sweepAt, max, c.now)
        then Swept(s.sources, c.mid, window, max, c.now) && s'.sweepAt == c.now + window
        else c.mid == s.sources && s'.sweepAt == s.sweepAt)
  }

  ghost predicate Trace(limit: int, window: int, max: int, calls: seq<Call>, states: seq<State>) {
    && limit > 0 && window > 0 && max > 0
    && |states| == |calls| + 1 && states[0].sources == map[]
    && (forall i, j :: 0 <= i <= j < |calls| ==> calls[i].now <= calls[j].now)
    && (forall i :: 0 <= i < |calls| ==> Step(states[i], calls[i], states[i + 1], limit, window, max))
  }

  /** A call evicted `source` while its window was still open. */
  ghost predicate Evicted(s: State, c: Call, source: Source, window: int) {
    source in s.sources && c.now - s.sources[source].since <= window && source !in c.mid
  }

  ghost function Approvals(calls: seq<Call>, source: Source, i: nat, j: nat): nat
    requires i <= j <= |calls|
    decreases j - i
  {
    if i == j then 0
    else Approvals(calls, source, i, j - 1) + if calls[j - 1].source == source && calls[j - 1].ok then 1 else 0
  }

  ghost function Evictions(calls: seq<Call>, states: seq<State>, source: Source, window: int, i: nat, j: nat): nat
    requires i <= j <= |calls| < |states|
    decreases j - i
  {
    if i == j then 0
    else Evictions(calls, states, source, window, i, j - 1)
         + if Evicted(states[j - 1], calls[j - 1], source, window) then 1 else 0
  }

  // ---------------------------------------------------------------------
  // The rate bound
  // ---------------------------------------------------------------------

  function Min(a: int, b: int): int {
    if a <= b then a else b
  }

  /**
   The potential behind the bound: `a` approvals and `e` evictions since
   `start`. A record older than `start` has only its own budget behind it,
   and one use of that budget came before `start`.
   */
  ghost predicate Budget(s: State, source: Source, limit: int, start: int, a: nat, e: nat) {
    if source in s.sources && s.sources[source].since >= start
    then a < limit * (1 + e) + Min(s.sources[source].n, limit)
    else if source in s.sources
    then a < limit * e + Min(s.sources[source].n, limit)
    else a < limit * (1 + e)
  }

  /** Whatever is in the table was counted at least once. */
  lemma {:induction false} CountsArePositive(limit: int, window: int, max: int, calls: seq<Call>, states: seq<State>,
                                             i: nat)
    requires Trace(limit, window, max, calls, states) && i < |states|
    ensures forall k <- states[i].sources :: states[i].sources[k].n >= 1
  {
    if i > 0 {
      CountsArePositive(limit, window, max, calls, states, i - 1);
      assert Step(states[i - 1], calls[i - 1], states[i], limit, window, max);
    }
  }

  lemma LimitTimes(limit: int, e: nat)
    requires limit > 0
    ensures limit * (1 + e) == limit * e + limit && limit * (2 + e) == limit * e + 2 * limit && limit * e >= 0
  {
  }

  /** The sweep spends budget only by evicting. */
  lemma SweepBudget(s: State, c: Call, source: Source, limit: int, window: int, max: int, start: int, a: nat, e: nat)
    requires limit > 0 && Budget(s, source, limit, start, a, e)
    requires SweepDue(s.sources, s.sweepAt, max, c.now) ==> Swept(s.sources, c.mid, window, max, c.now)
    requires !SweepDue(s.sources, s.sweepAt, max, c.now) ==> c.mid == s.sources
    requires start <= c.now <= start + window
    ensures Budget(State(c.mid, 0), source, limit, start, a, e + if Evicted(s, c, source, window) then 1 else 0)
  {
    LimitTimes(limit, e);
    LimitTimes(limit, e + 1);
  }

  lemma StepBudget(s: State, c: Call, s': State, source: Source, limit: int, window: int, max: int, start: int,
                   a: nat, e: nat)
    requires limit > 0 && Step(s, c, s', limit, window, max) && Budget(s, source, limit, start, a, e)
    requires start <= c.now <= start + window
    ensures Budget(s', source, limit, start,
                   a + (if c.source == source && c.ok then 1 else 0),
                   e + if Evicted(s, c, source, window) then 1 else 0)
  {
    SweepBudget(s, c, source, limit, window, max, start, a, e);
    var e' := e + if Evicted(s, c, source, window) then 1 else 0;
    LimitTimes(limit, e');
  }

  lemma {:induction false} BudgetHolds(limit: int, window: int, max: int, calls: seq<Call>, states: seq<State>,
                                       source: Source, i: nat, j: nat)
    requires Trace(limit, window, max, calls, states)
    requires i <= j <= |calls| && i < |calls|
    requires j > i ==> calls[j - 1].now - calls[i].now <= window
    ensures Budget(states[j], source, limit, calls[i].now,
                   Approvals(calls, source, i, j), Evictions(calls, states, source, window, i, j))
    decreases j - i
  {
    LimitTimes(limit, 0);
    CountsArePositive(limit, window, max, calls, states, i);
    if j > i {
      BudgetHolds(limit, window, max, calls, states, source, i, j - 1);
      StepBudget(states[j - 1], calls[j - 1], states[j], source, limit, window, max, calls[i].now,
                 Approvals(calls, source, i, j - 1), Evictions(calls, states, source, window, i, j - 1));
    }
  }

  /**
   In any stretch of calls no longer than the window, a source gets at most
   `limit` - 1 approvals for the record it came with, `limit` for the one that
   replaces it, and `limit` more for each time it was evicted.
   */
  lemma {:induction false} ApprovalsAreBounded(limit: int, window: int, max: int, calls: seq<Call>, states: seq<State>,
                                               source: Source, i: nat, j: nat)
    requires Trace(limit, window, max, calls, states)
    requires i < j <= |calls| && calls[j - 1].now - calls[i].now <= window
    ensures Approvals(calls, source, i, j) <= limit * (2 + Evictions(calls, states, source, window, i, j)) - 1
  {
    BudgetHolds(limit, window, max, calls, states, source, i, j);
    LimitTimes(limit, Evictions(calls, states, source, window, i, j));
  }

  /** A sweep drops every expired source, and others only down to nine tenths of the table's capacity. */
  lemma SweepsKeepNineTenths(limit: int, window: int, max: int, calls: seq<Call>, states: seq<State>, j: nat)
    requires Trace(limit, window, max, calls, states) && j < |calls|
    requires calls[j].now > states[j].sweepAt || |states[j].sources| >= max
    ensures forall k <- calls[j].mid :: calls[j].now - calls[j].mid[k].since <= window
    ensures forall k <- states[j].sources ::
              calls[j].now - states[j].sources[k].since <= window && k !in calls[j].mid ==>
                |calls[j].mid| == max - max / 10
  {
    assert Step(states[j], calls[j], states[j + 1], limit, window, max);
  }

  /** How often the source called. */
  ghost function Uses(calls: seq<Call>, source: Source, i: nat, j: nat): nat
    requires i <= j <= |calls|
    decreases j - i
  {
    if i == j then 0 else Uses(calls, source, i, j - 1) + if calls[j - 1].source == source then 1 else 0
  }

  /** A record was begun by one of the source's own calls and counts every one since. */
  lemma {:induction false} RecordsCountCalls(limit: int, window: int, max: int, calls: seq<Call>, states: seq<State>,
                                             k: Source, j: nat) returns (i: nat)
    requires Trace(limit, window, max, calls, states) && j < |states| && k in states[j].sources
    ensures i < j && calls[i].now == states[j].sources[k].since && Uses(calls, k, i, j) == states[j].sources[k].n
    decreases j
  {
    var c := calls[j - 1];
    assert Step(states[j - 1], c, states[j], limit, window, max);
    if k in states[j - 1].sources && k in c.mid && !(c.source == k && c.now - c.mid[k].since > window) {
      KeptBySweep(states[j - 1], c, window, max, k);
      i := RecordsCountCalls(limit, window, max, calls, states, k, j - 1);
    } else {
      KeptBySweep(states[j - 1], c, window, max, k);
      i := j - 1;
    }
  }

  lemma KeptBySweep(s: State, c: Call, window: int, max: int, k: Source)
    requires if SweepDue(s.sources, s.sweepAt, max, c.now) then Swept(s.sources, c.mid, window, max, c.now)
             else c.mid == s.sources
    ensures k in c.mid ==> k in s.sources && c.mid[k] == s.sources[k]
  {
  }

  /** Only a source that has already called `limit` times within the window is refused. */
  lemma {:induction false} RefusalMeansBusy(limit: int, window: int, max: int, calls: seq<Call>, states: seq<State>,
                                            j: nat)
    requires Trace(limit, window, max, calls, states) && j < |calls| && !calls[j].ok
    ensures exists i ::
              0 <= i < j && calls[j].now - calls[i].now <= window && Uses(calls, calls[j].source, i, j) >= limit
  {
    var c := calls[j];
    assert Step(states[j], c, states[j + 1], limit, window, max);
    KeptBySweep(states[j], c, window, max, c.source);
    var i := RecordsCountCalls(limit, window, max, calls, states, c.source, j);
  }

  // ---------------------------------------------------------------------
  // The size bound, and how far apart capacity sweeps are
  // ---------------------------------------------------------------------

  lemma InsertSize(m: map<Source, Counted>, k: Source, v: Counted)
    ensures |m[k := v]| == |m| + if k in m then 0 else 1
  {
    assert m[k := v].Keys == m.Keys + {k};
  }

  lemma SweptSize(sources: map<Source, Counted>, after: map<Source, Counted>, window: int, max: int, now: int)
    requires Swept(sources, after, window, max, now)
    ensures |after| <= Target(max)
  {
  }

  lemma {:induction false} TableStaysBounded(limit: int, window: int, max: int, calls: seq<Call>, states: seq<State>,
                                             i: nat)
    requires Trace(limit, window, max, calls, states) && i < |states|
    ensures |states[i].sources| <= if max >= 10 then max else max + 1
  {
    if i > 0 {
      TableStaysBounded(limit, window, max, calls, states, i - 1);
      var s, c := states[i - 1], calls[i - 1];
      assert Step(s, c, states[i], limit, window, max);
      if SweepDue(s.sources, s.sweepAt, max, c.now) {
        SweptSize(s.sources, c.mid, window, max, c.now);
      }
      if c.source in states[i].sources {
        InsertSize(c.mid, c.source, states[i].sources[c.source]);
      }
    }
  }

  /** Calls in [i, j) that made the table grow past what their sweep left. */
  ghost function Insertions(calls: seq<Call>, i: nat, j: nat): nat
    requires i <= j <= |calls|
    decreases j - i
  {
    if i == j then 0
    else Insertions(calls, i, j - 1) + if calls[j - 1].source in calls[j - 1].mid then 0 else 1
  }

  lemma {:induction false} GrowthIsInsertions(limit: int, window: int, max: int, calls: seq<Call>,
                                              states: seq<State>, i: nat, j: nat)
    requires Trace(limit, window, max, calls, states)
    requires i < j <= |calls| && SweepDue(states[i].sources, states[i].sweepAt, max, calls[i].now)
    ensures |states[j].sources| <= Target(max) + Insertions(calls, i, j)
    decreases j - i
  {
    var s, c := states[j - 1], calls[j - 1];
    assert Step(s, c, states[j], limit, window, max);
    if j - 1 > i {
      GrowthIsInsertions(limit, window, max, calls, states, i, j - 1);
    }
    if SweepDue(s.sources, s.sweepAt, max, c.now) {
      SweptSize(s.sources, c.mid, window, max, c.now);
    }
    assert c.source in states[j].sources;
    InsertSize(c.mid, c.source, states[j].sources[c.source]);
  }

  /** A sweep forced by a full table comes at least max/10 insertions after any sweep before it. */
  lemma {:induction false} CapacitySweepsAreRare(limit: int, window: int, max: int, calls: seq<Call>,
                                                 states: seq<State>, i: nat, j: nat)
    requires Trace(limit, window, max, calls, states)
    requires i < j < |calls| && SweepDue(states[i].sources, states[i].sweepAt, max, calls[i].now)
    requires |states[j].sources| >= max
    ensures Insertions(calls, i, j) >= max / 10
  {
    GrowthIsInsertions(limit, window, max, calls, states, i, j);
  }

  // ---------------------------------------------------------------------
  // The rate bound is met
  // ---------------------------------------------------------------------

  const X: Source := [0]
  const Y: Source := [1]

  /** A run of a table for one source, and where X stands at its end. */
  datatype Story = Story(calls: seq<Call>, states: seq<State>)

  /** X has a record of n uses since `since`; at most Y is beside it; from the second call on there were `a` and `e`. */
  ghost predicate Stands(st: Story, limit: int, window: int, n: nat, since: int, now: int, a: nat, e: nat) {
    && Trace(limit, window, 1, st.calls, st.states) && |st.calls| > 0
    && st.calls[|st.calls| - 1].now <= now
    && (var s := st.states[|st.calls|].sources;
        && X in s && s[X] == Counted(n, since) && 1 <= n <= limit && s.Keys <= {X, Y}
        && (Y in s ==> s[Y].since == now))
    && Approvals(st.calls, X, 1, |st.calls|) == a && Evictions(st.calls, st.states, X, window, 1, |st.calls|) == e
  }

  function Then(st: Story, c: Call, s: State): Story {
    Story(st.calls + [c], st.states + [s])
  }

  lemma {:induction false} SamePrefix(calls: seq<Call>, states: seq<State>, c: Call, s: State, window: int, j: nat)
    requires 1 <= j <= |calls| < |states|
    ensures Approvals(calls + [c], X, 1, j) == Approvals(calls, X, 1, j)
    ensures Evictions(calls + [c], states + [s], X, window, 1, j) == Evictions(calls, states, X, window, 1, j)
  {
    if j > 1 {
      SamePrefix(calls, states, c, s, window, j - 1);
    }
  }

  /** One call more. */
  lemma Appends(st: Story, limit: int, window: int, c: Call, s: State)
    requires Trace(limit, window, 1, st.calls, st.states) && |st.calls| > 0
    requires st.calls[|st.calls| - 1].now <= c.now
    requires Step(st.states[|st.calls|], c, s, limit, window, 1)
    ensures var st' := Then(st, c, s);
            && Trace(limit, window, 1, st'.calls, st'.states)
            && Approvals(st'.calls, X, 1, |st'.calls|)
               == Approvals(st.calls, X, 1, |st.calls|) + (if c.source == X && c.ok then 1 else 0)
            && Evictions(st'.calls, st'.states, X, window, 1, |st'.calls|)
               == Evictions(st.calls, st.states, X, window, 1, |st.calls|)
                  + if Evicted(st.states[|st.calls|], c, X, window) then 1 else 0
  {
    hide Step, Evicted;
    SamePrefix(st.calls, st.states, c, s, window, |st.calls|);
    var st' := Then(st, c, s);
    forall i | 0 <= i < |st'.calls| ensures Step(st'.states[i], st'.calls[i], st'.states[i + 1], limit, window, 1) {
      if i < |st.calls| {
        assert Step(st.states[i], st.calls[i], st.states[i + 1], limit, window, 1);
      }
    }
  }

  /** The sweep of a full one-source table keeps any one record in its window. */
  lemma SweepKeeps(sources: map<Source, Counted>, k: Source, window: int, now: int)
    requires k in sources && sources.Keys <= {X, Y} && k in {X, Y}
    requires forall s <- sources :: now - sources[s].since <= window
    ensures Swept(sources, map[k := sources[k]], window, 1, now)
  {
    assert InWindow(sources, window, now) == sources;
    if |sources| <= 1 {
      assert sources.Keys == {k} by {
        if other :| other in sources.Keys && other != k {
          SubsetCardinality({k, other}, sources.Keys);
        }
      }
      assert sources == map[k := sources[k]];
    }
  }

  lemma FullTable(sources: map<Source, Counted>)
    requires X in sources
    ensures |sources| >= 1
  {
    assert |sources.Keys| >= 1 by { SubsetCardinality({X}, sources.Keys); }
  }

  /** X again, within its record. */
  lemma Again(st: Story, limit: int, window: int, n: nat, since: int, now: int, a: nat, e: nat) returns (st': Story)
    requires Stands(st, limit, window, n, since, now, a, e) && n < limit && now - since <= window
    ensures Stands(st', limit, window, n + 1, since, now, a + 1, e) && |st'.calls| == |st.calls| + 1
    ensures st' == Then(st, st'.calls[|st.calls|], st'.states[|st.calls| + 1])
    ensures st'.calls[|st.calls|].now == now
    ensures st'.states[|st'.calls|].sources.Keys == {X}
  {
    hide Trace, Approvals, Evictions, Swept;
    StandsTrace(st, limit, window, n, since, now, a, e);
    var s := st.states[|st.calls|].sources;
    FullTable(s);
    SweepKeeps(s, X, window, now);
    var c := Call(X, now, map[X := s[X]], true);
    var after := State(map[X := Counted(n + 1, since)], now + window);
    assert c.mid[X := Counted(n + 1, since)] == after.sources;
    Appends(st, limit, window, c, after);
    st' := Then(st, c, after);
  }

  lemma StandsTrace(st: Story, limit: int, window: int, n: nat, since: int, now: int, a: nat, e: nat)
    requires Stands(st, limit, window, n, since, now, a, e)
    ensures window > 0 && |st.states| == |st.calls| + 1
  {
  }

  /** X up to its limit. */
  lemma {:induction false} UpToLimit(st: Story, limit: int, window: int, n: nat, since: int, now: int, a: nat, e: nat)
    returns (st': Story)
    requires Stands(st, limit, window, n, since, now, a, e) && now - since <= window
    ensures Stands(st', limit, window, limit, since, now, a + limit - n, e)
    ensures st.calls <= st'.calls
    ensures forall i :: |st.calls| <= i < |st'.calls| ==> st'.calls[i].now == now
    ensures st.states[|st.calls|].sources.Keys == {X} ==> st'.states[|st'.calls|].sources.Keys == {X}
    decreases limit - n
  {
    hide Stands;
    st' := st;
    assert n <= limit by { StandsLimit(st, limit, window, n, since, now, a, e); }
    if n < limit {
      var st1 := Again(st, limit, window, n, since, now, a, e);
      st' := UpToLimit(st1, limit, window, n + 1, since, now, a + 1, e);
      assert st.calls <= st1.calls <= st'.calls;
      assert forall i :: |st.calls| <= i < |st1.calls| ==> st'.calls[i] == st1.calls[i];
    }
  }

  /** Y's call takes X's slot in the next sweep, and X begins anew. */
  lemma Crowds(st: Story, limit: int, window: int, n: nat, since: int, now: int, a: nat, e: nat) returns (st': Story)
    requires Stands(st, limit, window, n, since, now, a, e) && now - since <= window
    ensures Stands(st', limit, window, 1, now, now, a + 1, e + 1)
    ensures st.calls <= st'.calls && forall i :: |st.calls| <= i < |st'.calls| ==> st'.calls[i].now == now
  {
    hide Trace, Approvals, Evictions, Swept;
    StandsTrace(st, limit, window, n, since, now, a, e);
    var s := st.states[|st.calls|].sources;
    FullTable(s);
    SweepKeeps(s, X, window, now);
    var c := Call(Y, now, map[X := s[X]], true);
    var both := c.mid[Y := Counted(1, now)];
    Appends(st, limit, window, c, State(both, now + window));
    var st1 := Then(st, c, State(both, now + window));
    FullTable(both);
    SweepKeeps(both, Y, window, now);
    var d := Call(X, now, map[Y := both[Y]], true);
    var after := d.mid[X := Counted(1, now)];
    Appends(st1, limit, window, d, State(after, now + window));
    st' := Then(st1, d, State(after, now + window));
  }

  /** X alone, once its window has passed. */
  lemma Renews(st: Story, limit: int, window: int, n: nat, since: int, now: int, a: nat, e: nat, later: int)
    returns (st': Story)
    requires Stands(st, limit, window, n, since, now, a, e) && later >= now && later - since > window
    requires st.states[|st.calls|].sources.Keys == {X}
    ensures Stands(st', limit, window, 1, later, later, a + 1, e)
    ensures st.calls <= st'.calls && |st'.calls| == |st.calls| + 1 && st'.calls[|st.calls|].now == later
  {
    hide Trace, Approvals, Evictions;
    StandsTrace(st, limit, window, n, since, now, a, e);
    var s := st.states[|st.calls|].sources;
    FullTable(s);
    assert InWindow(s, window, later) == map[];
    var c := Call(X, later, map[], true);
    var after := c.mid[X := Counted(1, later)];
    Appends(st, limit, window, c, State(after, later + window));
    st' := Then(st, c, State(after, later + window));
  }

  lemma Begins(limit: int, window: int) returns (st: Story)
    requires limit > 0 && window > 0
    ensures Stands(st, limit, window, 1, 0, 0, 0, 0) && |st.calls| == 1
    ensures st.states[1].sources.Keys == {X}
  {
    var c := Call(X, 0, map[], true);
    st := Story([c], [State(map[], 0), State(map[X := Counted(1, 0)], 0)]);
    assert c.mid[X := Counted(1, 0)] == st.states[1].sources;
  }

  /** The same end, seen later. */
  lemma Waits(st: Story, limit: int, window: int, n: nat, since: int, now: int, a: nat, e: nat, later: int)
    requires Stands(st, limit, window, n, since, now, a, e) && later >= now
    requires st.states[|st.calls|].sources.Keys == {X}
    ensures Stands(st, limit, window, n, since, later, a, e)
  {
    StandsTrace(st, limit, window, n, since, now, a, e);
  }

  /** Rounds of eviction, each with `limit` approvals. */
  lemma {:induction false} Rounds(st: Story, limit: int, window: int, now: int, a: nat, e: nat, rounds: nat)
    returns (st': Story)
    requires window > 0 && limit > 0 && Stands(st, limit, window, limit, now, now, a, e)
    ensures Stands(st', limit, window, limit, now, now, a + limit * rounds, e + rounds)
    ensures st.calls <= st'.calls && forall i :: |st.calls| <= i < |st'.calls| ==> st'.calls[i].now == now
    decreases rounds
  {
    hide Stands;
    st' := st;
    if rounds > 0 {
      var st1 := Crowds(st, limit, window, limit, now, now, a, e);
      var st2 := UpToLimit(st1, limit, window, 1, now, now, a + 1, e + 1);
      st' := Rounds(st2, limit, window, now, a + limit, e + 1, rounds - 1);
      assert limit * rounds == limit + limit * (rounds - 1);
      PrefixOf(st.calls, st1.calls, st2.calls, now);
      PrefixOf(st.calls, st2.calls, st'.calls, now);
    }
  }

  lemma PrefixOf(a: seq<Call>, b: seq<Call>, c: seq<Call>, now: int)
    requires a <= b <= c
    requires forall i :: |a| <= i < |b| ==> b[i].now == now
    requires forall i :: |b| <= i < |c| ==> c[i].now == now
    ensures a <= c && forall i :: |a| <= i < |c| ==> c[i].now == now
  {
    assert forall i :: 0 <= i < |b| ==> c[i] == b[i];
  }

  /** The bound is exact: for every limit, window and number of evictions there is a run with that many approvals. */
  lemma ApprovalBoundIsMet(limit: int, window: int, evictions: nat) returns (calls: seq<Call>, states: seq<State>)
    requires limit > 0 && window > 0
    ensures Trace(limit, window, 1, calls, states) && |calls| > 1
    ensures calls[|calls| - 1].now - calls[1].now <= window
    ensures Evictions(calls, states, X, window, 1, |calls|) == evictions
    ensures Approvals(calls, X, 1, |calls|) == limit * (2 + evictions) - 1
  {
    hide Stands;
    var st0 := Begins(limit, window);
    Waits(st0, limit, window, 1, 0, 0, 0, 0, window);
    var st1 := UpToLimit(st0, limit, window, 1, 0, window, 0, 0);
    var st2 := Renews(st1, limit, window, limit, 0, window, limit - 1, 0, window + 1);
    var st3 := UpToLimit(st2, limit, window, 1, window + 1, window + 1, limit, 0);
    var st4 := Rounds(st3, limit, window, window + 1, 2 * limit - 1, 0, evictions);
    calls, states := st4.calls, st4.states;
    PrefixOf(st1.calls, st2.calls, st3.calls, window + 1);
    PrefixOf(st1.calls, st3.calls, st4.calls, window + 1);
    assert calls[1].now >= window by {
      if |st1.calls| > 1 { assert calls[1] == st1.calls[1]; }
    }
    assert limit * (2 + evictions) == 2 * limit + limit * evictions;
    StandsMeans(st4, limit, window, limit, window + 1, window + 1, 2 * limit - 1 + limit * evictions, evictions);
  }

  lemma StandsMeans(st: Story, limit: int, window: int, n: nat, since: int, now: int, a: nat, e: nat)
    requires Stands(st, limit, window, n, since, now, a, e)
    ensures Trace(limit, window, 1, st.calls, st.states) && st.calls[|st.calls| - 1].now <= now
    ensures Approvals(st.calls, X, 1, |st.calls|) == a
    ensures Evictions(st.calls, st.states, X, window, 1, |st.calls|) == e
  {
  }

  lemma StandsLimit(st: Story, limit: int, window: int, n: nat, since: int, now: int, a: nat, e: nat)
    requires Stands(st, limit, window, n, since, now, a, e)
    ensures n <= limit
  {
  }
}
