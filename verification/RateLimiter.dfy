/**
 The sliding-window rate limiter (cache/rate_limit_store.py): one client's sorted set.

 Each call carries two clock readings: `now`, the caller's stamp, which scores and prunes, and `at`, Redis's
 own clock, which expires the key.  Times are seconds since the epoch.  A call id stands for the stamp and
 random part of the member name; ids do not repeat.
*/
module RateLimiter {
  import opened Outcomes
  import opened Arithmetic

  const WINDOW: real := 60.0

  type CallId = nat

  datatype Member = Member(call: CallId, unit: int)

  /** The members one admitted call adds. */
  function Charge(call: CallId, cost: nat, now: real): (r: map<Member, real>)
    ensures forall m :: m in r <==> m.call == call && 1 <= m.unit <= cost
    ensures forall m | m in r :: r[m] == now
  {
    map i: int | 1 <= i <= cost :: Member(call, i) := now
  }

  lemma ChargeOneMore(units: map<Member, real>, call: CallId, i: int, now: real)
    requires i >= 1
    ensures (units + Charge(call, i - 1, now))[Member(call, i) := now] == units + Charge(call, i, now)
  {
    assert Charge(call, i - 1, now)[Member(call, i) := now] == Charge(call, i, now);
  }

  /** ZREMRANGEBYSCORE 0 cutoff. */
  function Pruned(units: map<Member, real>, cutoff: real): map<Member, real> {
    map m | m in units && !(0.0 <= units[m] <= cutoff) :: units[m]
  }

  /** The key: its members and, while it has any, when it expires. */
  datatype Window = Window(units: map<Member, real>, expireAt: real) {
    /** What Redis finds under the key at its time `at`. */
    function Visible(at: real): map<Member, real> { if at < expireAt then units else map[] }

    /** What is counted against the limit. */
    function Counted(now: real, at: real): map<Member, real> { Pruned(Visible(at), now - WINDOW) }

    function After(call: CallId, now: real, at: real, limit: int, cost: nat): Window {
      var live := Counted(now, at);
      if |live| + cost > limit then Window(live, expireAt) else Window(live + Charge(call, cost, now), at + WINDOW)
    }
  }

  /** A unit counts while the key is there and less than sixty seconds have passed since its stamp. */
  lemma CountedMembers(w: Window, now: real, at: real, m: Member)
    requires m in w.units ==> w.units[m] >= 0.0
    ensures m in w.Counted(now, at) <==> m in w.units && at < w.expireAt && now - w.units[m] < 60.0
    ensures m in w.Counted(now, at) ==> w.Counted(now, at)[m] == w.units[m]
  {
  }

  /** All or nothing: the members counted stay, and a call that fits adds one for each unit of its cost. */
  lemma AfterExactly(w: Window, call: CallId, now: real, at: real, limit: int, cost: nat, m: Member)
    ensures var counted, after := w.Counted(now, at), w.After(call, now, at, limit, cost);
            if |counted| + cost > limit then
              after.units == counted && after.expireAt == w.expireAt
            else
              && after.expireAt == at + 60.0
              && (m in after.units <==> m in counted || (m.call == call && 1 <= m.unit <= cost))
              && (m in after.units ==> after.units[m] == if m.call == call && 1 <= m.unit <= cost then now else counted[m])
  {
  }

  datatype Verdict = Verdict(limited: bool, remaining: int, resetAt: int)

  class SortedSet {
    var units: map<Member, real>
    var expireAt: real

    function View(): Window reads this { Window(units, expireAt) }

    constructor ()
      ensures View() == Window(map[], 0.0)
    {
      units, expireAt := map[], 0.0;
    }

    /** The Lua script: prune, count, then charge the whole cost or nothing. */
    method Script(call: CallId, now: real, at: real, limit: int, cost: nat) returns (refused: bool, left: int)
      modifies this
      ensures View() == old(View()).After(call, now, at, limit, cost)
      ensures var count := |old(View()).Counted(now, at)|;
              && refused == (count + cost > limit)
              && left == if refused then Max(0, limit - count) else limit - count - cost
    {
      ghost var counted := View().Counted(now, at);
      assert counted + Charge(call, 0, now) == counted;
      units := Pruned(if at < expireAt then units else map[], now - WINDOW);
      var count := |units|;
      if count + cost > limit {
        left := limit - count;
        if left < 0 { left := 0; }
        return true, left;
      }
      for i := 1 to cost + 1
        invariant units == counted + Charge(call, i - 1, now)
        invariant expireAt == old(expireAt)
      {
        ChargeOneMore(counted, call, i, now);
        units := units[Member(call, i) := now];
      }
      expireAt := at + WINDOW;
      return false, limit - count - cost;
    }

    /** is_rate_limited: when Redis cannot be reached the call is let through and nothing is recorded. */
    method IsRateLimited(call: CallId, now: real, at: real, limit: Option<int>, cost: int, configured: int, reachable: bool)
      returns (v: Verdict)
      requires now >= 0.0
      modifies this
      ensures var lim, c := if limit.Some? then limit.value else configured, Max(1, cost);
              var count := |old(View()).Counted(now, at)|;
              if reachable then
                && View() == old(View()).After(call, now, at, lim, c)
                && (v.limited <==> count + c > lim)
                && v.remaining == (if v.limited then Max(0, lim - count) else lim - count - c)
                && v.resetAt == (now + 60.0).Floor
              else
                View() == old(View()) && v == Verdict(false, configured, 0)
    {
      if !reachable {
        return Verdict(false, configured, 0);
      }
      var effective := if limit.Some? then limit.value else configured;
      var c := Max(1, cost);
      var refused, left := Script(call, now, at, effective, c);
      return Verdict(refused, left, (now + WINDOW).Floor);
    }

    /** get_rate_limit_headers: prunes and reports, charges nothing. */
    method Headers(now: real, at: real, configured: int, reachable: bool) returns (limit: int, remaining: int, resetAt: int)
      requires now >= 0.0
      modifies this
      ensures limit == configured
      ensures if reachable then
                && View() == Window(old(View()).Counted(now, at), old(expireAt))
                && remaining == Max(0, configured - |old(View()).Counted(now, at)|)
                && resetAt == (now + 60.0).Floor
              else
                View() == old(View()) && remaining == configured && resetAt == 0
    {
      if !reachable {
        return configured, configured, 0;
      }
      units := Pruned(if at < expireAt then units else map[], now - WINDOW);
      return configured, Max(0, configured - |units|), (now + WINDOW).Floor;
    }
  }

  // ---------------------------------------------------------------- the full admission history

  datatype Admission = Admission(call: CallId, now: real, at: real, cost: nat)

  /** The total cost admitted after `cutoff` and no later than `end`. */
  function CostIn(history: seq<Admission>, cutoff: real, end: real): nat {
    if history == [] then 0
    else
      var n := |history| - 1;
      CostIn(history[..n], cutoff, end) + if cutoff < history[n].now <= end then history[n].cost else 0
  }

  function CostAfter(history: seq<Admission>, cutoff: real): nat {
    if history == [] then 0
    else
      var n := |history| - 1;
      CostAfter(history[..n], cutoff) + if cutoff < history[n].now then history[n].cost else 0
  }

  /** The units of the history newer than `cutoff`: what the pruned set should hold. */
  function Live(history: seq<Admission>, cutoff: real): map<Member, real> {
    if history == [] then map[]
    else
      var n := |history| - 1;
      var before, a := Live(history[..n], cutoff), history[n];
      if a.now > cutoff then before + Charge(a.call, a.cost, a.now) else before
  }

  predicate Ordered(history: seq<Admission>) {
    && (forall i | 0 <= i < |history| :: history[i].now >= 0.0)
    && (forall i, j | 0 <= i < j < |history| :: history[i].now <= history[j].now && history[i].call != history[j].call)
  }

  lemma {:induction false} LiveMembers(history: seq<Admission>, cutoff: real, m: Member)
    requires m in Live(history, cutoff)
    ensures exists i :: 0 <= i < |history| && history[i].call == m.call && Live(history, cutoff)[m] == history[i].now > cutoff
  {
    var n := |history| - 1;
    var a, before := history[n], Live(history[..n], cutoff);
    if a.now > cutoff && m in Charge(a.call, a.cost, a.now) {
      assert history[n].call == m.call;
    } else {
      LiveMembers(history[..n], cutoff, m);
      var i :| 0 <= i < n && history[..n][i].call == m.call && before[m] == history[..n][i].now > cutoff;
      assert history[i].call == m.call;
    }
  }

  /** The newest admission shares no member with the earlier ones. */
  lemma NewestApart(history: seq<Admission>, cutoff: real, m: Member)
    requires Ordered(history) && history != [] && m in Live(history[..|history| - 1], cutoff)
    ensures m.call != history[|history| - 1].call
  {
    LiveMembers(history[..|history| - 1], cutoff, m);
  }

  lemma EarlierApart(history: seq<Admission>, cutoff: real, n: nat)
    requires Ordered(history) && n + 1 == |history|
    ensures forall m | m in Live(history[..n], cutoff) :: m.call != history[n].call
  {
    forall m | m in Live(history[..n], cutoff) ensures m.call != history[n].call { NewestApart(history, cutoff, m); }
  }

  /** Pruning the units after one cutoff to a later one gives the units after the later one. */
  lemma {:induction false} PrunedLive(history: seq<Admission>, cutoff: real, later: real)
    requires Ordered(history) && cutoff <= later
    ensures Pruned(Live(history, cutoff), later) == Live(history, later)
  {
    if history != [] {
      var n := |history| - 1;
      PrunedLive(history[..n], cutoff, later);
      EarlierApart(history, cutoff, n);
      PrunedNewest(Live(history[..n], cutoff), history[n], cutoff, later);
    }
  }

  lemma PrunedNewest(units: map<Member, real>, a: Admission, cutoff: real, later: real)
    requires a.now >= 0.0 && cutoff <= later && forall m | m in units :: m.call != a.call
    ensures var all := if a.now > cutoff then units + Charge(a.call, a.cost, a.now) else units;
            Pruned(all, later) ==
            if a.now > later then Pruned(units, later) + Charge(a.call, a.cost, a.now) else Pruned(units, later)
  {
    PrunedCharge(a, later);
    PrunedSum(units, Charge(a.call, a.cost, a.now), later);
  }

  lemma PrunedCharge(a: Admission, later: real)
    requires a.now >= 0.0
    ensures Pruned(Charge(a.call, a.cost, a.now), later) == if a.now > later then Charge(a.call, a.cost, a.now) else map[]
  {
  }

  lemma PrunedSum(a: map<Member, real>, b: map<Member, real>, cutoff: real)
    requires a.Keys !! b.Keys
    ensures Pruned(a + b, cutoff) == Pruned(a, cutoff) + Pruned(b, cutoff)
  {
  }

  lemma {:induction false} ChargeSize(call: CallId, cost: nat, now: real)
    ensures |Charge(call, cost, now)| == cost
  {
    if cost > 0 {
      ChargeSize(call, cost - 1, now);
      assert Charge(call, cost, now) == Charge(call, cost - 1, now)[Member(call, cost) := now];
    } else {
      assert Charge(call, cost, now) == map[];
    }
  }

  lemma SumSize(a: map<Member, real>, b: map<Member, real>)
    requires a.Keys !! b.Keys
    ensures |a + b| == |a| + |b|
  {
    assert (a + b).Keys == a.Keys + b.Keys;
  }

  /** ZCARD counts the cost admitted in the window. */
  lemma {:induction false} LiveSize(history: seq<Admission>, cutoff: real)
    requires Ordered(history)
    ensures |Live(history, cutoff)| == CostAfter(history, cutoff)
  {
    if history != [] {
      var n := |history| - 1;
      var a := history[n];
      LiveSize(history[..n], cutoff);
      EarlierApart(history, cutoff, n);
      SumSize(Live(history[..n], cutoff), Charge(a.call, a.cost, a.now));
      ChargeSize(a.call, a.cost, a.now);
    }
  }

  lemma LiveEmpty(history: seq<Admission>, cutoff: real)
    requires forall i | 0 <= i < |history| :: history[i].now <= cutoff
    ensures Live(history, cutoff) == map[]
  {
    if m :| m in Live(history, cutoff) {
      LiveMembers(history, cutoff, m);
    }
  }

  // ---------------------------------------------------------------- runs of calls

  datatype Call =
    | Check(id: CallId, now: real, at: real, limit: int, cost: int)
    | Report(now: real, at: real)

  datatype State = State(window: Window, history: seq<Admission>)

  predicate Admitted(s: State, c: Call)
    requires c.Check?
  {
    |s.window.Counted(c.now, c.at)| + Max(1, c.cost) <= c.limit
  }

  function Next(s: State, c: Call): State {
    match c
    case Check(id, now, at, limit, cost) =>
      State(s.window.After(id, now, at, limit, Max(1, cost)),
            if Admitted(s, c) then s.history + [Admission(id, now, at, Max(1, cost))] else s.history)
    case Report(now, at) => State(Window(s.window.Counted(now, at), s.window.expireAt), s.history)
  }

  function Run(calls: seq<Call>): State {
    if calls == [] then State(Window(map[], 0.0), []) else Next(Run(calls[..|calls| - 1]), calls[|calls| - 1])
  }

  /** Stamps never go back and call ids do not repeat. */
  predicate Clocked(calls: seq<Call>) {
    && (forall i | 0 <= i < |calls| :: calls[i].now >= 0.0)
    && (forall i, j | 0 <= i < j < |calls| :: calls[i].now <= calls[j].now)
    && (forall i, j | 0 <= i < j < |calls| && calls[i].Check? && calls[j].Check? :: calls[i].id != calls[j].id)
  }

  /** Redis's clock does not pass a whole window while the stamps pass less; equal clocks are in step. */
  predicate InStep(calls: seq<Call>) {
    forall i, j | 0 <= i < j < |calls| :: calls[j].at - calls[i].at >= 60.0 ==> calls[j].now - calls[i].now >= 60.0
  }

  /** Where an admission comes from. */
  predicate CameFrom(a: Admission, calls: seq<Call>) {
    exists i :: 0 <= i < |calls| && calls[i].Check? && calls[i].id == a.call && calls[i].now == a.now && calls[i].at == a.at
  }

  predicate Sourced(calls: seq<Call>, history: seq<Admission>) {
    forall k | 0 <= k < |history| :: CameFrom(history[k], calls)
  }

  /** The set holds exactly the admitted units of the window that ends at `now`. */
  predicate Tracks(s: State, now: real) {
    && Ordered(s.history)
    && s.window.units == Live(s.history, now - WINDOW)
    && (s.history != [] ==> NewestExpires(s.history[|s.history| - 1], s.window))
  }

  predicate NewestExpires(a: Admission, w: Window) { a.cost >= 1 && w.expireAt == a.at + WINDOW }

  function LastStamp(calls: seq<Call>): real { if calls == [] then 0.0 else calls[|calls| - 1].now }

  /** Expiry loses a live unit: a window has passed on Redis's clock since the last admission, but not on the stamps. */
  predicate LosesLive(history: seq<Admission>, now: real, at: real) {
    history != [] && var last := history[|history| - 1]; at - last.at >= 60.0 > now - last.now
  }

  /** With nothing after the newest admission's window, the units after `cutoff` are gone exactly when it is. */
  lemma LiveGone(history: seq<Admission>, cutoff: real)
    requires Ordered(history) && history != [] && history[|history| - 1].cost >= 1
    ensures Live(history, cutoff) == map[] <==> history[|history| - 1].now <= cutoff
  {
    var last := history[|history| - 1];
    if last.now <= cutoff {
      LiveEmpty(history, cutoff);
    } else {
      assert Member(last.call, 1) in Live(history, cutoff);
    }
  }

  /** What a call counts, exactly: the admitted units of its window, unless the key expired under them. */
  lemma CountedExactly(s: State, before: real, now: real, at: real)
    requires Tracks(s, before) && before <= now
    ensures s.window.Counted(now, at) == Live(s.history, now - 60.0) <==> !LosesLive(s.history, now, at)
  {
    PrunedLive(s.history, before - WINDOW, now - WINDOW);
    assert Pruned(map[], now - WINDOW) == map[];
    if s.history != [] {
      LiveGone(s.history, now - WINDOW);
    }
  }

  lemma LiveAppend(history: seq<Admission>, a: Admission, cutoff: real)
    requires a.now > cutoff
    ensures Live(history + [a], cutoff) == Live(history, cutoff) + Charge(a.call, a.cost, a.now)
  {
    assert (history + [a])[..|history|] == history;
  }

  lemma AppendOrdered(history: seq<Admission>, a: Admission)
    requires Ordered(history) && Newest(history, a.now, a.call)
    ensures Ordered(history + [a])
  {
  }

  /** Nothing in the history is later than `now`, and the call is new. */
  predicate Newest(history: seq<Admission>, now: real, call: CallId) {
    now >= 0.0 && forall k | 0 <= k < |history| :: history[k].now <= now && history[k].call != call
  }

  function AdmissionOf(c: Call): Admission
    requires c.Check?
  {
    Admission(c.id, c.now, c.at, Max(1, c.cost))
  }

  /** The limiter as a filter over the full history: no set, no pruning, no expiry. */
  function Recorded(history: seq<Admission>, c: Call): seq<Admission> {
    if c.Check? && CostAfter(history, c.now - 60.0) + Max(1, c.cost) <= c.limit then history + [AdmissionOf(c)] else history
  }

  function RecordedAll(calls: seq<Call>): seq<Admission> {
    if calls == [] then [] else Recorded(RecordedAll(calls[..|calls| - 1]), calls[|calls| - 1])
  }

  lemma CallCounts(s: State, before: real, now: real, at: real)
    requires Tracks(s, before) && before <= now && !LosesLive(s.history, now, at)
    ensures s.window.Counted(now, at) == Live(s.history, now - WINDOW)
    ensures |s.window.Counted(now, at)| == CostAfter(s.history, now - WINDOW)
  {
    CountedExactly(s, before, now, at);
    LiveSize(s.history, now - WINDOW);
  }

  /** A call that counts the cost of its window decides as the filter does. */
  lemma CallDecides(s: State, c: Call)
    requires |s.window.Counted(c.now, c.at)| == CostAfter(s.history, c.now - WINDOW)
    ensures Next(s, c).history == Recorded(s.history, c)
  {
  }

  lemma AdmittedTracks(s: State, c: Call)
    requires Ordered(s.history) && s.window.Counted(c.now, c.at) == Live(s.history, c.now - WINDOW)
    requires c.Check? && Newest(s.history, c.now, c.id) && Admitted(s, c)
    ensures Tracks(Next(s, c), c.now)
  {
    AppendOrdered(s.history, AdmissionOf(c));
    LiveAppend(s.history, AdmissionOf(c), c.now - WINDOW);
  }

  lemma CallTracks(s: State, c: Call)
    requires Ordered(s.history) && s.window.Counted(c.now, c.at) == Live(s.history, c.now - WINDOW)
    requires s.history != [] ==> NewestExpires(s.history[|s.history| - 1], s.window)
    requires c.Check? ==> Newest(s.history, c.now, c.id)
    ensures Tracks(Next(s, c), c.now)
  {
    if c.Check? && Admitted(s, c) {
      AdmittedTracks(s, c);
    } else {
      assert Next(s, c).window == Window(s.window.Counted(c.now, c.at), s.window.expireAt);
    }
  }

  /** Every call of the run comes in order, is new, and finds no live unit expired. */
  predicate Timely(calls: seq<Call>) {
    calls == [] ||
    var n := |calls| - 1;
    Timely(calls[..n]) && InTime(Run(calls[..n]).history, LastStamp(calls[..n]), calls[n])
  }

  predicate InTime(history: seq<Admission>, before: real, c: Call) {
    before <= c.now && !LosesLive(history, c.now, c.at) && (c.Check? ==> Newest(history, c.now, c.id))
  }

  lemma NextTracks(s: State, before: real, c: Call)
    requires Tracks(s, before) && InTime(s.history, before, c)
    ensures Tracks(Next(s, c), c.now) && Next(s, c).history == Recorded(s.history, c)
  {
    CallCounts(s, before, c.now, c.at);
    CallDecides(s, c);
    CallTracks(s, c);
  }

  lemma {:induction false} TimelyRunTracks(calls: seq<Call>)
    requires Timely(calls)
    ensures Tracks(Run(calls), LastStamp(calls)) && Run(calls).history == RecordedAll(calls)
  {
    if calls != [] {
      var n := |calls| - 1;
      TimelyRunTracks(calls[..n]);
      NextTracks(Run(calls[..n]), LastStamp(calls[..n]), calls[n]);
    }
  }

  // ---------------------------------------------------------------- clocks that make a run timely

  lemma FromPrefix(a: Admission, calls: seq<Call>, n: nat)
    requires n + 1 == |calls| && Clocked(calls) && InStep(calls) && CameFrom(a, calls[..n])
    ensures CameFrom(a, calls) && a.now <= calls[n].now && (calls[n].Check? ==> a.call != calls[n].id)
    ensures calls[n].at - a.at >= WINDOW ==> calls[n].now - a.now >= WINDOW
  {
    var i :| 0 <= i < n && calls[..n][i].Check? && calls[..n][i].id == a.call && calls[..n][i].now == a.now && calls[..n][i].at == a.at;
    assert calls[..n][i] == calls[i];
  }

  lemma CallInTime(calls: seq<Call>, history: seq<Admission>, n: nat)
    requires n + 1 == |calls| && Clocked(calls) && InStep(calls) && Sourced(calls[..n], history)
    ensures Sourced(calls, history) && InTime(history, LastStamp(calls[..n]), calls[n])
  {
    forall k | 0 <= k < |history|
      ensures CameFrom(history[k], calls) && history[k].now <= calls[n].now
      ensures calls[n].Check? ==> history[k].call != calls[n].id
      ensures calls[n].at - history[k].at >= WINDOW ==> calls[n].now - history[k].now >= WINDOW
    {
      FromPrefix(history[k], calls, n);
    }
  }

  lemma SourcedNext(calls: seq<Call>, s: State, n: nat)
    requires n + 1 == |calls| && Sourced(calls, s.history)
    ensures Sourced(calls, Next(s, calls[n]).history)
  {
    var c := calls[n];
    if c.Check? && Admitted(s, c) {
      assert CameFrom(AdmissionOf(c), calls) by { assert calls[n].id == AdmissionOf(c).call; }
    }
  }

  lemma ClockedPrefix(calls: seq<Call>, n: nat)
    requires n <= |calls| && Clocked(calls) && InStep(calls)
    ensures Clocked(calls[..n]) && InStep(calls[..n])
  {
  }

  lemma {:induction false} ClockedRunIsTimely(calls: seq<Call>)
    requires Clocked(calls) && InStep(calls)
    ensures Timely(calls) && Sourced(calls, Run(calls).history)
  {
    if calls != [] {
      var n := |calls| - 1;
      ClockedPrefix(calls, n);
      ClockedRunIsTimely(calls[..n]);
      CallInTime(calls, Run(calls[..n]).history, n);
      SourcedNext(calls, Run(calls[..n]), n);
    }
  }

  /** After every call the pruned, expiring set is the window of the full history, and has decided as the filter does. */
  lemma SetRefinesHistory(calls: seq<Call>)
    requires Clocked(calls) && InStep(calls)
    ensures Run(calls).window.units == Live(RecordedAll(calls), LastStamp(calls) - WINDOW)
    ensures Run(calls).history == RecordedAll(calls) && Ordered(RecordedAll(calls))
  {
    ClockedRunIsTimely(calls);
    TimelyRunTracks(calls);
  }

  lemma TimelyLast(calls: seq<Call>, n: nat)
    requires n + 1 == |calls| && Timely(calls)
    ensures Timely(calls[..n]) && InTime(Run(calls[..n]).history, LastStamp(calls[..n]), calls[n])
  {
  }

  /** The count a check or a report subtracts from the limit is the cost admitted in its window. */
  lemma CountIsInWindowCost(calls: seq<Call>, n: nat)
    requires n + 1 == |calls| && Clocked(calls) && InStep(calls)
    ensures |Run(calls[..n]).window.Counted(calls[n].now, calls[n].at)| == CostAfter(RecordedAll(calls[..n]), calls[n].now - WINDOW)
  {
    ClockedRunIsTimely(calls);
    TimelyLast(calls, n);
    CountAfter(calls[..n], calls[n]);
  }

  lemma CountAfter(calls: seq<Call>, c: Call)
    requires Timely(calls) && InTime(Run(calls).history, LastStamp(calls), c)
    ensures |Run(calls).window.Counted(c.now, c.at)| == CostAfter(RecordedAll(calls), c.now - WINDOW)
  {
    TimelyRunTracks(calls);
    CountOf(Run(calls), LastStamp(calls), c, RecordedAll(calls));
  }

  lemma CountOf(s: State, before: real, c: Call, history: seq<Admission>)
    requires Tracks(s, before) && InTime(s.history, before, c) && s.history == history
    ensures |s.window.Counted(c.now, c.at)| == CostAfter(history, c.now - WINDOW)
  {
    CallCounts(s, before, c.now, c.at);
  }

  /** What Headers reports at an instant foretells the next check at that instant: it is admitted exactly up to that cost. */
  lemma HeadersForetell(s: State, c: Call)
    requires c.Check? && c.now >= 0.0
    ensures var reported := Max(0, c.limit - |s.window.Counted(c.now, c.at)|);
            Admitted(Next(s, Report(c.now, c.at)), c) <==> Max(1, c.cost) <= reported
  {
    var live := s.window.Counted(c.now, c.at);
    assert Pruned(live, c.now - WINDOW) == live;
    assert Pruned(map[], c.now - WINDOW) == map[];
  }

  // ---------------------------------------------------------------- the bound

  /** At each admission the cost in its window was within `limit`. */
  predicate Bounded(history: seq<Admission>, limit: int) {
    history == [] ||
    var n := |history| - 1;
    Bounded(history[..n], limit) && CostAfter(history, history[n].now - WINDOW) <= limit
  }

  lemma CostAppend(history: seq<Admission>, a: Admission, cutoff: real)
    requires a.now > cutoff
    ensures CostAfter(history + [a], cutoff) == CostAfter(history, cutoff) + a.cost
  {
    assert (history + [a])[..|history|] == history;
  }

  lemma RecordedFits(history: seq<Admission>, c: Call, limit: int)
    requires Bounded(history, limit) && (c.Check? ==> c.limit <= limit)
    ensures Bounded(Recorded(history, c), limit)
  {
    if c.Check? {
      var a := AdmissionOf(c);
      CostAppend(history, a, a.now - WINDOW);
      assert (history + [a])[..|history|] == history;
    }
  }

  lemma {:induction false} EveryAdmissionFits(calls: seq<Call>, limit: int)
    requires forall i | 0 <= i < |calls| && calls[i].Check? :: calls[i].limit <= limit
    ensures Bounded(RecordedAll(calls), limit)
  {
    if calls != [] {
      var n := |calls| - 1;
      EveryAdmissionFits(calls[..n], limit);
      RecordedFits(RecordedAll(calls[..n]), calls[n], limit);
    }
  }

  /** Later cutoffs leave less. */
  lemma {:induction false} CostShrinks(history: seq<Admission>, cutoff: real, later: real)
    requires cutoff <= later
    ensures CostAfter(history, later) <= CostAfter(history, cutoff)
  {
    if history != [] {
      CostShrinks(history[..|history| - 1], cutoff, later);
    }
  }

  lemma {:induction false} CostUpTo(history: seq<Admission>, cutoff: real, end: real)
    requires forall i | 0 <= i < |history| :: history[i].now <= end
    ensures CostIn(history, cutoff, end) == CostAfter(history, cutoff)
  {
    if history != [] {
      CostUpTo(history[..|history| - 1], cutoff, end);
    }
  }

  lemma {:induction false} WindowWithin(history: seq<Admission>, t: real, limit: int)
    requires Ordered(history) && Bounded(history, limit)
    ensures CostIn(history, t - WINDOW, t) <= Max(limit, 0)
  {
    if history != [] {
      var n := |history| - 1;
      if history[n].now <= t {
        CostUpTo(history, t - WINDOW, t);
        CostShrinks(history, history[n].now - WINDOW, t - WINDOW);
      } else {
        WindowWithin(history[..n], t, limit);
      }
    }
  }

  /** Over every run, the cost admitted in any window (t - 60, t] is within the limit, whatever the costs. */
  lemma WindowBound(calls: seq<Call>, t: real, limit: int)
    requires Clocked(calls) && InStep(calls)
    requires forall i | 0 <= i < |calls| && calls[i].Check? :: calls[i].limit <= limit
    ensures CostIn(Run(calls).history, t - 60.0, t) <= Max(limit, 0)
  {
    EveryAdmissionFits(calls, limit);
    SetRefinesHistory(calls);
    WindowWithin(Run(calls).history, t, limit);
  }

  // ---------------------------------------------------------------- the bound needs the clocks in step

  /** The same clock readings, whatever is asked at them. */
  predicate SameClock(b: seq<Call>, calls: seq<Call>) {
    |b| == |calls| && forall k | 0 <= k < |calls| :: b[k].now == calls[k].now && b[k].at == calls[k].at
  }

  predicate LimitsWithin(b: seq<Call>, limit: int) { forall k | 0 <= k < |b| && b[k].Check? :: b[k].limit <= limit }

  /** At these clock readings no mix of checks and reports, ids, costs and limits up to `limit` overfills a window. */
  ghost predicate AlwaysWithin(calls: seq<Call>, limit: int) {
    forall b, t | SameClock(b, calls) && Clocked(b) && LimitsWithin(b, limit) :: Within(Run(b).history, t, limit)
  }

  /** The cost admitted in (t - 60, t] is within the limit. */
  predicate Within(history: seq<Admission>, t: real, limit: int) { CostIn(history, t - 60.0, t) <= limit }

  /** Charge the whole limit at calls `i` and `j`; every other call is a report. */
  function Probe(calls: seq<Call>, i: nat, j: nat, limit: int): (b: seq<Call>)
    ensures |b| == |calls|
    ensures forall k | 0 <= k < |b| :: b[k] == ProbeCall(calls[k], k, k == i || k == j, limit)
  {
    seq(|calls|, k requires 0 <= k < |calls| => ProbeCall(calls[k], k, k == i || k == j, limit))
  }

  function ProbeCall(c: Call, id: CallId, charge: bool, limit: int): Call {
    if charge then Check(id, c.now, c.at, limit, limit) else Report(c.now, c.at)
  }

  lemma RunLast(b: seq<Call>, n: nat)
    requires n < |b|
    ensures Run(b[..n + 1]) == Next(Run(b[..n]), b[n])
  {
    assert b[..n + 1][..n] == b[..n];
  }

  /** Nothing counted: the whole limit is admitted. */
  lemma WholeLimitFits(s: State, c: Call)
    requires c.Check? && c.cost == c.limit >= 1 && s.window.Counted(c.now, c.at) == map[]
    ensures Next(s, c).history == s.history + [AdmissionOf(c)] && Next(s, c).window.expireAt == c.at + WINDOW
  {
  }

  lemma {:induction false} BeforeFirst(b: seq<Call>, n: nat)
    requires n <= |b| && forall k | 0 <= k < n :: b[k].Report?
    ensures Run(b[..n]).history == [] && Run(b[..n]).window.units == map[]
  {
    if n > 0 {
      BeforeFirst(b, n - 1);
      RunLast(b, n - 1);
    }
  }

  /** Reports change neither the history nor when the key expires. */
  lemma {:induction false} AcrossReports(b: seq<Call>, m: nat, n: nat)
    requires m <= n <= |b| && forall k | m <= k < n :: b[k].Report?
    ensures Run(b[..n]).history == Run(b[..m]).history && Run(b[..n]).window.expireAt == Run(b[..m]).window.expireAt
  {
    if m < n {
      AcrossReports(b, m, n - 1);
      RunLast(b, n - 1);
    }
  }

  predicate ChargesWhole(c: Call) { c.Check? && c.cost == c.limit >= 1 }

  lemma FirstCharge(b: seq<Call>, i: nat)
    requires i < |b| && ChargesWhole(b[i]) && forall k | 0 <= k < i :: b[k].Report?
    ensures Run(b[..i + 1]).history == [AdmissionOf(b[i])] && Run(b[..i + 1]).window.expireAt == b[i].at + WINDOW
  {
    BeforeFirst(b, i);
    RunLast(b, i);
    assert Pruned(map[], b[i].now - WINDOW) == map[];
    WholeLimitFits(Run(b[..i]), b[i]);
    assert [] + [AdmissionOf(b[i])] == [AdmissionOf(b[i])];
  }

  lemma SecondCharge(b: seq<Call>, m: nat, j: nat)
    requires m <= j < |b| && ChargesWhole(b[j]) && (forall k | m <= k < j :: b[k].Report?)
    requires Run(b[..m]).window.expireAt <= b[j].at
    ensures Run(b[..j + 1]).history == Run(b[..m]).history + [AdmissionOf(b[j])]
  {
    AcrossReports(b, m, j);
    RunLast(b, j);
    assert Pruned(map[], b[j].now - WINDOW) == map[];
    WholeLimitFits(Run(b[..j]), b[j]);
  }

  /** Both charges are admitted: the key has expired by the second. */
  lemma ProbeAdmitsBoth(b: seq<Call>, i: nat, j: nat)
    requires i < j < |b| && forall k | 0 <= k < |b| && k != i && k != j :: b[k].Report?
    requires ChargesWhole(b[i]) && ChargesWhole(b[j]) && b[j].at - b[i].at >= WINDOW
    ensures Run(b).history == [AdmissionOf(b[i]), AdmissionOf(b[j])]
  {
    assert b[..|b|] == b;
    FirstCharge(b, i);
    SecondCharge(b, i + 1, j);
    assert Run(b).history == Run(b[..j + 1]).history by { AcrossReports(b, j + 1, |b|); }
  }

  lemma CostOfTwo(x: Admission, y: Admission, cutoff: real, end: real)
    requires cutoff < x.now <= end && cutoff < y.now <= end
    ensures CostIn([x, y], cutoff, end) == x.cost + y.cost
  {
    var h := [x, y];
    assert h[..1] == [x] && [x][..0] == [];
    assert CostIn([], cutoff, end) == 0;
    assert CostIn([x], cutoff, end) == x.cost;
  }

  /** Two calls out of step: charging the whole limit at both puts twice the limit into one window. */
  lemma OutOfStepOverfills(calls: seq<Call>, i: nat, j: nat, limit: int)
    requires Clocked(calls) && limit >= 1 && i < j < |calls|
    requires calls[j].at - calls[i].at >= WINDOW > calls[j].now - calls[i].now
    ensures var b := Probe(calls, i, j, limit);
            && SameClock(b, calls) && Clocked(b) && LimitsWithin(b, limit)
            && CostIn(Run(b).history, calls[j].now - WINDOW, calls[j].now) == 2 * limit
  {
    var b := Probe(calls, i, j, limit);
    ProbeAdmitsBoth(b, i, j);
    CostOfTwo(AdmissionOf(b[i]), AdmissionOf(b[j]), calls[j].now - WINDOW, calls[j].now);
  }

  /** The window bound holds, whatever is asked at these clock readings, if and only if the clocks are in step. */
  lemma WindowBoundExactly(calls: seq<Call>, limit: int)
    requires Clocked(calls) && limit >= 1
    ensures AlwaysWithin(calls, limit) <==> InStep(calls)
  {
    if InStep(calls) {
      forall b, t | SameClock(b, calls) && Clocked(b) && LimitsWithin(b, limit)
        ensures Within(Run(b).history, t, limit)
      {
        WindowBound(b, t, limit);
      }
    } else {
      var i, j :| 0 <= i < j < |calls| && calls[j].at - calls[i].at >= WINDOW && calls[j].now - calls[i].now < WINDOW;
      OutOfStepOverfills(calls, i, j, limit);
      assert !Within(Run(Probe(calls, i, j, limit)).history, calls[j].now, limit);
    }
  }

  /** Half a second of delay before the script runs is enough. */
  lemma LateScriptOverAdmits()
    ensures var calls := [Check(0, 0.0, 0.0, 1, 1), Check(1, 59.5, 60.0, 1, 1)];
            Clocked(calls) && !InStep(calls) && CostIn(Run(calls).history, 59.5 - 60.0, 59.5) == 2
  {
    var calls := [Check(0, 0.0, 0.0, 1, 1), Check(1, 59.5, 60.0, 1, 1)];
    OutOfStepOverfills(calls, 0, 1, 1);
    assert Probe(calls, 0, 1, 1) == calls;
  }
}
