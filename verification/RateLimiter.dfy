/** Per-key window counters, the sweep that discards old ones, and the bound on
    what they let through. Times are readings of one non-decreasing clock. */
module RateLimiting {
  import opened Wrappers

  type Key = string

  datatype Attempt = Attempt(count: nat, first: int)

  type Table = map<Key, Attempt>

  datatype Limit = Limit(max: int, window: nat)

  predicate Expired(lim: Limit, a: Attempt, now: int) {
    now - a.first > lim.window
  }

  /** One call against one key's counter: the counter after it, and the answer. */
  function Ask(lim: Limit, slot: Option<Attempt>, now: int): (Attempt, bool) {
    if slot.Some? && !Expired(lim, slot.value, now)
    then (Attempt(slot.value.count + 1, slot.value.first), slot.value.count + 1 <= lim.max)
    else (Attempt(1, now), true)
  }

  function SlotOf(t: Table, key: Key): Option<Attempt> {
    if key in t then Some(t[key]) else None
  }

  function Swept(lim: Limit, t: Table, now: int): Table {
    map k | k in t && !Expired(lim, t[k], now) :: t[k]
  }

  class RateLimiter {
    const lim: Limit
    var attempts: Table

    constructor (max: int, window: nat)
      requires window > 0
      ensures lim == Limit(max, window) && attempts == map[]
    {
      lim := Limit(max, window);
      attempts := map[];
    }

    method Allow(key: Key, now: int) returns (ok: bool)
      modifies this
      ensures attempts == old(attempts)[key := Ask(lim, SlotOf(old(attempts), key), now).0]
      ensures ok == Ask(lim, SlotOf(old(attempts), key), now).1
    {
      var found := key in attempts;
      if found && now - attempts[key].first > lim.window {
        attempts := attempts - {key};
        found := false;
      }
      if !found {
        attempts := attempts[key := Attempt(1, now)];
        return true;
      }
      var a := attempts[key];
      attempts := attempts[key := a.(count := a.count + 1)];
      return a.count + 1 <= lim.max;
    }

    /** One tick of the cleanup loop. */
    method Sweep(now: int)
      modifies this
      ensures attempts == Swept(lim, old(attempts), now)
      ensures forall k :: k in attempts <==> k in old(attempts) && now - old(attempts)[k].first <= lim.window
      ensures forall k | k in attempts :: attempts[k] == old(attempts)[k]
    {
      var rest := attempts.Keys;
      while rest != {}
        invariant rest <= attempts.Keys <= old(attempts).Keys
        invariant forall k | k in attempts :: attempts[k] == old(attempts)[k]
        invariant forall k | k in old(attempts) && k !in rest ::
          k in attempts <==> !Expired(lim, old(attempts)[k], now)
        decreases rest
      {
        var key :| key in rest;
        if now - attempts[key].first > lim.window {
          attempts := attempts - {key};
        }
        rest := rest - {key};
      }
    }
  }

  // ---------- runs ----------

  datatype Event = Call(key: Key, now: int) | Tick(now: int)

  function Step(lim: Limit, t: Table, e: Event): Table {
    match e
    case Call(key, now) => t[key := Ask(lim, SlotOf(t, key), now).0]
    case Tick(now) => Swept(lim, t, now)
  }

  function Run(lim: Limit, t: Table, es: seq<Event>): Table {
    if es == [] then t else Step(lim, Run(lim, t, es[..|es| - 1]), es[|es| - 1])
  }

  function Answer(lim: Limit, t: Table, key: Key, now: int): bool {
    Ask(lim, SlotOf(t, key), now).1
  }

  ghost predicate InOrder(es: seq<Event>) {
    forall i, j | 0 <= i < j < |es| :: es[i].now <= es[j].now
  }

  function Calls(es: seq<Event>): seq<Event> {
    if es == [] then [] else
      Calls(es[..|es| - 1]) + if es[|es| - 1].Call? then [es[|es| - 1]] else []
  }

  // ---------- cleanup is invisible ----------

  /** The swept table holds what the other holds, but for keys that have expired. */
  ghost predicate Simulates(lim: Limit, swept: Table, full: Table, now: int) {
    && (forall k | k in swept :: k in full && swept[k] == full[k])
    && (forall k | k in full && k !in swept :: Expired(lim, full[k], now))
  }

  lemma SimulationGivesTheAnswer(lim: Limit, swept: Table, full: Table, now: int, key: Key)
    requires Simulates(lim, swept, full, now)
    ensures Ask(lim, SlotOf(swept, key), now) == Ask(lim, SlotOf(full, key), now)
  {
  }

  lemma {:induction false} RunsSimulate(lim: Limit, t: Table, es: seq<Event>, now: int)
    requires InOrder(es) && forall i | 0 <= i < |es| :: es[i].now <= now
    ensures Simulates(lim, Run(lim, t, es), Run(lim, t, Calls(es)), now)
  {
    if es != [] {
      var front, e := es[..|es| - 1], es[|es| - 1];
      RunsSimulate(lim, t, front, e.now);
      var swept, full := Run(lim, t, front), Run(lim, t, Calls(front));
      if e.Call? {
        assert Calls(es)[..|Calls(es)| - 1] == Calls(front);
        SimulationGivesTheAnswer(lim, swept, full, e.now, e.key);
      } else {
        assert Calls(es) == Calls(front);
      }
    }
  }

  /** Sweeps inserted at any moments change no answer to any call. */
  lemma SweepsAreInvisible(lim: Limit, t: Table, es: seq<Event>, key: Key, now: int)
    requires InOrder(es + [Call(key, now)])
    ensures Answer(lim, Run(lim, t, es), key, now) == Answer(lim, Run(lim, t, Calls(es)), key, now)
  {
    var all := es + [Call(key, now)];
    forall i | 0 <= i < |es| ensures es[i].now <= now {
      assert all[i].now <= all[|es|].now;
    }
    forall i, j | 0 <= i < j < |es| ensures es[i].now <= es[j].now {
      assert all[i].now <= all[j].now;
    }
    RunsSimulate(lim, t, es, now);
    SimulationGivesTheAnswer(lim, Run(lim, t, es), Run(lim, t, Calls(es)), now, key);
  }

  /** Yet a sweep does its work: whatever the run before it, it leaves exactly the
      counters not older than the window, as they were. */
  lemma SweepsForget(lim: Limit, t: Table, es: seq<Event>, now: int)
    ensures var was, left := Run(lim, t, es), Run(lim, t, es + [Tick(now)]);
      && (forall k :: k in left <==> k in was && now - was[k].first <= lim.window)
      && (forall k | k in left :: left[k] == was[k])
  {
    assert (es + [Tick(now)])[..|es|] == es;
  }

  // ---------- one key's calls ----------

  /** The times at which a key was called. */
  function Times(es: seq<Event>, key: Key): seq<int> {
    if es == [] then [] else
      var e := es[|es| - 1];
      Times(es[..|es| - 1], key) + if e.Call? && e.key == key then [e.now] else []
  }

  ghost predicate Ascending(ts: seq<int>) {
    forall i, j | 0 <= i < j < |ts| :: ts[i] <= ts[j]
  }

  function SlotAfter(lim: Limit, ts: seq<int>): (slot: Option<Attempt>)
    ensures slot.None? <==> ts == []
  {
    if ts == [] then None else
      Some(Ask(lim, SlotAfter(lim, ts[..|ts| - 1]), ts[|ts| - 1]).0)
  }

  predicate Admitted(lim: Limit, ts: seq<int>, i: nat)
    requires i < |ts|
  {
    Ask(lim, SlotAfter(lim, ts[..i]), ts[i]).1
  }

  lemma {:induction false} KeysAreIndependent(lim: Limit, es: seq<Event>, key: Key)
    ensures SlotOf(Run(lim, map[], Calls(es)), key) == SlotAfter(lim, Times(es, key))
  {
    if es != [] {
      var front, e := es[..|es| - 1], es[|es| - 1];
      KeysAreIndependent(lim, front, key);
      if e.Call? {
        assert Calls(es)[..|Calls(es)| - 1] == Calls(front);
        if e.key == key {
          assert Times(es, key)[..|Times(es, key)| - 1] == Times(front, key);
        } else {
          assert Times(es, key) == Times(front, key);
        }
      } else {
        assert Calls(es) == Calls(front) && Times(es, key) == Times(front, key);
      }
    }
  }

  /** The answer to a call depends only on the times of that key's calls. */
  lemma AnswersArePerKey(lim: Limit, es: seq<Event>, key: Key, now: int)
    requires InOrder(es + [Call(key, now)])
    ensures Answer(lim, Run(lim, map[], es), key, now) ==
            Admitted(lim, Times(es, key) + [now], |Times(es, key)|)
  {
    SweepsAreInvisible(lim, map[], es, key, now);
    KeysAreIndependent(lim, es, key);
    assert (Times(es, key) + [now])[..|Times(es, key)|] == Times(es, key);
  }

  // ---------- the rule behind the counters ----------

  /** A call opens a window if it comes more than `window` after every call that
      opened one before it. */
  predicate Opens(lim: Limit, ts: seq<int>, i: nat)
    requires i < |ts|
    decreases i
  {
    forall o: nat | o < i && Opens(lim, ts, o) :: ts[i] - ts[o] > lim.window
  }

  /** The call that opened the window call `i` falls in. */
  function Opener(lim: Limit, ts: seq<int>, i: nat): (o: nat)
    requires i < |ts|
    ensures o <= i && Opens(lim, ts, o)
    ensures forall x: nat | o < x <= i :: !Opens(lim, ts, x)
  {
    if Opens(lim, ts, i) then i else Opener(lim, ts, i - 1)
  }

  lemma {:induction false} CounterCountsSinceOpener(lim: Limit, ts: seq<int>, n: nat)
    requires Ascending(ts) && 0 < n <= |ts|
    ensures var o := Opener(lim, ts, n - 1);
      SlotAfter(lim, ts[..n]) == Some(Attempt(n - o, ts[o]))
  {
    assert ts[..n][..n - 1] == ts[..n - 1];
    if n > 1 {
      CounterCountsSinceOpener(lim, ts, n - 1);
      OpensAfterTheLast(lim, ts, n - 1);
    }
  }

  lemma OpensAfterTheLast(lim: Limit, ts: seq<int>, i: nat)
    requires Ascending(ts) && 0 < i < |ts|
    ensures Opens(lim, ts, i) <==> ts[i] - ts[Opener(lim, ts, i - 1)] > lim.window
  {
  }

  /** A call is admitted exactly when it opens a window or is among the first
      `max` of the window it falls in. */
  lemma AdmissionRule(lim: Limit, ts: seq<int>, i: nat)
    requires Ascending(ts) && i < |ts|
    ensures Admitted(lim, ts, i) <==> Opens(lim, ts, i) || i - Opener(lim, ts, i) + 1 <= lim.max
  {
    if i > 0 {
      CounterCountsSinceOpener(lim, ts, i);
      OpensAfterTheLast(lim, ts, i);
    }
  }

  lemma {:induction false} TimesAscend(es: seq<Event>, key: Key, now: int)
    requires InOrder(es) && forall i | 0 <= i < |es| :: es[i].now <= now
    ensures Ascending(Times(es, key))
    ensures forall i | 0 <= i < |Times(es, key)| :: Times(es, key)[i] <= now
  {
    if es != [] {
      TimesAscend(es[..|es| - 1], key, es[|es| - 1].now);
    }
  }

  /** The rule for the limiter itself: in a run of calls of any keys mixed with
      sweeps, a call of `key` is admitted exactly when, among that key's calls
      alone, it opens a window or is among the first `max` of its window. */
  lemma RunAdmissionRule(lim: Limit, es: seq<Event>, key: Key, now: int)
    requires InOrder(es + [Call(key, now)])
    ensures var ts := Times(es, key) + [now];
      var i := |ts| - 1;
      Answer(lim, Run(lim, map[], es), key, now) <==> Opens(lim, ts, i) || i - Opener(lim, ts, i) + 1 <= lim.max
  {
    var all := es + [Call(key, now)];
    assert forall i | 0 <= i < |es| :: es[i] == all[i] && all[i].now <= all[|es|].now;
    TimesAscend(es, key, now);
    AnswersArePerKey(lim, es, key, now);
    AdmissionRule(lim, Times(es, key) + [now], |Times(es, key)|);
  }

  // ---------- the rate over arbitrary intervals ----------

  /** How many of the calls at times in [a, b] are admitted. */
  function Count(lim: Limit, ts: seq<int>, a: int, b: int): nat {
    if ts == [] then 0 else
      var n := |ts| - 1;
      Count(lim, ts[..n], a, b) + if a <= ts[n] <= b && Admitted(lim, ts, n) then 1 else 0
  }

  /** What one window can admit: its opener even when `max` is below 1. */
  function Cap(lim: Limit): (c: nat)
    ensures c >= 1
  {
    if lim.max < 1 then 1 else lim.max
  }

  /** The most that windows opened before a time `x` into an interval, when a
      window opens there, can have admitted inside the interval. A window opens
      at the earliest `window + 1` after the last; one that opened before the
      interval cannot have its opening call counted. */
  function Before(lim: Limit, x: nat): nat {
    if x == 0 then 0
    else if x <= lim.window then Cap(lim) - 1
    else Before(lim, x - (lim.window + 1)) + Cap(lim)
  }

  lemma {:induction false} BeforeGrows(lim: Limit, x: nat, y: nat)
    requires x <= y
    ensures Before(lim, x) <= Before(lim, y)
  {
    if x > lim.window {
      BeforeGrows(lim, x - (lim.window + 1), y - (lim.window + 1));
    }
  }

  function CeilDiv(x: nat, w: nat): nat
    requires w > 0
  {
    (x + w - 1) / w
  }

  lemma CeilDivStep(x: nat, w: nat)
    requires 0 < w <= x
    ensures CeilDiv(x, w) == CeilDiv(x - w, w) + 1 && x % w == (x - w) % w
  {
    DivModShift(x + w - 1, w);
    DivModShift(x, w);
  }

  lemma DivModShift(x: nat, w: nat)
    requires 0 < w <= x
    ensures x / w == (x - w) / w + 1 && x % w == (x - w) % w
  {
    var q, r := (x - w) / w, (x - w) % w;
    assert x == w * (q + 1) + r;
    DivModUnique(x, w, q + 1, r);
  }

  lemma DivModUnique(x: nat, w: nat, q: nat, r: nat)
    requires 0 < w && r < w && x == w * q + r
    ensures x / w == q && x % w == r
  {
    if q + 1 <= x / w {
      MulMonotone(q + 1, x / w, w);
      assert false;
    }
    if x / w + 1 <= q {
      MulMonotone(x / w + 1, q, w);
      assert false;
    }
  }

  lemma MulMonotone(x: nat, y: nat, w: nat)
    requires x <= y
    ensures x * w <= y * w
  {
  }

  /** The bound of an interval that ends where a window opens, in closed form. */
  function Most(lim: Limit, span: nat): int {
    Cap(lim) * (CeilDiv(span, lim.window + 1) + 1) - if span % (lim.window + 1) == 0 then 0 else 1
  }

  lemma SmallDiv(x: nat, w: nat)
    requires 0 < x < w
    ensures CeilDiv(x, w) == 1 && x % w == x
  {
    DivModUnique(x + w - 1, w, 1, x - 1);
    DivModUnique(x, w, 0, x);
  }

  lemma {:induction false} MostIsBefore(lim: Limit, span: nat)
    ensures Most(lim, span) == Before(lim, span) + Cap(lim)
  {
    var w, cap := lim.window + 1, Cap(lim);
    if span == 0 {
      DivModUnique(w - 1, w, 0, w - 1);
      DivModUnique(0, w, 0, 0);
    } else if span < w {
      SmallDiv(span, w);
    } else {
      CeilDivStep(span, w);
      MostIsBefore(lim, span - w);
      var c := CeilDiv(span - w, w);
      assert cap * (c + 2) == cap * (c + 1) + cap;
    }
  }

  function Used(lim: Limit, a: Attempt): nat {
    if a.count < Cap(lim) then a.count else Cap(lim)
  }

  /** The running bound: what has been admitted since `a` when the current window
      was opened at `w.first`. */
  ghost predicate Bounded(lim: Limit, n: nat, w: Attempt, a: int, last: int) {
    && w.count >= 1 && w.first <= last
    && (n > 0 ==> last >= a)
    && (w.first < a ==> n <= Used(lim, w) - 1 && (n > 0 ==> w.first + lim.window >= a))
    && (w.first >= a ==> n <= Before(lim, w.first - a) + Used(lim, w))
  }

  lemma BoundedStep(lim: Limit, n: nat, w: Attempt, a: int, last: int, now: int)
    requires Bounded(lim, n, w, a, last) && last <= now
    ensures var r := Ask(lim, Some(w), now);
      Bounded(lim, n + if a <= now && r.1 then 1 else 0, r.0, a, now)
  {
    if Expired(lim, w, now) && now >= a {
      if w.first >= a {
        BeforeGrows(lim, w.first - a + lim.window + 1, now - a);
      } else if n > 0 {
        BeforeGrows(lim, 1, now - a);
      }
    }
  }

  lemma {:induction false} CountIsBounded(lim: Limit, ts: seq<int>, a: int, b: int)
    requires Ascending(ts) && ts != [] && ts[|ts| - 1] <= b
    ensures Bounded(lim, Count(lim, ts, a, b), SlotAfter(lim, ts).value, a, ts[|ts| - 1])
  {
    var n := |ts| - 1;
    if n == 0 {
      assert Count(lim, ts[..0], a, b) == 0;
    } else {
      CountIsBounded(lim, ts[..n], a, b);
      BoundedStep(lim, Count(lim, ts[..n], a, b), SlotAfter(lim, ts[..n]).value, a, ts[n - 1], ts[n]);
    }
  }

  /** In any closed interval of length `span` at most
      cap * (ceil(span / (window + 1)) + 1) calls of a key are admitted, and one
      fewer unless `span` is a multiple of window + 1. */
  lemma {:induction false} RateBound(lim: Limit, ts: seq<int>, a: int, span: nat)
    requires Ascending(ts)
    ensures Count(lim, ts, a, a + span) <= Most(lim, span)
  {
    MostIsBefore(lim, span);
    if ts == [] {
    } else if ts[|ts| - 1] > a + span {
      RateBound(lim, ts[..|ts| - 1], a, span);
    } else {
      CountIsBounded(lim, ts, a, a + span);
      var w := SlotAfter(lim, ts).value;
      if w.first >= a {
        BeforeGrows(lim, w.first - a, span);
      }
    }
  }

  /** How many calls of `key` in [a, b] a run of calls and sweeps admits. */
  function CountRun(lim: Limit, es: seq<Event>, key: Key, a: int, b: int): nat {
    if es == [] then 0 else
      var front, e := es[..|es| - 1], es[|es| - 1];
      CountRun(lim, front, key, a, b)
      + if e.Call? && e.key == key && a <= e.now <= b && Answer(lim, Run(lim, map[], front), key, e.now) then 1 else 0
  }

  lemma CountLast(lim: Limit, ts: seq<int>, now: int, a: int, b: int)
    ensures Count(lim, ts + [now], a, b) ==
            Count(lim, ts, a, b) + if a <= now <= b && Admitted(lim, ts + [now], |ts|) then 1 else 0
  {
  }

  lemma {:induction false} CountRunIsPerKey(lim: Limit, es: seq<Event>, key: Key, a: int, b: int)
    requires InOrder(es)
    ensures CountRun(lim, es, key, a, b) == Count(lim, Times(es, key), a, b)
  {
    if es != [] {
      var front, e := es[..|es| - 1], es[|es| - 1];
      CountRunIsPerKey(lim, front, key, a, b);
      if e.Call? && e.key == key {
        assert front + [Call(key, e.now)] == es;
        AnswersArePerKey(lim, front, key, e.now);
        CountLast(lim, Times(front, key), e.now, a, b);
      } else {
        assert Times(es, key) == Times(front, key);
      }
    }
  }

  /** The same bound for every run that mixes calls of any keys with sweeps. */
  lemma RunRateBound(lim: Limit, es: seq<Event>, key: Key, a: int, span: nat)
    requires InOrder(es)
    ensures CountRun(lim, es, key, a, a + span) <= Most(lim, span)
  {
    CountRunIsPerKey(lim, es, key, a, a + span);
    if es != [] { TimesAscend(es, key, es[|es| - 1].now); }
    RateBound(lim, Times(es, key), a, span);
  }

  // ---------- the bound is attained ----------

  function Repeat(t: int, n: nat): (ts: seq<int>)
    ensures |ts| == n && forall i | 0 <= i < n :: ts[i] == t
  {
    if n == 0 then [] else Repeat(t, n - 1) + [t]
  }

  lemma RepeatOnce(ts: seq<int>, t: int, n: nat)
    ensures ts + Repeat(t, n + 1) == ts + Repeat(t, n) + [t]
  {
  }

  lemma SlotLast(lim: Limit, ts: seq<int>, t: int)
    ensures SlotAfter(lim, ts + [t]) == Some(Ask(lim, SlotAfter(lim, ts), t).0)
  {
  }

  /** Further calls inside the window `ts` ends in. */
  lemma {:induction false} FillSlot(lim: Limit, ts: seq<int>, t: int, n: nat)
    requires ts != [] && !Expired(lim, SlotAfter(lim, ts).value, t)
    ensures var w := SlotAfter(lim, ts).value;
      SlotAfter(lim, ts + Repeat(t, n)) == Some(Attempt(w.count + n, w.first))
  {
    if n == 0 {
      assert ts + Repeat(t, n) == ts;
    } else {
      FillSlot(lim, ts, t, n - 1);
      RepeatOnce(ts, t, n - 1);
      SlotLast(lim, ts + Repeat(t, n - 1), t);
    }
  }

  lemma {:induction false} FillCount(lim: Limit, ts: seq<int>, t: int, n: nat, a: int, b: int)
    requires ts != [] && !Expired(lim, SlotAfter(lim, ts).value, t) && a <= t <= b
    requires n == 0 || SlotAfter(lim, ts).value.count + n <= lim.max
    ensures Count(lim, ts + Repeat(t, n), a, b) == Count(lim, ts, a, b) + n
  {
    if n == 0 {
      assert ts + Repeat(t, n) == ts;
    } else {
      var part := ts + Repeat(t, n - 1);
      FillCount(lim, ts, t, n - 1, a, b);
      FillSlot(lim, ts, t, n - 1);
      RepeatOnce(ts, t, n - 1);
      OneMore(lim, part, t, a, b);
    }
  }

  /** One more call in the window `ts` ends in, if the window has room. */
  lemma OneMore(lim: Limit, ts: seq<int>, t: int, a: int, b: int)
    requires ts != [] && !Expired(lim, SlotAfter(lim, ts).value, t) && a <= t <= b
    requires SlotAfter(lim, ts).value.count + 1 <= lim.max
    ensures Count(lim, ts + [t], a, b) == Count(lim, ts, a, b) + 1
  {
    CountLast(lim, ts, t, a, b);
  }

  /** The window `ts` ends in, if any, is over at `t`. */
  predicate Over(lim: Limit, ts: seq<int>, t: int) {
    ts == [] || Expired(lim, SlotAfter(lim, ts).value, t)
  }

  lemma OpeningCounts(lim: Limit, ts: seq<int>, t: int, a: int, b: int)
    requires Over(lim, ts, t)
    ensures SlotAfter(lim, ts + [t]) == Some(Attempt(1, t))
    ensures Count(lim, ts + [t], a, b) == Count(lim, ts, a, b) + if a <= t <= b then 1 else 0
  {
    SlotLast(lim, ts, t);
    CountLast(lim, ts, t, a, b);
  }

  /** A window opened at `t` and then filled at `u`: its opening call counts if it
      is inside the interval. */
  lemma WindowFills(lim: Limit, ts: seq<int>, t: int, u: int, a: int, b: int)
    requires Over(lim, ts, t) && t <= u <= t + lim.window && a <= u <= b
    ensures var more := ts + [t] + Repeat(u, Cap(lim) - 1);
      && SlotAfter(lim, more) == Some(Attempt(Cap(lim), t))
      && Count(lim, more, a, b) == Count(lim, ts, a, b) + Cap(lim) - if a <= t then 0 else 1
  {
    OpeningCounts(lim, ts, t, a, b);
    FillSlot(lim, ts + [t], u, Cap(lim) - 1);
    FillCount(lim, ts + [t], u, Cap(lim) - 1, a, b);
  }

  /** A window opened and filled at once. */
  function Full(lim: Limit, t: int): seq<int> {
    [t] + Repeat(t, Cap(lim) - 1)
  }

  lemma FullCounts(lim: Limit, ts: seq<int>, t: int, a: int, b: int)
    requires Over(lim, ts, t) && a <= t <= b
    ensures SlotAfter(lim, ts + Full(lim, t)) == Some(Attempt(Cap(lim), t))
    ensures Count(lim, ts + Full(lim, t), a, b) == Count(lim, ts, a, b) + Cap(lim)
  {
    WindowFills(lim, ts, t, t, a, b);
    assert ts + [t] + Repeat(t, Cap(lim) - 1) == ts + Full(lim, t);
  }

  /** A window opened before the interval and filled inside it, just before the
      next one may open. */
  function Straddling(lim: Limit, next: int): seq<int> {
    [next - (lim.window + 1)] + Repeat(next - 1, Cap(lim) - 1)
  }

  lemma StraddlingCounts(lim: Limit, next: int, a: int, b: int)
    requires next - (lim.window + 1) < a < next <= b
    ensures SlotAfter(lim, Straddling(lim, next)) == Some(Attempt(Cap(lim), next - (lim.window + 1)))
    ensures Count(lim, Straddling(lim, next), a, b) == Cap(lim) - 1
  {
    var t := next - (lim.window + 1);
    WindowFills(lim, [], t, next - 1, a, b);
    assert [] + [t] == [t];
  }

  ghost predicate UpTo(ts: seq<int>, t: int) {
    Ascending(ts) && forall i | 0 <= i < |ts| :: ts[i] <= t
  }

  lemma FullAscends(lim: Limit, ts: seq<int>, t: int, u: int)
    requires UpTo(ts, t) && t <= u
    ensures UpTo(ts + Full(lim, u), u)
  {
    var more := Full(lim, u);
    assert forall i | 0 <= i < |more| :: more[i] == u;
  }

  lemma StraddlingAscends(lim: Limit, next: int)
    ensures UpTo(Straddling(lim, next), next - 1)
  {
    var ts := Straddling(lim, next);
    assert forall i | 0 <= i < |ts| :: ts[i] == if i == 0 then next - (lim.window + 1) else next - 1;
  }

  /** Calls up to `t` that end in a window opened at `t` and filled, `n` of them
      admitted in [a, b]. */
  ghost predicate Fills(lim: Limit, ts: seq<int>, t: int, a: int, b: int, n: nat) {
    UpTo(ts, t) && SlotAfter(lim, ts) == Some(Attempt(Cap(lim), t)) && Count(lim, ts, a, b) == n
  }

  lemma FirstWindow(lim: Limit, a: int, b: int)
    requires a <= b
    ensures Fills(lim, [] + Full(lim, a), a, a, b, Cap(lim))
  {
    FullCounts(lim, [], a, a, b);
    FullAscends(lim, [], a, a);
  }

  lemma StraddledWindow(lim: Limit, t: int, a: int, b: int)
    requires a < t <= a + lim.window && t <= b
    ensures Fills(lim, Straddling(lim, t) + Full(lim, t), t, a, b, Cap(lim) - 1 + Cap(lim))
  {
    StraddlingCounts(lim, t, a, b);
    FullCounts(lim, Straddling(lim, t), t, a, b);
    StraddlingAscends(lim, t);
    FullAscends(lim, Straddling(lim, t), t - 1, t);
  }

  lemma NextWindowCounts(lim: Limit, ts: seq<int>, t: int, u: int, a: int, b: int)
    requires SlotAfter(lim, ts) == Some(Attempt(Cap(lim), t)) && t + lim.window < u && a <= u <= b
    ensures SlotAfter(lim, ts + Full(lim, u)) == Some(Attempt(Cap(lim), u))
    ensures Count(lim, ts + Full(lim, u), a, b) == Count(lim, ts, a, b) + Cap(lim)
  {
    FullCounts(lim, ts, u, a, b);
  }

  lemma NextWindow(lim: Limit, ts: seq<int>, t: int, u: int, a: int, b: int, n: nat)
    requires Fills(lim, ts, t, a, b, n) && t + lim.window < u && a <= u <= b
    ensures Fills(lim, ts + Full(lim, u), u, a, b, n + Cap(lim))
  {
    NextWindowCounts(lim, ts, t, u, a, b);
    FullAscends(lim, ts, t, u);
  }

  ghost predicate Fillable(lim: Limit, t: int, a: int, b: int, n: nat) {
    exists ts :: Fills(lim, ts, t, a, b, n)
  }

  lemma NextIsFillable(lim: Limit, t: int, a: int, b: int, n: nat)
    requires Fillable(lim, t, a, b, n) && a <= t + lim.window + 1 <= b
    ensures Fillable(lim, t + lim.window + 1, a, b, n + Cap(lim))
  {
    var ts :| Fills(lim, ts, t, a, b, n);
    NextWindow(lim, ts, t, t + lim.window + 1, a, b, n);
  }

  /** Some calls use an interval of length `span` from `a` to the full: windows
      opened as late as possible and each filled at once, the first of them, if
      that gains a call, opened before the interval. */
  lemma {:induction false} IntervalIsFillable(lim: Limit, a: int, span: nat, b: int)
    requires a + span <= b
    ensures Fillable(lim, a + span, a, b, Before(lim, span) + Cap(lim))
  {
    if span == 0 {
      FirstWindow(lim, a, b);
    } else if span <= lim.window {
      StraddledWindow(lim, a + span, a, b);
    } else {
      var less := span - (lim.window + 1);
      IntervalIsFillable(lim, a, less, b);
      NextIsFillable(lim, a + less, a, b, Before(lim, less) + Cap(lim));
    }
  }

  /** A run that calls one key at the given times. */
  function CallsAt(key: Key, ts: seq<int>): (es: seq<Event>)
    ensures |es| == |ts| && forall i | 0 <= i < |es| :: es[i] == Call(key, ts[i])
  {
    if ts == [] then [] else CallsAt(key, ts[..|ts| - 1]) + [Call(key, ts[|ts| - 1])]
  }

  lemma {:induction false} CallsAreAt(key: Key, ts: seq<int>)
    ensures Times(CallsAt(key, ts), key) == ts
  {
    if ts != [] {
      CallsAreAt(key, ts[..|ts| - 1]);
      assert CallsAt(key, ts)[..|ts| - 1] == CallsAt(key, ts[..|ts| - 1]);
    }
  }

  lemma CountAt(lim: Limit, key: Key, ts: seq<int>, t: int, a: int, b: int)
    requires UpTo(ts, t)
    ensures InOrder(CallsAt(key, ts)) && CountRun(lim, CallsAt(key, ts), key, a, b) == Count(lim, ts, a, b)
  {
    CallsAreAt(key, ts);
    CountRunIsPerKey(lim, CallsAt(key, ts), key, a, b);
  }

  /** The bound is sharp: for every limit, every window and every closed interval
      there is a run of which exactly that many calls are admitted inside it. */
  lemma BoundIsAttained(lim: Limit, key: Key, a: int, span: nat)
    ensures exists es :: InOrder(es) && CountRun(lim, es, key, a, a + span) == Most(lim, span)
  {
    MostIsBefore(lim, span);
    IntervalIsFillable(lim, a, span, a + span);
    var ts :| Fills(lim, ts, a + span, a, a + span, Before(lim, span) + Cap(lim));
    CountAt(lim, key, ts, a + span, a, a + span);
  }

  lemma CeilDivFalls(x: nat, w: nat)
    requires w > 0
    ensures CeilDiv(x, w + 1) <= CeilDiv(x, w)
  {
    var c, d := CeilDiv(x, w), CeilDiv(x, w + 1);
    assert x <= c * w && d * (w + 1) <= x + w;
    assert (c + 1) * (w + 1) == c * w + c + w + 1;
    if c + 1 <= d {
      MulMonotone(c + 1, d, w + 1);
      assert false;
    }
  }

  lemma MostInWindows(lim: Limit, span: nat)
    requires lim.window > 0
    ensures Most(lim, span) <= Cap(lim) * (CeilDiv(span, lim.window) + 1)
  {
    var c, d := CeilDiv(span, lim.window + 1) + 1, CeilDiv(span, lim.window) + 1;
    CeilDivFalls(span, lim.window);
    MulMonotone(c, d, Cap(lim));
    assert c * Cap(lim) == Cap(lim) * c && d * Cap(lim) == Cap(lim) * d;
  }

  /** In terms of whole windows: at most cap * (ceil(span / window) + 1). */
  lemma RateInWindows(lim: Limit, es: seq<Event>, key: Key, a: int, span: nat)
    requires lim.window > 0 && InOrder(es)
    ensures CountRun(lim, es, key, a, a + span) <= Cap(lim) * (CeilDiv(span, lim.window) + 1)
  {
    RunRateBound(lim, es, key, a, span);
    MostInWindows(lim, span);
  }
}
