/** Any number of devices and one server, interleaved at the grain of single
    local writes and remote calls, with rounds aborted anywhere. */
module Convergence {
  import opened Wrappers
  import opened VersionCodec
  import opened Buckets
  import opened LocalStore
  import opened SyncPolicy
  import opened SyncServer
  import opened SyncRound
  import opened Recovery
  import opened SyncTrace
  import opened SyncLaws

  datatype Dev = Dev(local: Local, phase: Phase)
  datatype Sys = Sys(rows: Rows, devs: map<nat, Dev>)

  datatype Move =
    | Add(d: nat, id: Id, rev: Rev)  // a new entry, or a newer version of one the device holds
    | Mark(d: nat, id: Id)           // mark an entry for deletion
    | Do(d: nat, e: Event)           // one step of the device's sync round

  ghost function Play(s: Sys, m: Move): Option<Sys> {
    if m.d !in s.devs then None else
    var dev := s.devs[m.d];
    match m
    case Add(d, id, rev) =>
      if dev.phase.Idle? && 0 < rev.version && (id in dev.local.versions ==> dev.local.versions[id] < rev.version)
      then Some(s.(devs := s.devs[d := Dev(
        Local(dev.local.entries[id := rev.data], dev.local.versions[id := rev.version]), Idle)]))
      else None
    case Mark(d, id) =>
      if dev.phase.Idle?
      then Some(s.(devs := s.devs[d := Dev(dev.local.(versions := dev.local.versions[id := -1]), Idle)]))
      else None
    case Do(d, e) =>
      match Fire(Cfg(dev.local, s.rows, dev.phase), e)
      case None => None
      case Some(c) => Some(Sys(c.rows, s.devs[d := Dev(c.local, c.phase)]))
  }

  ghost function PlayAll(s: Sys, ms: seq<Move>): Option<Sys> {
    if ms == [] then Some(s) else
      match PlayAll(s, ms[..|ms| - 1])
      case None => None
      case Some(t) => Play(t, ms[|ms| - 1])
  }

  // ---------- local versions ----------

  ghost predicate DistinctIds(todo: seq<Item>) {
    forall i, j | 0 <= i < j < |todo| :: todo[i].id != todo[j].id
  }

  /** The server's rule, asked of a local version and a pulled row. */
  ghost predicate Newer(vs: map<Id, int64>, x: Item) {
    x.id in vs ==> vs[x.id] < x.row.rev.version
  }

  /** Rows still to be pulled are newer than what the device holds, and only
      tombstones are being removed. */
  ghost predicate Ascending(dev: Dev) {
    var vs := dev.local.versions;
    match dev.phase
    case Pulling(todo, _) => DistinctIds(todo) && forall i | 0 <= i < |todo| :: Newer(vs, todo[i])
    case Deleting(toDelete) => forall id | id in toDelete :: id in vs && vs[id] == -1
    case Dropping(id, _, later) =>
      && id !in later && id in vs && vs[id] == -1
      && forall x | x in later :: x in vs && vs[x] == -1
    case _ => true
  }

  ghost predicate VersionRises(vs: map<Id, int64>, next: map<Id, int64>, id: Id) {
    id in vs && vs[id] > 0 ==> id in next && next[id] >= vs[id]
  }

  ghost predicate VersionsRise(vs: map<Id, int64>, next: map<Id, int64>) {
    forall id :: VersionRises(vs, next, id)
  }

  lemma SelectionIsNewer(items: seq<Item>, rows: Rows, vs: map<Id, int64>)
    requires IsSelection(items, rows, Watermark(vs))
    ensures DistinctIds(items) && forall i | 0 <= i < |items| :: Newer(vs, items[i])
  {
  }

  lemma TailIsNewer(todo: seq<Item>, vs: map<Id, int64>)
    requires todo != [] && DistinctIds(todo) && forall i | 0 <= i < |todo| :: Newer(vs, todo[i])
    ensures DistinctIds(todo[1..])
    ensures forall i | 0 <= i < |todo[1..]| :: Newer(vs, todo[1..][i])
    ensures forall i | 0 <= i < |todo[1..]| :: Newer(vs[todo[0].id := todo[0].row.rev.version], todo[1..][i])
  {
  }

  lemma StepsRaiseVersions(dev: Dev, rows: Rows, e: Event)
    requires Ascending(dev) && Fire(Cfg(dev.local, rows, dev.phase), e).Some?
    ensures var c := Fire(Cfg(dev.local, rows, dev.phase), e).value;
      Ascending(Dev(c.local, c.phase)) && VersionsRise(dev.local.versions, c.local.versions)
  {
    match e {
      case PullOk(items) => SelectionIsNewer(items, rows, dev.local.versions);
      case LocalWins => TailIsNewer(dev.phase.todo, dev.local.versions);
      case WriteVersion =>
        TailIsNewer(dev.phase.todo, dev.local.versions);
        assert Newer(dev.local.versions, dev.phase.todo[0]);
      case _ =>
    }
  }

  ghost predicate AllAscending(s: Sys) {
    forall x | x in s.devs :: Ascending(s.devs[x])
  }

  lemma MovesAscend(s: Sys, m: Move)
    requires AllAscending(s) && Play(s, m).Some?
    ensures AllAscending(Play(s, m).value)
  {
    if m.Do? {
      StepsRaiseVersions(s.devs[m.d], s.rows, m.e);
    }
  }

  lemma {:induction false} RunsAscend(s: Sys, ms: seq<Move>)
    requires forall x | x in s.devs :: s.devs[x].phase == Idle
    requires PlayAll(s, ms).Some?
    ensures AllAscending(PlayAll(s, ms).value)
  {
    if ms != [] {
      RunsAscend(s, ms[..|ms| - 1]);
      MovesAscend(PlayAll(s, ms[..|ms| - 1]).value, ms[|ms| - 1]);
    }
  }

  lemma MovesRaiseVersions(s: Sys, m: Move, d: nat, id: Id)
    requires AllAscending(s) && Play(s, m).Some? && d in s.devs && m != Mark(d, id)
    ensures var t := Play(s, m).value;
      d in t.devs && VersionRises(s.devs[d].local.versions, t.devs[d].local.versions, id)
  {
    if m.Do? {
      StepsRaiseVersions(s.devs[m.d], s.rows, m.e);
    }
  }

  /** In any run, with any number of devices, deletes, faults and aborts, a
      positive version on a device never falls and never vanishes unless the
      entry is marked for deletion there. */
  lemma {:induction false} PositiveVersionsNeverFall(s: Sys, ms: seq<Move>, d: nat, id: Id)
    requires forall x | x in s.devs :: s.devs[x].phase == Idle
    requires d in s.devs && id in s.devs[d].local.versions && s.devs[d].local.versions[id] > 0
    requires Mark(d, id) !in ms
    requires PlayAll(s, ms).Some?
    ensures var t := PlayAll(s, ms).value;
      && d in t.devs && id in t.devs[d].local.versions
      && t.devs[d].local.versions[id] >= s.devs[d].local.versions[id]
  {
    if ms != [] {
      PositiveVersionsNeverFall(s, ms[..|ms| - 1], d, id);
      RunsAscend(s, ms[..|ms| - 1]);
      assert ms[|ms| - 1] in ms;
      MovesRaiseVersions(PlayAll(s, ms[..|ms| - 1]).value, ms[|ms| - 1], d, id);
    }
  }

  /** Wherever a run has brought a device to a pulled row, the rule of the client,
      which compares times against 0, and the rule of the server, which compares
      versions, take the same side if and only if the row's time is positive;
      and the row's version is above the one the device holds. */
  lemma ConflictRulesAgreeIff(s: Sys, ms: seq<Move>, d: nat)
    requires forall x | x in s.devs :: s.devs[x].phase == Idle
    requires PlayAll(s, ms).Some?
    requires var devs := PlayAll(s, ms).value.devs;
      d in devs && devs[d].phase.Pulling? && devs[d].phase.todo != []
    ensures var dev := PlayAll(s, ms).value.devs[d];
      var vs, x := dev.local.versions, dev.phase.todo[0];
      var local := Candidate(x.id, if x.id in vs then vs[x.id] else 0, 0);
      var remote := Candidate(x.id, x.row.rev.version, x.row.at);
      && Newer(vs, x)
      && ((Resolve(LastWriteWins, local, remote) == TakeRemote <==> Newer(vs, x)) <==> x.row.at > 0)
  {
    RunsAscend(s, ms);
    var dev := PlayAll(s, ms).value.devs[d];
    assert Ascending(dev) && Newer(dev.local.versions, dev.phase.todo[0]);
  }

  // ---------- server convergence ----------

  /** What the adds of a run offered, as a list of pushes in the order they were made. */
  ghost function AddsOf(ms: seq<Move>): seq<Write> {
    if ms == [] then [] else
      var rest := AddsOf(ms[..|ms| - 1]);
      match ms[|ms| - 1]
      case Add(d, id, rev) => rest + [Write(id, rev, 0)]
      case _ => rest
  }

  /** Adds whose device has not finished a push phase since. */
  ghost function Owed(ms: seq<Move>): set<(nat, Id, int64)> {
    if ms == [] then {} else
      var rest := Owed(ms[..|ms| - 1]);
      match ms[|ms| - 1]
      case Add(d, id, rev) => rest + {(d, id, rev.version)}
      case Do(d, e) => if e.EndPush? then (set o | o in rest && o.0 != d) else rest
      case _ => rest
  }

  /** Every add of `id` is followed by the end of a push phase on its device. */
  ghost predicate PushedSince(ms: seq<Move>, id: Id) {
    forall i | 0 <= i < |ms| && ms[i].Add? && ms[i].id == id ::
      exists j :: i < j < |ms| && ms[j] == Do(ms[i].d, EndPush)
  }

  lemma {:induction false} OwedComesFromAnAdd(ms: seq<Move>, o: (nat, Id, int64)) returns (i: nat)
    requires o in Owed(ms)
    ensures i < |ms| && ms[i].Add? && ms[i].d == o.0 && ms[i].id == o.1
    ensures forall j | i < j < |ms| :: ms[j] != Do(o.0, EndPush)
  {
    var n := |ms| - 1;
    if ms[n].Add? && o == (ms[n].d, ms[n].id, ms[n].rev.version) {
      i := n;
    } else {
      i := OwedComesFromAnAdd(ms[..n], o);
    }
  }

  lemma PushedSinceOwesNothing(ms: seq<Move>, o: (nat, Id, int64))
    requires PushedSince(ms, o.1)
    ensures o !in Owed(ms)
  {
    if o in Owed(ms) {
      var i := OwedComesFromAnAdd(ms, o);
      assert false;
    }
  }

  // The invariants below speak of one id at a time: nothing that is done to
  // other entries, deletes included, matters to them.

  /** What the device holds under a version is a fact, or the server is already past it. */
  ghost predicate Sound(rows: Rows, facts: Facts, id: Id, rev: Rev) {
    (id, rev) in facts || (id in rows && rows[id].rev.version > rev.version)
  }

  ghost predicate SoundStore(rows: Rows, facts: Facts, l: Local, id: Id) {
    id in l.versions ==>
      l.versions[id] > 0 && id in l.entries && Sound(rows, facts, id, Rev(l.versions[id], l.entries[id]))
  }

  /** A pulled row is a fact the server has reached, newer than what the device holds. */
  ghost predicate SoundItem(rows: Rows, facts: Facts, vs: map<Id, int64>, x: Item) {
    && x.row.rev.version > 0 && (x.id, x.row.rev) in facts
    && Dominates(rows, x.id, x.row.rev.version)
    && Newer(vs, x)
  }

  ghost predicate SoundPull(rows: Rows, facts: Facts, vs: map<Id, int64>, todo: seq<Item>, id: Id) {
    DistinctIds(todo) && forall i | 0 <= i < |todo| && todo[i].id == id :: SoundItem(rows, facts, vs, todo[i])
  }

  ghost predicate SoundPhase(rows: Rows, facts: Facts, l: Local, phase: Phase, id: Id) {
    match phase
    case Idle => true
    case Pulling(todo, half) =>
      && SoundPull(rows, facts, l.versions, todo, id)
      && (half ==> todo != [])
      && (half && todo[0].id == id ==> id in l.entries && l.entries[id] == todo[0].row.rev.data)
    case Pushing(toPush) => (id in l.versions && id !in toPush) ==> Dominates(rows, id, l.versions[id])
    case Deleting(toDelete) => id !in toDelete
    case Dropping(x, _, later) => x != id && id !in later
  }

  ghost predicate SoundRow(rows: Rows, facts: Facts, id: Id) {
    id in rows ==> (id, rows[id].rev) in facts
  }

  /** The server's row only moves up. */
  ghost predicate Grows(rows: Rows, next: Rows, id: Id) {
    id in rows ==> Dominates(next, id, rows[id].rev.version)
  }

  lemma SoundnessGrows(rows: Rows, next: Rows, facts: Facts, more: Facts, dev: Dev, id: Id)
    requires Grows(rows, next, id) && facts <= more
    requires SoundStore(rows, facts, dev.local, id) && SoundPhase(rows, facts, dev.local, dev.phase, id)
    ensures SoundStore(next, more, dev.local, id) && SoundPhase(next, more, dev.local, dev.phase, id)
  {
  }

  lemma PullIsSound(rows: Rows, facts: Facts, vs: map<Id, int64>, items: seq<Item>, id: Id)
    requires SoundRow(rows, facts, id) && IsSelection(items, rows, Watermark(vs))
    ensures SoundPull(rows, facts, vs, items, id)
  {
  }

  lemma TailIsSound(rows: Rows, facts: Facts, vs: map<Id, int64>, todo: seq<Item>, id: Id)
    requires todo != [] && SoundPull(rows, facts, vs, todo, id)
    ensures SoundPull(rows, facts, vs, todo[1..], id)
    ensures SoundPull(rows, facts, vs[todo[0].id := todo[0].row.rev.version], todo[1..], id)
  {
  }

  /** Writing a pulled row's data under the old version stays sound: the server
      is already past that version. */
  lemma HalfWriteIsSound(rows: Rows, facts: Facts, l: Local, todo: seq<Item>, id: Id)
    requires SoundStore(rows, facts, l, id) && todo != [] && SoundPull(rows, facts, l.versions, todo, id)
    ensures SoundStore(rows, facts, l.(entries := l.entries[todo[0].id := todo[0].row.rev.data]), id)
  {
    assert todo[0].id == id ==> SoundItem(rows, facts, l.versions, todo[0]);
  }

  /** What a device pushes is a fact or is refused. */
  lemma PushIsSound(rows: Rows, facts: Facts, l: Local, x: Id, now: int64, id: Id)
    requires SoundRow(rows, facts, id) && SoundStore(rows, facts, l, id) && x in Pushable(l)
    ensures var next := Upsert(rows, x, Rev(l.versions[x], l.entries[x]), now);
      SoundRow(next, facts, id) && Grows(rows, next, id) && (x == id ==> Dominates(next, id, l.versions[id]))
  {
  }

  ghost predicate SoundCfg(c: Cfg, facts: Facts, id: Id) {
    && SoundRow(c.rows, facts, id) && SoundStore(c.rows, facts, c.local, id)
    && SoundPhase(c.rows, facts, c.local, c.phase, id)
  }

  lemma PullStepIsSound(c: Cfg, facts: Facts, e: Event, id: Id)
    requires SoundCfg(c, facts, id) && Fire(c, e).Some?
    requires e.PullOk? || e.LocalWins? || e.WriteEntry? || e.WriteVersion?
    ensures var d := Fire(c, e).value;
      d.rows == c.rows && SoundCfg(d, facts, id) && VersionRises(c.local.versions, d.local.versions, id)
  {
    match e {
      case PullOk(items) => PullIsSound(c.rows, facts, c.local.versions, items, id);
      case LocalWins => TailIsSound(c.rows, facts, c.local.versions, c.phase.todo, id);
      case WriteEntry => HalfWriteIsSound(c.rows, facts, c.local, c.phase.todo, id);
      case WriteVersion =>
        TailIsSound(c.rows, facts, c.local.versions, c.phase.todo, id);
        assert c.phase.todo[0].id == id ==> SoundItem(c.rows, facts, c.local.versions, c.phase.todo[0]);
    }
  }

  lemma PushStepIsSound(c: Cfg, facts: Facts, e: Event, id: Id)
    requires SoundCfg(c, facts, id) && Fire(c, e).Some? && e.PushOne?
    ensures var d := Fire(c, e).value;
      Grows(c.rows, d.rows, id) && SoundCfg(d, facts, id) && d.local == c.local
  {
    PushIsSound(c.rows, facts, c.local, e.id, e.now, id);
  }

  lemma OtherStepIsSound(c: Cfg, facts: Facts, e: Event, id: Id)
    requires SoundCfg(c, facts, id) && Fire(c, e).Some?
    requires !(e.PullOk? || e.LocalWins? || e.WriteEntry? || e.WriteVersion? || e.PushOne?)
    ensures var d := Fire(c, e).value;
      && Grows(c.rows, d.rows, id) && SoundCfg(d, facts, id)
      && VersionRises(c.local.versions, d.local.versions, id)
  {
  }

  /** One step of one device keeps its own soundness and the server's. */
  lemma StepIsSound(c: Cfg, facts: Facts, e: Event, id: Id)
    requires SoundCfg(c, facts, id) && Fire(c, e).Some?
    ensures var d := Fire(c, e).value;
      && Grows(c.rows, d.rows, id) && SoundCfg(d, facts, id)
      && VersionRises(c.local.versions, d.local.versions, id)
  {
    match e {
      case PullOk(_) => PullStepIsSound(c, facts, e, id);
      case LocalWins => PullStepIsSound(c, facts, e, id);
      case WriteEntry => PullStepIsSound(c, facts, e, id);
      case WriteVersion => PullStepIsSound(c, facts, e, id);
      case PushOne(_, _) => PushStepIsSound(c, facts, e, id);
      case _ => OtherStepIsSound(c, facts, e, id);
    }
  }

  // ---------- the invariant of whole runs ----------

  ghost predicate Landed(s: Sys, m: Move)
    requires m.Add?
  {
    Dominates(s.rows, m.id, m.rev.version)
  }

  /** The add has reached the server, or its device still owes a push of it. */
  ghost predicate Accounted(s: Sys, owed: set<(nat, Id, int64)>, m: Move)
    requires m.Add?
  {
    || Landed(s, m)
    || ((m.d, m.id, m.rev.version) in owed && m.d in s.devs
        && m.id in s.devs[m.d].local.versions && s.devs[m.d].local.versions[m.id] >= m.rev.version)
  }

  ghost predicate SoundDev(rows: Rows, facts: Facts, dev: Dev, id: Id) {
    SoundStore(rows, facts, dev.local, id) && SoundPhase(rows, facts, dev.local, dev.phase, id)
  }

  ghost predicate SoundSys(s: Sys, facts: Facts, id: Id) {
    && SoundRow(s.rows, facts, id)
    && forall d | d in s.devs :: SoundDev(s.rows, facts, s.devs[d], id)
  }

  /** The id of the entry under watch is not marked by the move. */
  ghost predicate Spares(m: Move, id: Id) {
    m.Mark? ==> m.id != id
  }

  ghost function FactsFrom(facts: Facts, m: Move): Facts {
    facts + if m.Add? then {(m.id, m.rev)} else {}
  }

  lemma MoverIsSound(s: Sys, facts: Facts, m: Move, id: Id)
    requires SoundSys(s, facts, id) && Spares(m, id) && Play(s, m).Some?
    ensures var t := Play(s, m).value;
      && SoundRow(t.rows, FactsFrom(facts, m), id) && Grows(s.rows, t.rows, id)
      && SoundDev(t.rows, FactsFrom(facts, m), t.devs[m.d], id)
      && VersionRises(s.devs[m.d].local.versions, t.devs[m.d].local.versions, id)
  {
    assert SoundDev(s.rows, facts, s.devs[m.d], id);
    if m.Do? {
      StepIsSound(Cfg(s.devs[m.d].local, s.rows, s.devs[m.d].phase), facts, m.e, id);
    }
  }

  lemma MoveIsSound(s: Sys, facts: Facts, m: Move, id: Id)
    requires SoundSys(s, facts, id) && Spares(m, id) && Play(s, m).Some?
    ensures var t := Play(s, m).value;
      && SoundSys(t, FactsFrom(facts, m), id) && Grows(s.rows, t.rows, id)
      && VersionRises(s.devs[m.d].local.versions, t.devs[m.d].local.versions, id)
  {
    var t := Play(s, m).value;
    MoverIsSound(s, facts, m, id);
    forall d | d in t.devs ensures SoundDev(t.rows, FactsFrom(facts, m), t.devs[d], id) {
      if d != m.d {
        assert SoundDev(s.rows, facts, s.devs[d], id) && t.devs[d] == s.devs[d];
        SoundnessGrows(s.rows, t.rows, facts, FactsFrom(facts, m), s.devs[d], id);
      }
    }
  }

  lemma EndPushLands(s: Sys, facts: Facts, m: Move, id: Id)
    requires SoundSys(s, facts, id) && m.Do? && m.e.EndPush? && Play(s, m).Some?
    ensures id in s.devs[m.d].local.versions ==> Dominates(s.rows, id, s.devs[m.d].local.versions[id])
  {
    assert SoundDev(s.rows, facts, s.devs[m.d], id);
  }

  /** Adds stay accounted for: an owed one is carried by the device's own rising
      version until the end of a push phase finds it on the server. */
  lemma AccountsKeep(s: Sys, facts: Facts, ms: seq<Move>, m: Move, a: Move)
    requires a.Add? && SoundSys(s, facts, a.id) && Spares(m, a.id) && Play(s, m).Some?
    requires a.rev.version > 0 && Accounted(s, Owed(ms), a)
    ensures Accounted(Play(s, m).value, Owed(ms + [m]), a)
  {
    assert (ms + [m])[..|ms|] == ms;
    MoveIsSound(s, facts, m, a.id);
    if m.Do? && m.e.EndPush? && m.d == a.d {
      EndPushLands(s, facts, m, a.id);
    }
  }

  ghost function Start(rows: Rows, ds: set<nat>): Sys {
    Sys(rows, map d | d in ds :: Dev(Local(map[], map[]), Idle))
  }

  ghost function FactsOf(rows: Rows, ms: seq<Move>): Facts {
    Holdings(rows) + Offers(AddsOf(ms))
  }

  lemma FactsGrow(rows: Rows, ms: seq<Move>, m: Move)
    ensures FactsOf(rows, ms + [m]) == FactsFrom(FactsOf(rows, ms), m)
  {
    assert (ms + [m])[..|ms|] == ms;
    if m.Add? {
      var ws := AddsOf(ms);
      var all := ws + [Write(m.id, m.rev, 0)];
      forall f | f in Offers(ws) ensures f in Offers(all) {
        var i :| 0 <= i < |ws| && (ws[i].id, ws[i].rev) == f;
        assert all[i] == ws[i];
      }
      assert all[|ws|] == Write(m.id, m.rev, 0);
      assert Offers(all) == Offers(ws) + {(m.id, m.rev)};
    }
  }

  lemma {:induction false} AddsArePositive(s: Sys, ms: seq<Move>, i: nat)
    requires PlayAll(s, ms).Some? && i < |ms| && ms[i].Add?
    ensures ms[i].rev.version > 0
  {
    if i < |ms| - 1 {
      AddsArePositive(s, ms[..|ms| - 1], i);
    }
  }

  lemma {:induction false} RunsAreSound(rows: Rows, ds: set<nat>, ms: seq<Move>, id: Id)
    requires forall m | m in ms :: Spares(m, id)
    requires PlayAll(Start(rows, ds), ms).Some?
    ensures var s := PlayAll(Start(rows, ds), ms).value;
      && SoundSys(s, FactsOf(rows, ms), id) && Grows(rows, s.rows, id)
      && (forall i | 0 <= i < |ms| && ms[i].Add? && ms[i].id == id :: Accounted(s, Owed(ms), ms[i]))
  {
    if ms == [] {
      assert AddsOf(ms) == [];
    } else {
      var n := |ms| - 1;
      var front, m := ms[..n], ms[n];
      assert front + [m] == ms && m in ms;
      RunsAreSound(rows, ds, front, id);
      var s := PlayAll(Start(rows, ds), front).value;
      FactsGrow(rows, front, m);
      MoveIsSound(s, FactsOf(rows, front), m, id);
      forall i | 0 <= i < |ms| && ms[i].Add? && ms[i].id == id
        ensures Accounted(Play(s, m).value, Owed(ms), ms[i])
      {
        if i < n {
          assert front[i] == ms[i];
          AddsArePositive(Start(rows, ds), ms, i);
          AccountsKeep(s, FactsOf(rows, front), front, m, front[i]);
        }
      }
    }
  }

  lemma {:induction false} OfferComesFromAnAdd(ms: seq<Move>, f: (Id, Rev)) returns (i: nat)
    requires f in Offers(AddsOf(ms))
    ensures i < |ms| && ms[i].Add? && (ms[i].id, ms[i].rev) == f
  {
    var n := |ms| - 1;
    assert ms[..n] + [ms[n]] == ms;
    FactsGrow(map[], ms[..n], ms[n]);
    if ms[n].Add? && (ms[n].id, ms[n].rev) == f {
      i := n;
    } else {
      i := OfferComesFromAnAdd(ms[..n], f);
    }
  }

  lemma FactsHaveLanded(rows: Rows, ds: set<nat>, ms: seq<Move>, f: (Id, Rev))
    requires forall m | m in ms :: Spares(m, f.0)
    requires PlayAll(Start(rows, ds), ms).Some?
    requires PushedSince(ms, f.0) && f in FactsOf(rows, ms)
    ensures Dominates(PlayAll(Start(rows, ds), ms).value.rows, f.0, f.1.version)
  {
    RunsAreSound(rows, ds, ms, f.0);
    if f in Offers(AddsOf(ms)) {
      var i := OfferComesFromAnAdd(ms, f);
      assert Accounted(PlayAll(Start(rows, ds), ms).value, Owed(ms), ms[i]);
      PushedSinceOwesNothing(ms, (ms[i].d, ms[i].id, ms[i].rev.version));
    }
  }

  /** For an id that no device marks, whatever happens to other entries: once
      every add of it has been followed by the end of a push phase on its device,
      the server holds the maximum of its start and all adds of it. */
  lemma ServerHoldsTheJoin(rows: Rows, ds: set<nat>, ms: seq<Move>, id: Id)
    requires forall m | m in ms :: Spares(m, id)
    requires PlayAll(Start(rows, ds), ms).Some?
    requires PushedSince(ms, id)
    ensures IsJoinAt(Revs(PlayAll(Start(rows, ds), ms).value.rows), FactsOf(rows, ms), id)
  {
    RunsAreSound(rows, ds, ms, id);
    var revs := Revs(PlayAll(Start(rows, ds), ms).value.rows);
    forall f | f in FactsOf(rows, ms) && f.0 == id ensures id in revs && f.1.version <= revs[id].version {
      FactsHaveLanded(rows, ds, ms, f);
    }
  }

  /** Server convergence: whatever the interleaving, the faults, the aborted rounds
      and the deletes of other entries, the server ends with the row of `id` that
      pushing every add straight to it would have left. */
  lemma ServerConverges(rows: Rows, ds: set<nat>, ms: seq<Move>, id: Id)
    requires forall m | m in ms :: Spares(m, id)
    requires PlayAll(Start(rows, ds), ms).Some?
    requires PushedSince(ms, id)
    requires VersionsFixData(About(FactsOf(rows, ms), id))
    ensures AgreeAt(Revs(PlayAll(Start(rows, ds), ms).value.rows), Revs(Fold(rows, AddsOf(ms))), id)
  {
    var a, b := Revs(PlayAll(Start(rows, ds), ms).value.rows), Revs(Fold(rows, AddsOf(ms)));
    ServerHoldsTheJoin(rows, ds, ms, id);
    FoldIsTheJoin(rows, AddsOf(ms));
    assert IsJoinAt(b, FactsOf(rows, ms), id);
    JoinIsUnique(a, b, FactsOf(rows, ms), id);
  }

  /** Without deletes the whole table converges. */
  lemma TableConverges(rows: Rows, ds: set<nat>, ms: seq<Move>)
    requires forall m | m in ms :: !m.Mark?
    requires PlayAll(Start(rows, ds), ms).Some?
    requires forall id :: PushedSince(ms, id)
    requires VersionsFixData(FactsOf(rows, ms))
    ensures Revs(PlayAll(Start(rows, ds), ms).value.rows) == Revs(Fold(rows, AddsOf(ms)))
  {
    var a, b := Revs(PlayAll(Start(rows, ds), ms).value.rows), Revs(Fold(rows, AddsOf(ms)));
    forall id ensures AgreeAt(a, b, id) {
      ServerConverges(rows, ds, ms, id);
    }
    AgreementIsEquality(a, b);
  }

  // ---------- tombstones ----------

  ghost predicate BringsBack(items: seq<Item>, id: Id) {
    exists i :: 0 <= i < |items| && items[i].id == id && Wins(items[i].row)
  }

  /** The device neither adds the entry again nor pulls a row of it that wins. */
  ghost predicate LeavesBuried(m: Move, d: nat, id: Id) {
    m.d == d ==> !(m.Add? && m.id == id) && !(m.Do? && m.e.PullOk? && BringsBack(m.e.items, id))
  }

  /** The entry is gone or marked, and the round under way will not change that. */
  ghost predicate Buried(dev: Dev, id: Id) {
    && (id in dev.local.entries ==> id in dev.local.versions && dev.local.versions[id] == -1)
    && match dev.phase
       case Pulling(todo, half) =>
         (half ==> todo != [] && Wins(todo[0].row)) && !BringsBack(todo, id)
       case Pushing(toPush) => id !in toPush
       case Dropping(x, entryGone, _) => x == id && entryGone ==> id !in dev.local.entries
       case _ => true
  }

  lemma TailBringsNothingBack(todo: seq<Item>, id: Id)
    requires todo != [] && !BringsBack(todo, id)
    ensures !BringsBack(todo[1..], id)
    ensures todo[0].id == id ==> !Wins(todo[0].row)
  {
    assert forall i | 0 <= i < |todo[1..]| :: todo[1..][i] == todo[i + 1];
  }

  lemma StepsLeaveBuried(dev: Dev, rows: Rows, e: Event, id: Id)
    requires Buried(dev, id) && Fire(Cfg(dev.local, rows, dev.phase), e).Some?
    requires e.PullOk? ==> !BringsBack(e.items, id)
    ensures var c := Fire(Cfg(dev.local, rows, dev.phase), e).value; Buried(Dev(c.local, c.phase), id)
    ensures !(e.PushOne? && e.id == id)
  {
    if dev.phase.Pulling? && dev.phase.todo != [] {
      TailBringsNothingBack(dev.phase.todo, id);
    }
  }

  /** As long as the device does not add the entry again and no pull of its brings
      a winning row of it, a marked entry is never pushed by it: in any run, with
      any number of devices, cut rounds and lost deletes, the device holds it as a
      tombstone or not at all. */
  lemma {:induction false} TombstonesAreNeverPushed(s: Sys, ms: seq<Move>, d: nat, id: Id)
    requires d in s.devs && s.devs[d].phase.Idle? && id in Tombs(s.devs[d].local)
    requires PlayAll(s, ms).Some?
    requires forall m | m in ms :: LeavesBuried(m, d, id)
    ensures forall now :: Do(d, PushOne(id, now)) !in ms
    ensures var t := PlayAll(s, ms).value; d in t.devs && Buried(t.devs[d], id)
  {
    if ms != [] {
      var front, m := ms[..|ms| - 1], ms[|ms| - 1];
      assert ms == front + [m] && m in ms;
      TombstonesAreNeverPushed(s, front, d, id);
      var t := PlayAll(s, front).value;
      if m.Do? && m.d == d {
        StepsLeaveBuried(t.devs[d], t.rows, m.e, id);
      }
    }
  }

  // ---------- deleted rows ----------

  /** The device neither holds the entry with a version to push nor is about to
      pull it. */
  ghost predicate Forgets(dev: Dev, id: Id) {
    && id !in Pushable(dev.local)
    && (dev.phase.Pulling? ==> forall i | 0 <= i < |dev.phase.todo| :: dev.phase.todo[i].id != id)
  }

  ghost predicate Forgotten(s: Sys, id: Id) {
    id !in s.rows && forall d | d in s.devs :: Forgets(s.devs[d], id)
  }

  lemma StepsForget(dev: Dev, rows: Rows, e: Event, id: Id)
    requires Forgets(dev, id) && id !in rows && Fire(Cfg(dev.local, rows, dev.phase), e).Some?
    ensures var c := Fire(Cfg(dev.local, rows, dev.phase), e).value; id !in c.rows && Forgets(Dev(c.local, c.phase), id)
  {
  }

  lemma MovesForget(s: Sys, m: Move, id: Id)
    requires Forgotten(s, id) && Play(s, m).Some? && !(m.Add? && m.id == id)
    ensures Forgotten(Play(s, m).value, id)
  {
    if m.Do? { StepsForget(s.devs[m.d], s.rows, m.e, id); }
  }

  /** A row that is gone from the server stays gone through any run in which nobody
      adds the entry, provided no device still holds it to push and no pull under
      way carries it. */
  lemma {:induction false} ForgottenStaysGone(s: Sys, ms: seq<Move>, id: Id)
    requires Forgotten(s, id) && PlayAll(s, ms).Some?
    requires forall m | m in ms && m.Add? :: m.id != id
    ensures Forgotten(PlayAll(s, ms).value, id)
  {
    if ms != [] {
      assert ms[|ms| - 1] in ms;
      ForgottenStaysGone(s, ms[..|ms| - 1], id);
      MovesForget(PlayAll(s, ms[..|ms| - 1]).value, ms[|ms| - 1], id);
    }
  }

  lemma HeldIsPushable(l: Local, rows: Rows, id: Id)
    requires id !in rows && id in Pushable(l)
    ensures var p := Pulled(l, rows);
      id in Pushable(p) && p.versions[id] == l.versions[id] && p.entries[id] == l.entries[id]
  {
  }

  lemma PushedAreJoined(l: Local, rows: Rows, es: seq<Event>)
    requires OneRound(es, true) && Exec(Cfg(l, rows, Idle), es).Some?
    requires Exec(Cfg(l, rows, Idle), es).value.phase == Pushing({})
    ensures var p := Pulled(l, rows);
      Exec(Cfg(l, rows, Idle), es).value.rows == Joined(p, rows, Pushable(p), StampsOf(es))
  {
    RoundIsMidway(l, rows, es);
    var p := Pulled(l, rows);
    assert Pushable(p) - {} == Pushable(p);
  }

  /** A device that does still hold it brings it back, as it holds it, with one
      finished push phase. */
  lemma HeldRowComesBack(l: Local, rows: Rows, es: seq<Event>, id: Id)
    requires id !in rows && id in Pushable(l)
    requires OneRound(es, true) && es[|es| - 1].EndPush? && Exec(Cfg(l, rows, Idle), es).Some?
    ensures var next := Exec(Cfg(l, rows, Idle), es).value.rows;
      id in next && next[id].rev == Rev(l.versions[id], l.entries[id])
  {
    PushedAreJoined(l, rows, es[..|es| - 1]);
    HeldIsPushable(l, rows, id);
  }

  // ---------- rows passed over ----------

  lemma WatermarkNeverFalls(vs: map<Id, int64>, next: map<Id, int64>)
    requires VersionsRise(vs, next)
    ensures Watermark(next) >= Watermark(vs)
  {
    var w := Watermark(vs);
    if w > 0 {
      var x :| x in vs && vs[x] == w;
      assert VersionRises(vs, next, x);
    }
  }

  /** The device's watermark is past the row and the round under way will not
      bring it. */
  ghost predicate Missing(dev: Dev, id: Id, v: int64) {
    && PassedOver(dev.local, id, v)
    && (dev.phase.Pulling? ==> forall i | 0 <= i < |dev.phase.todo| :: dev.phase.todo[i].id != id)
  }

  lemma StepsLeaveMissing(dev: Dev, rows: Rows, e: Event, id: Id, v: int64)
    requires Ascending(dev) && Missing(dev, id, v) && Fire(Cfg(dev.local, rows, dev.phase), e).Some?
    requires id in rows ==> rows[id].rev.version <= v
    ensures var c := Fire(Cfg(dev.local, rows, dev.phase), e).value; Missing(Dev(c.local, c.phase), id, v)
  {
    StepsRaiseVersions(dev, rows, e);
    WatermarkNeverFalls(dev.local.versions, Fire(Cfg(dev.local, rows, dev.phase), e).value.local.versions);
  }

  /** The device marks nothing and does not add the entry itself. */
  ghost predicate LeavesMissing(m: Move, d: nat, id: Id) {
    m.d == d ==> !m.Mark? && !(m.Add? && m.id == id)
  }

  /** The server's row for `id` is at or below `v` all along the run. */
  ghost predicate StaysBelow(s: Sys, ms: seq<Move>, id: Id, v: int64) {
    && (PlayAll(s, ms).Some? ==>
          var rows := PlayAll(s, ms).value.rows; id in rows ==> rows[id].rev.version <= v)
    && (ms != [] ==> StaysBelow(s, ms[..|ms| - 1], id, v))
  }

  lemma MovesLeaveMissing(s: Sys, m: Move, d: nat, id: Id, v: int64)
    requires AllAscending(s) && d in s.devs && Missing(s.devs[d], id, v)
    requires Play(s, m).Some? && LeavesMissing(m, d, id)
    requires id in s.rows ==> s.rows[id].rev.version <= v
    ensures var t := Play(s, m).value; d in t.devs && Missing(t.devs[d], id, v)
  {
    if m.d == d {
      if m.Do? {
        StepsLeaveMissing(s.devs[d], s.rows, m.e, id, v);
      } else {
        WatermarkNeverFalls(s.devs[d].local.versions, Play(s, m).value.devs[d].local.versions);
      }
    }
  }

  /** A row a device has passed over stays lost to it: through any rounds, its own
      and others', interrupted or not, and through its own adds of other entries,
      as long as it marks nothing and the server's row does not rise above that
      version. */
  lemma {:induction false} PassedOverStays(s: Sys, ms: seq<Move>, d: nat, id: Id, v: int64)
    requires forall x | x in s.devs :: s.devs[x].phase == Idle
    requires d in s.devs && PassedOver(s.devs[d].local, id, v)
    requires PlayAll(s, ms).Some? && StaysBelow(s, ms, id, v)
    requires forall m | m in ms :: LeavesMissing(m, d, id)
    ensures var t := PlayAll(s, ms).value; d in t.devs && Missing(t.devs[d], id, v)
  {
    if ms != [] {
      var front, m := ms[..|ms| - 1], ms[|ms| - 1];
      assert m in ms;
      PassedOverStays(s, front, d, id, v);
      RunsAscend(s, front);
      MovesLeaveMissing(PlayAll(s, front).value, m, d, id, v);
    }
  }

  // ---------- ties do arise ----------

  lemma PlaySnoc(s: Sys, ms: seq<Move>, m: Move)
    ensures PlayAll(s, ms + [m]) == match PlayAll(s, ms) case None => None case Some(t) => Play(t, m)
  {
    assert (ms + [m])[..|ms|] == ms;
  }

  /** The moves by which a device performs a run of the round machine. */
  function Moves(d: nat, es: seq<Event>): seq<Move> {
    if es == [] then [] else Moves(d, es[..|es| - 1]) + [Do(d, es[|es| - 1])]
  }

  /** The system with one device where `c` has it. */
  ghost function Placed(t: Sys, d: nat, c: Cfg): Sys {
    Sys(c.rows, t.devs[d := Dev(c.local, c.phase)])
  }

  lemma DoIsPlaced(t: Sys, d: nat, c: Cfg, e: Event)
    requires Fire(c, e).Some?
    ensures Play(Placed(t, d, c), Do(d, e)) == Some(Placed(t, d, Fire(c, e).value))
  {
    var next := Fire(c, e).value;
    assert Cfg(c.local, c.rows, c.phase) == c;
    assert t.devs[d := Dev(c.local, c.phase)][d := Dev(next.local, next.phase)] ==
      t.devs[d := Dev(next.local, next.phase)];
  }

  lemma {:induction false} RunsArePlayed(s: Sys, before: seq<Move>, t: Sys, d: nat, c: Cfg, es: seq<Event>)
    requires PlayAll(s, before) == Some(Placed(t, d, c)) && Exec(c, es).Some?
    ensures PlayAll(s, before + Moves(d, es)) == Some(Placed(t, d, Exec(c, es).value))
  {
    if es == [] {
      assert before + Moves(d, es) == before;
    } else {
      var n := |es| - 1;
      RunsArePlayed(s, before, t, d, c, es[..n]);
      assert before + Moves(d, es) == before + Moves(d, es[..n]) + [Do(d, es[n])];
      PlaySnoc(s, before + Moves(d, es[..n]), Do(d, es[n]));
      DoIsPlaced(t, d, Exec(c, es[..n]).value, es[n]);
    }
  }

  ghost function Single(id: Id, rev: Rev): Local {
    Local(map[id := rev.data], map[id := rev.version])
  }

  lemma SingleHolds(id: Id, rev: Rev)
    requires rev.version > 0
    ensures var l := Single(id, rev);
      Watermark(l.versions) == rev.version && Pushable(l) == {id} && Tombs(l) == {}
  {
    WatermarkRises(map[], id, rev.version);
    assert map[][id := rev.version] == Single(id, rev).versions;
  }

  lemma OneEntryIsListed(rows: Rows, id: Id, rev: Rev)
    requires rev.version > 0 && forall x | x in rows :: rows[x].rev.version <= rev.version
    ensures Exec(Cfg(Single(id, rev), rows, Idle), [PullOk([])] + [ListIds]) ==
            Some(Cfg(Single(id, rev), rows, Pushing({id})))
  {
    SingleHolds(id, rev);
    PullStarts(Single(id, rev), rows, []);
    ExecSnoc(Cfg(Single(id, rev), rows, Idle), [PullOk([])], ListIds);
  }

  lemma PushOnly(c: Cfg, es: seq<Event>, rows: Rows, id: Id, rev: Rev)
    requires rev.version > 0 && id !in rows
    requires Exec(c, es) == Some(Cfg(Single(id, rev), rows, Pushing({id})))
    ensures Exec(c, es + [PushOne(id, 1)]) == Some(Cfg(Single(id, rev), rows[id := Row(rev, 1)], Pushing({})))
  {
    SingleHolds(id, rev);
    ExecSnoc(c, es, PushOne(id, 1));
    assert {id} - {id} == {};
  }

  lemma EndsQuietly(c: Cfg, es: seq<Event>, l: Local, rows: Rows)
    requires Exec(c, es) == Some(Cfg(l, rows, Pushing({}))) && Tombs(l) == {}
    ensures Exec(c, es + [EndPush] + [EndDelete]) == Some(Cfg(l, rows, Idle))
  {
    ExecSnoc(c, es, EndPush);
    ExecSnoc(c, es + [EndPush], EndDelete);
  }

  /** A device that holds one entry, newer than all there is, pushes it. */
  lemma OneEntryIsPushed(rows: Rows, id: Id, rev: Rev) returns (es: seq<Event>)
    requires rev.version > 0 && id !in rows && forall x | x in rows :: rows[x].rev.version <= rev.version
    ensures Exec(Cfg(Single(id, rev), rows, Idle), es) == Some(Cfg(Single(id, rev), rows[id := Row(rev, 1)], Idle))
  {
    var start := Cfg(Single(id, rev), rows, Idle);
    es := [PullOk([])] + [ListIds];
    OneEntryIsListed(rows, id, rev);
    PushOnly(start, es, rows, id, rev);
    SingleHolds(id, rev);
    EndsQuietly(start, es + [PushOne(id, 1)], Single(id, rev), rows[id := Row(rev, 1)]);
    es := es + [PushOne(id, 1)] + [EndPush] + [EndDelete];
  }

  lemma AddIsPlaced(t: Sys, d: nat, id: Id, rev: Rev)
    requires d in t.devs && t.devs[d] == Dev(Local(map[], map[]), Idle) && rev.version > 0
    ensures Play(t, Add(d, id, rev)) == Some(Placed(t, d, Cfg(Single(id, rev), t.rows, Idle)))
  {
    var l := Single(id, rev);
    assert map[][id := rev.data] == l.entries && map[][id := rev.version] == l.versions;
  }

  /** An empty device adds an entry no older than anything on the server and syncs. */
  lemma AddAndSync(s: Sys, before: seq<Move>, t: Sys, d: nat, id: Id, rev: Rev) returns (ms: seq<Move>)
    requires PlayAll(s, before) == Some(t) && d in t.devs && t.devs[d] == Dev(Local(map[], map[]), Idle)
    requires rev.version > 0 && id !in t.rows && forall x | x in t.rows :: t.rows[x].rev.version <= rev.version
    ensures PlayAll(s, ms) == Some(Placed(t, d, Cfg(Single(id, rev), t.rows[id := Row(rev, 1)], Idle)))
  {
    PlaySnoc(s, before, Add(d, id, rev));
    AddIsPlaced(t, d, id, rev);
    var es := OneEntryIsPushed(t.rows, id, rev);
    RunsArePlayed(s, before + [Add(d, id, rev)], t, d, Cfg(Single(id, rev), t.rows, Idle), es);
    ms := before + [Add(d, id, rev)] + Moves(d, es);
  }

  /** Two empty devices add different entries under one version, both sync, and a
      third device's round is cut: it does not recover. */
  lemma TiesAreReached() returns (ms: seq<Move>, attempts: seq<Event>)
    ensures PlayAll(Start(map[], {0, 1, 2}), ms).Some?
    ensures var t := PlayAll(Start(map[], {0, 1, 2}), ms).value;
      && 2 in t.devs && t.devs[2] == Dev(Local(map[], map[]), Idle)
      && !Recovers(t.devs[2].local, t.rows, attempts)
  {
    var s, empty := Start(map[], {0, 1, 2}), Local(map[], map[]);
    var one: Id, two: Id := [1], [2];
    ms := AddAndSync(s, [], s, 0, one, Rev(5, [7]));
    ms := AddAndSync(s, ms, PlayAll(s, ms).value, 1, two, Rev(5, [8]));
    var rows := PlayAll(s, ms).value.rows;
    assert one in Winners(empty, rows) && two in Winners(empty, rows);
    var lost;
    attempts, lost := TiesLoseARow(empty, rows);
  }

  // ---------- marks ----------

  /** Steps of other devices leave a device as it is. */
  lemma {:induction false} OthersLeaveDevice(s: Sys, before: seq<Move>, others: seq<Move>, d: nat)
    requires PlayAll(s, before + others).Some? && forall m | m in others :: m.d != d
    ensures PlayAll(s, before).Some?
    ensures var t, u := PlayAll(s, before).value, PlayAll(s, before + others).value;
      (d in t.devs <==> d in u.devs) && (d in t.devs ==> u.devs[d] == t.devs[d])
  {
    if others == [] {
      assert before + others == before;
    } else {
      var front, m := others[..|others| - 1], others[|others| - 1];
      assert before + others == before + front + [m];
      PlaySnoc(s, before + front, m);
      OthersLeaveDevice(s, before, front, d);
    }
  }

  /** A mark writes -1 and nothing else. */
  lemma MarkIsTombstone(s: Sys, d: nat, id: Id)
    requires d in s.devs && s.devs[d].phase.Idle?
    ensures PlayAll(s, [Mark(d, id)]) ==
            Some(Sys(s.rows, s.devs[d := Dev(Tombstoned(s.devs[d].local, id), Idle)]))
  {
    PlaySnoc(s, [], Mark(d, id));
    assert [] + [Mark(d, id)] == [Mark(d, id)];
  }

  /** A complete round of an idle device, played by itself. */
  lemma RoundIsPlayed(s: Sys, before: seq<Move>, t: Sys, d: nat, round: seq<Event>)
    requires PlayAll(s, before) == Some(t) && d in t.devs && t.devs[d].phase.Idle?
    requires Complete(round) && Exec(Cfg(t.devs[d].local, t.rows, Idle), round).Some?
    ensures PlayAll(s, before + Moves(d, round)) == Some(Placed(t, d,
      Cfg(SyncLocal(t.devs[d].local, t.rows), SyncRows(t.devs[d].local, t.rows, StampsOf(round)), Idle)))
  {
    var c := Cfg(t.devs[d].local, t.rows, Idle);
    assert t.devs[d := Dev(c.local, c.phase)] == t.devs;
    assert Placed(t, d, c) == t;
    RunsArePlayed(s, before, t, d, c, round);
    RoundComputesTheMerge(t.devs[d].local, t.rows, round);
  }

  /** A row, marked away from a device, before the round that is to delete it. */
  ghost predicate Deletable(vs: map<Id, int64>, rows: Rows, id: Id) {
    id in rows ==> rows[id].rev.version <= Watermark(vs[id := -1]) || !Wins(rows[id])
  }

  lemma MarkedRowGoesIff(l: Local, rows: Rows, at: Stamps, id: Id)
    requires id in l.entries
    ensures id !in SyncRows(Tombstoned(l, id), rows, at) <==> Deletable(l.versions, rows, id)
  {
    var t := Tombstoned(l, id);
    assert id in Tombs(t);
    DeleteEffect(t, rows, at, id);
  }

  lemma PullMarksNothing(l: Local, rows: Rows)
    ensures Tombs(Pulled(l, rows)) <= Tombs(l)
  {
  }

  lemma OtherRowsStay(l: Local, rows: Rows, at: Stamps, x: Id)
    requires x in rows && x !in Tombs(l)
    ensures Dominates(SyncRows(l, rows, at), x, rows[x].rev.version)
  {
    PullMarksNothing(l, rows);
    var p := Pulled(l, rows);
    RoundFrom(l, rows, at, p, Joined(p, rows, Pushable(p), at));
  }

  lemma MarkedRowGoes(l: Local, rows: Rows, at: Stamps, id: Id)
    requires id in l.entries
    ensures var next := SyncRows(Tombstoned(l, id), rows, at);
      && (id !in next <==> Deletable(l.versions, rows, id))
      && (Tombs(l) <= {id} ==> forall x | x in rows && x != id :: Dominates(next, x, rows[x].rev.version))
  {
    MarkedRowGoesIff(l, rows, at, id);
    forall x | Tombs(l) <= {id} && x in rows && x != id
      ensures Dominates(SyncRows(Tombstoned(l, id), rows, at), x, rows[x].rev.version)
    {
      assert x in Tombs(Tombstoned(l, id)) ==> x in Tombs(l);
      OtherRowsStay(Tombstoned(l, id), rows, at, x);
    }
  }

  /** A device marks an entry, other devices do whatever they do, and the device
      then completes a round: the row is gone from the server if and only if it is
      not above the watermark the mark has left (or would not win). No other row
      goes if nothing else was marked. On a device that equals the server, if the
      others change no row, the server loses exactly that row if another version is
      at least as large, and nothing otherwise. */
  lemma MarkThenSync(s: Sys, d: nat, id: Id, others: seq<Move>, t: Sys, round: seq<Event>)
    requires d in s.devs && s.devs[d].phase.Idle? && id in s.devs[d].local.entries
    requires PlayAll(s, [Mark(d, id)] + others) == Some(t) && forall m | m in others :: m.d != d
    requires Complete(round) && Exec(Cfg(Tombstoned(s.devs[d].local, id), t.rows, Idle), round).Some?
    ensures PlayAll(s, [Mark(d, id)] + others + Moves(d, round)).Some?
    ensures var l, u := s.devs[d].local, PlayAll(s, [Mark(d, id)] + others + Moves(d, round)).value;
      && (id !in u.rows <==> Deletable(l.versions, t.rows, id))
      && (Tombs(l) <= {id} ==> forall x | x in t.rows && x != id :: Dominates(u.rows, x, t.rows[x].rev.version))
      && (Synced(l, s.rows) && PositiveRows(s.rows) && id in s.rows && t.rows == s.rows ==>
            u.rows == if exists x :: x in s.rows && x != id && s.rows[x].rev.version >= s.rows[id].rev.version
                      then s.rows - {id} else s.rows)
  {
    var l := s.devs[d].local;
    MarkIsTombstone(s, d, id);
    OthersLeaveDevice(s, [Mark(d, id)], others, d);
    RoundIsPlayed(s, [Mark(d, id)] + others, t, d, round);
    MarkedRowGoes(l, t.rows, StampsOf(round), id);
    if Synced(l, s.rows) && PositiveRows(s.rows) && id in s.rows {
      DeleteTakesEffectIff(l, s.rows, StampsOf(round), id);
    }
  }

  /** The marked entry still waits for its delete in the round under way. */
  ghost predicate Due(dev: Dev, id: Id) {
    && id in Tombs(dev.local)
    && match dev.phase
       case Pulling(todo, half) => (half ==> todo != [] && Wins(todo[0].row)) && !BringsBack(todo, id)
       case Deleting(toDelete) => id in toDelete
       case Dropping(x, _, later) => x != id && id in later
       case _ => true
  }

  /** The row was gone at some moment of the run. */
  ghost predicate GoneBy(s: Sys, ms: seq<Move>, id: Id) {
    || (PlayAll(s, ms).Some? && id !in PlayAll(s, ms).value.rows)
    || (ms != [] && GoneBy(s, ms[..|ms| - 1], id))
  }

  /** The device goes on with its round: no failed delete, no abort, no mark or add
      of its own, and no pull that brings the entry back. */
  ghost predicate KeepsOn(m: Move, d: nat, id: Id) {
    m.d == d ==> m.Do? && !m.e.Abort? && !m.e.DeleteLost? && !(m.e.PullOk? && BringsBack(m.e.items, id))
  }

  lemma StepsStayDue(dev: Dev, rows: Rows, e: Event, id: Id)
    requires Due(dev, id) && Fire(Cfg(dev.local, rows, dev.phase), e).Some?
    requires !e.Abort? && !e.DeleteLost? && !(e.PullOk? && BringsBack(e.items, id))
    ensures var c := Fire(Cfg(dev.local, rows, dev.phase), e).value;
      !e.EndDelete? && (Due(Dev(c.local, c.phase), id) || id !in c.rows)
  {
    if dev.phase.Pulling? && dev.phase.todo != [] { TailBringsNothingBack(dev.phase.todo, id); }
  }

  lemma {:induction false} MarkedIsDueOrGone(s: Sys, ms: seq<Move>, d: nat, id: Id)
    requires d in s.devs && s.devs[d].phase.Idle? && id in Tombs(s.devs[d].local)
    requires PlayAll(s, ms).Some? && forall m | m in ms :: KeepsOn(m, d, id)
    ensures d in PlayAll(s, ms).value.devs
    ensures Due(PlayAll(s, ms).value.devs[d], id) || GoneBy(s, ms, id)
  {
    if ms != [] {
      var front, m := ms[..|ms| - 1], ms[|ms| - 1];
      assert m in ms && KeepsOn(m, d, id);
      MarkedIsDueOrGone(s, front, d, id);
      var t := PlayAll(s, front).value;
      if m.d == d && Due(t.devs[d], id) { StepsStayDue(t.devs[d], t.rows, m.e, id); }
    }
  }

  /** With steps of other devices anywhere in between: once the device has ended the
      deletes of a round that lost no delete and whose pull did not bring the entry
      back, its row was gone from the server at some moment. */
  lemma {:induction false} MarkedRowIsRemoved(s: Sys, ms: seq<Move>, d: nat, id: Id)
    requires d in s.devs && s.devs[d].phase.Idle? && id in Tombs(s.devs[d].local)
    requires PlayAll(s, ms).Some? && forall m | m in ms :: KeepsOn(m, d, id)
    requires Do(d, EndDelete) in ms
    ensures GoneBy(s, ms, id)
  {
    var front, m := ms[..|ms| - 1], ms[|ms| - 1];
    assert ms == front + [m] && KeepsOn(m, d, id);
    if m == Do(d, EndDelete) {
      MarkedIsDueOrGone(s, front, d, id);
      var t := PlayAll(s, front).value;
      if Due(t.devs[d], id) { StepsStayDue(t.devs[d], t.rows, m.e, id); }
    } else {
      MarkedRowIsRemoved(s, front, d, id);
    }
  }

  /** Two entries on one device, the first on the server and marked. */
  lemma MarkIsReached() returns (ms: seq<Move>, n: nat, t: Sys, l: Local)
    ensures PlayAll(Start(map[], {0}), ms) == Some(t) && t.devs == map[0 := Dev(Tombstoned(l, [1]), Idle)]
    ensures l == Added(Single([1], Rev(5, [7])), [2], Rev(6, [8])) && t.rows == map[[1] := Row(Rev(5, [7]), 1)]
    ensures n <= |ms| && PlayAll(Start(map[], {0}), ms[..n]).Some?
    ensures [1] in PlayAll(Start(map[], {0}), ms[..n]).value.rows
  {
    var s, one: Id, two: Id := Start(map[], {0}), [1], [2];
    var first := AddAndSync(s, [], s, 0, one, Rev(5, [7]));
    l := Added(Single(one, Rev(5, [7])), two, Rev(6, [8]));
    PlaySnoc(s, first, Add(0, two, Rev(6, [8])));
    PlaySnoc(s, first + [Add(0, two, Rev(6, [8]))], Mark(0, one));
    ms, n := first + [Add(0, two, Rev(6, [8]))] + [Mark(0, one)], |first|;
    t := PlayAll(s, ms).value;
    assert ms[..n] == first;
  }

  /** It happens: from the empty start a device adds an entry, syncs, adds another,
      marks the first and syncs; the first row has left the server. */
  lemma MarkedRowLeaves() returns (ms: seq<Move>, n: nat)
    ensures PlayAll(Start(map[], {0}), ms).Some? && n <= |ms| && PlayAll(Start(map[], {0}), ms[..n]).Some?
    ensures [1] in PlayAll(Start(map[], {0}), ms[..n]).value.rows
    ensures [1] !in PlayAll(Start(map[], {0}), ms).value.rows
  {
    var before, k, t, l := MarkIsReached();
    var round := CompleteRoundExists(Tombstoned(l, [1]), t.rows, 2);
    RoundIsPlayed(Start(map[], {0}), before, t, 0, round);
    assert l.versions[[1] := -1][[2]] == 6;
    MarkedRowGoesIff(l, t.rows, StampsOf(round), [1]);
    ms, n := before + Moves(0, round), k;
    assert ms[..n] == before[..n];
  }
}
