/** Interrupted rounds: any number of attempts cut short anywhere, then one
    complete round, leave what one uninterrupted round leaves. */
module Recovery {
  import opened Wrappers
  import opened ByteStrings
  import opened VersionCodec
  import opened Buckets
  import opened LocalStore
  import opened SyncServer
  import opened SyncRound

  /** What a user is shown: the entries not marked for deletion, with their versions. */
  ghost function Live(l: Local): map<Id, (Bytes, Option<int64>)> {
    map id | id in l.entries && !(id in l.versions && l.versions[id] == -1) ::
      (l.entries[id], if id in l.versions then Some(l.versions[id]) else None)
  }

  datatype Outcome = Outcome(server: map<Id, Rev>, view: map<Id, (Bytes, Option<int64>)>)

  /** What an uninterrupted round from here would leave, but for stored times. */
  ghost function OutcomeOf(l: Local, rows: Rows): Outcome {
    Outcome(Revs(SyncRows(l, rows, map[])), Live(SyncLocal(l, rows)))
  }

  /** No two rows the next pull would apply share a version. */
  ghost predicate DistinctAbove(l: Local, rows: Rows) {
    forall a, b | a in Winners(l, rows) && b in Winners(l, rows) && a != b ::
      rows[a].rev.version != rows[b].rev.version
  }

  // ---------- the watermark under single writes ----------

  lemma WatermarkRises(vs: map<Id, int64>, id: Id, v: int64)
    requires v >= Watermark(vs)
    ensures Watermark(vs[id := v]) == v
  {
    assert vs[id := v][id] == v;
  }

  lemma WatermarkIgnoresTombs(vs: map<Id, int64>, id: Id)
    requires id in vs && vs[id] <= 0
    ensures Watermark(vs - {id}) == Watermark(vs)
  {
    var w := Watermark(vs);
    if w != 0 {
      var j :| j in vs && vs[j] == w;
      assert j in vs - {id};
    }
  }

  // ---------- what keeps an outcome ----------

  lemma LiveIgnoresTombs(l: Local, gone: set<Id>)
    requires gone <= Tombs(l)
    ensures Live(Cut(l, gone, gone)) == Live(l)
  {
  }

  /** What remains for the server once a pull would bring nothing. */
  ghost function Target(l: Local, rows: Rows): map<Id, Rev> {
    map id | id in rows.Keys + Pushable(l) && id !in Tombs(l) ::
      if id in Pushable(l) && Accepts(rows, id, l.versions[id]) then Rev(l.versions[id], l.entries[id])
      else rows[id].rev
  }

  lemma JoinedIsTarget(l: Local, rows: Rows)
    ensures Revs(Joined(l, rows, Pushable(l), map[]) - Tombs(l)) == Target(l, rows)
  {
    assert Pushable(l) !! Tombs(l);
  }

  lemma SettledOutcome(l: Local, rows: Rows)
    requires Winners(l, rows) == {}
    ensures OutcomeOf(l, rows) == Outcome(Target(l, rows), Live(l))
  {
    OverrideNothing(l, rows);
    assert Pulled(l, rows) == l;
    LiveIgnoresTombs(l, Tombs(l) * rows.Keys);
    JoinedIsTarget(l, rows);
  }

  lemma SameOutcome(l: Local, rows: Rows, m: Local, next: Rows)
    requires Winners(l, rows) == {} && Winners(m, next) == {}
    requires Target(l, rows) == Target(m, next) && Live(l) == Live(m)
    ensures OutcomeOf(l, rows) == OutcomeOf(m, next)
  {
    SettledOutcome(l, rows);
    SettledOutcome(m, next);
  }

  lemma PushKeepsTarget(l: Local, rows: Rows, id: Id, now: int64)
    requires id in Pushable(l)
    ensures Target(l, Upsert(rows, id, Rev(l.versions[id], l.entries[id]), now)) == Target(l, rows)
  {
  }

  lemma PushKeepsOutcome(l: Local, rows: Rows, id: Id, now: int64)
    requires Winners(l, rows) == {} && id in Pushable(l)
    ensures var next := Upsert(rows, id, Rev(l.versions[id], l.entries[id]), now);
      Winners(l, next) == {} && OutcomeOf(l, next) == OutcomeOf(l, rows)
  {
    var next := Upsert(rows, id, Rev(l.versions[id], l.entries[id]), now);
    forall x ensures x !in Winners(l, next) {
      if x != id { assert x !in Winners(l, rows); }
    }
    PushKeepsTarget(l, rows, id, now);
    SameOutcome(l, rows, l, next);
  }

  lemma DeleteKeepsTarget(l: Local, rows: Rows, id: Id)
    requires id in Tombs(l)
    ensures Target(l, rows - {id}) == Target(l, rows)
  {
  }

  lemma DeleteKeepsOutcome(l: Local, rows: Rows, id: Id)
    requires Winners(l, rows) == {} && id in Tombs(l)
    ensures Winners(l, rows - {id}) == {} && OutcomeOf(l, rows - {id}) == OutcomeOf(l, rows)
  {
    forall x ensures x !in Winners(l, rows - {id}) {
      assert x !in Winners(l, rows);
    }
    DeleteKeepsTarget(l, rows, id);
    SameOutcome(l, rows, l, rows - {id});
  }

  lemma DropKeepsTarget(l: Local, m: Local, rows: Rows, id: Id)
    requires id !in rows && id !in Pushable(l)
    requires Pushable(m) == Pushable(l) && Tombs(m) == Tombs(l) - {id}
    requires forall x | x in Pushable(l) :: m.versions[x] == l.versions[x] && m.entries[x] == l.entries[x]
    ensures Target(m, rows) == Target(l, rows)
  {
  }

  lemma DropEntryKeepsOutcome(l: Local, rows: Rows, id: Id)
    requires Winners(l, rows) == {} && id !in rows && id in l.versions && l.versions[id] == -1
    ensures var m := l.(entries := l.entries - {id});
      && Winners(m, rows) == {} && OutcomeOf(m, rows) == OutcomeOf(l, rows)
      && Tombs(m) == Tombs(l) - {id}
  {
    var m := l.(entries := l.entries - {id});
    assert Winners(m, rows) == Winners(l, rows);
    assert Pushable(m) == Pushable(l) && Tombs(m) == Tombs(l) - {id};
    DropKeepsTarget(l, m, rows, id);
    assert Live(m) == Live(l);
    SameOutcome(l, rows, m, rows);
  }

  lemma DropVersionKeepsSets(l: Local, rows: Rows, id: Id)
    requires id !in rows && id !in l.entries && id in l.versions && l.versions[id] == -1
    ensures var m := l.(versions := l.versions - {id});
      Winners(m, rows) == Winners(l, rows) && Pushable(m) == Pushable(l) && Tombs(m) == Tombs(l)
  {
    WatermarkIgnoresTombs(l.versions, id);
  }

  lemma DropVersionKeepsOutcome(l: Local, rows: Rows, id: Id)
    requires Winners(l, rows) == {} && id !in rows
    requires id !in l.entries && id in l.versions && l.versions[id] == -1
    ensures var m := l.(versions := l.versions - {id});
      && Winners(m, rows) == {} && OutcomeOf(m, rows) == OutcomeOf(l, rows)
      && Tombs(m) == Tombs(l)
  {
    var m := l.(versions := l.versions - {id});
    DropVersionKeepsSets(l, rows, id);
    DropKeepsTarget(l, m, rows, id);
    assert Live(m) == Live(l);
    SameOutcome(l, rows, m, rows);
  }

  // ---------- the invariant of interrupted runs ----------

  /** The winners left are the winning items left, in strictly ascending order. */
  ghost predicate Tracks(l: Local, rows: Rows, todo: seq<Item>) {
    && ItemsOf(todo, rows)
    && (forall i | 0 <= i < |todo| && Wins(todo[i].row) :: todo[i].id in Winners(l, rows))
    && (forall id | id in Winners(l, rows) :: id in ItemIds(todo))
    && (forall i, j | 0 <= i < j < |todo| && Wins(todo[i].row) && Wins(todo[j].row) ::
          todo[i].row.rev.version < todo[j].row.rev.version)
  }

  ghost predicate HalfWritten(l: Local, todo: seq<Item>) {
    && todo != [] && Wins(todo[0].row)
    && todo[0].id in l.entries && l.entries[todo[0].id] == todo[0].row.rev.data
  }

  ghost predicate Recoverable(c: Cfg) {
    match c.phase
    case Idle => DistinctAbove(c.local, c.rows)
    case Pulling(todo, half) => Tracks(c.local, c.rows, todo) && (half ==> HalfWritten(c.local, todo))
    case Pushing(_) => Winners(c.local, c.rows) == {}
    case Deleting(toDelete) => Winners(c.local, c.rows) == {} && toDelete <= Tombs(c.local)
    case Dropping(id, entryGone, later) =>
      && Winners(c.local, c.rows) == {} && later <= Tombs(c.local) && id !in later && id !in c.rows
      && id in c.local.versions && c.local.versions[id] == -1
      && (entryGone ==> id !in c.local.entries)
  }

  lemma TrackedIsDistinct(l: Local, rows: Rows, todo: seq<Item>)
    requires Tracks(l, rows, todo)
    ensures DistinctAbove(l, rows)
  {
  }

  lemma PullIsTracked(l: Local, rows: Rows, items: seq<Item>)
    requires DistinctAbove(l, rows) && IsSelection(items, rows, Watermark(l.versions))
    ensures Tracks(l, rows, items)
  {
    forall id | id in Winners(l, rows) ensures id in ItemIds(items) {
      assert HasItem(items, id);
      var i :| 0 <= i < |items| && items[i].id == id;
    }
    forall i, j | 0 <= i < j < |items| && Wins(items[i].row) && Wins(items[j].row)
      ensures items[i].row.rev.version < items[j].row.rev.version
    {
      assert items[i].id in Winners(l, rows) && items[j].id in Winners(l, rows);
    }
  }

  lemma SkipIsTracked(l: Local, rows: Rows, todo: seq<Item>)
    requires Tracks(l, rows, todo) && todo != [] && !Wins(todo[0].row)
    ensures Tracks(l, rows, todo[1..])
  {
  }

  /** An outcome depends on the local side only through the pulled store. */
  lemma PulledDecides(l: Local, m: Local, rows: Rows)
    requires Pulled(m, rows) == Pulled(l, rows)
    ensures OutcomeOf(m, rows) == OutcomeOf(l, rows)
  {
  }

  lemma EntryKeepsPulled(l: Local, rows: Rows, id: Id)
    requires id in Winners(l, rows)
    ensures var m := l.(entries := l.entries[id := rows[id].rev.data]);
      Winners(m, rows) == Winners(l, rows) && Pulled(m, rows) == Pulled(l, rows)
  {
  }

  lemma EntryIsTracked(l: Local, rows: Rows, todo: seq<Item>)
    requires Tracks(l, rows, todo) && todo != [] && Wins(todo[0].row)
    ensures var m := l.(entries := l.entries[todo[0].id := todo[0].row.rev.data]);
      Tracks(m, rows, todo) && HalfWritten(m, todo) && OutcomeOf(m, rows) == OutcomeOf(l, rows)
  {
    EntryKeepsPulled(l, rows, todo[0].id);
    PulledDecides(l, l.(entries := l.entries[todo[0].id := todo[0].row.rev.data]), rows);
  }

  lemma VersionKeepsPulled(l: Local, rows: Rows, id: Id)
    requires id in Winners(l, rows) && id in l.entries && l.entries[id] == rows[id].rev.data
    requires var m := l.(versions := l.versions[id := rows[id].rev.version]);
      Winners(m, rows) == Winners(l, rows) - {id}
    ensures var m := l.(versions := l.versions[id := rows[id].rev.version]); Pulled(m, rows) == Pulled(l, rows)
  {
  }

  lemma VersionLeavesTheRest(l: Local, rows: Rows, todo: seq<Item>)
    requires Tracks(l, rows, todo) && HalfWritten(l, todo)
    ensures var m := l.(versions := l.versions[todo[0].id := todo[0].row.rev.version]);
      Winners(m, rows) == Winners(l, rows) - {todo[0].id}
  {
    var id, v := todo[0].id, todo[0].row.rev.version;
    var m := l.(versions := l.versions[id := v]);
    assert id in Winners(l, rows);
    WatermarkRises(l.versions, id, v);
    forall x | x in Winners(l, rows) && x != id ensures rows[x].rev.version > v {
      assert x in ItemIds(todo);
      var i :| 0 <= i < |todo| && todo[i].id == x;
    }
  }

  lemma VersionIsTracked(l: Local, rows: Rows, todo: seq<Item>)
    requires Tracks(l, rows, todo) && HalfWritten(l, todo)
    ensures var m := l.(versions := l.versions[todo[0].id := todo[0].row.rev.version]);
      Tracks(m, rows, todo[1..]) && OutcomeOf(m, rows) == OutcomeOf(l, rows)
  {
    var m := l.(versions := l.versions[todo[0].id := todo[0].row.rev.version]);
    VersionLeavesTheRest(l, rows, todo);
    VersionKeepsPulled(l, rows, todo[0].id);
    PulledDecides(l, m, rows);
    ItemIdsOfTail(todo, rows);
  }

  lemma FireKeepsOutcome(c: Cfg, e: Event)
    requires Recoverable(c) && Fire(c, e).Some?
    ensures var d := Fire(c, e).value;
      Recoverable(d) && OutcomeOf(d.local, d.rows) == OutcomeOf(c.local, c.rows)
  {
    var l, rows := c.local, c.rows;
    match e {
      case PullOk(items) => PullIsTracked(l, rows, items);
      case LocalWins => SkipIsTracked(l, rows, c.phase.todo);
      case WriteEntry => EntryIsTracked(l, rows, c.phase.todo);
      case WriteVersion => VersionIsTracked(l, rows, c.phase.todo);
      case ListIds =>
        assert ItemIds(c.phase.todo) == {};
      case PushOne(id, now) => PushKeepsOutcome(l, rows, id, now);
      case EndPush =>
      case DeleteOk(id) => DeleteKeepsOutcome(l, rows, id);
      case DeleteAbsent(id) =>
      case DeleteLost(id, happened) =>
        if happened { DeleteKeepsOutcome(l, rows, id); }
      case DropEntry =>
        DropEntryKeepsOutcome(l, rows, c.phase.id);
      case DropVersion =>
        DropVersionKeepsOutcome(l, rows, c.phase.id);
      case EndDelete =>
      case Abort =>
        if c.phase.Pulling? { TrackedIsDistinct(l, rows, c.phase.todo); }
    }
  }

  lemma {:induction false} RunKeepsOutcome(c: Cfg, es: seq<Event>)
    requires Recoverable(c) && Exec(c, es).Some?
    ensures var d := Exec(c, es).value;
      Recoverable(d) && OutcomeOf(d.local, d.rows) == OutcomeOf(c.local, c.rows)
  {
    if es != [] {
      RunKeepsOutcome(c, es[..|es| - 1]);
      FireKeepsOutcome(Exec(c, es[..|es| - 1]).value, es[|es| - 1]);
    }
  }

  lemma TimesDoNotShow(l: Local, rows: Rows, at: Stamps)
    ensures Revs(SyncRows(l, rows, at)) == Revs(SyncRows(l, rows, map[]))
  {
  }

  /** Attempts may stop after any local write or remote call, and their deletes
      may be lost; one complete round afterwards leaves the server's revisions
      and the live view exactly as an uninterrupted round would have. */
  lemma CrashRecovery(l: Local, rows: Rows, attempts: seq<Event>, last: seq<Event>, whole: seq<Event>)
    requires DistinctAbove(l, rows)
    requires Exec(Cfg(l, rows, Idle), attempts).Some?
    requires Exec(Cfg(l, rows, Idle), attempts).value.phase == Idle
    requires Complete(last) && Exec(Exec(Cfg(l, rows, Idle), attempts).value, last).Some?
    requires Complete(whole) && Exec(Cfg(l, rows, Idle), whole).Some?
    ensures var x := Exec(Cfg(l, rows, Idle), attempts + last);
      var y := Exec(Cfg(l, rows, Idle), whole);
      && x.Some?
      && Revs(x.value.rows) == Revs(y.value.rows)
      && Live(x.value.local) == Live(y.value.local)
  {
    var start := Cfg(l, rows, Idle);
    var m := Exec(start, attempts).value;
    ExecAppend(start, attempts, last);
    RunKeepsOutcome(start, attempts);
    RoundComputesTheMerge(m.local, m.rows, last);
    RoundComputesTheMerge(l, rows, whole);
    TimesDoNotShow(m.local, m.rows, StampsOf(last));
    TimesDoNotShow(l, rows, StampsOf(whole));
  }

  // ---------- and only then ----------

  /** The steps of a pull loop up to its `k`-th row. */
  ghost function PullSteps(items: seq<Item>, k: nat): seq<Event>
    requires k <= |items|
  {
    if k == 0 then [PullOk(items)]
    else if Wins(items[k - 1].row) then PullSteps(items, k - 1) + [WriteEntry] + [WriteVersion]
    else PullSteps(items, k - 1) + [LocalWins]
  }

  /** The watermark once `k` rows are taken: the last of them that won decides. */
  ghost function Reached(items: seq<Item>, k: nat, w: int64): int64
    requires k <= |items|
  {
    if k == 0 then w
    else if Wins(items[k - 1].row) then items[k - 1].row.rev.version
    else Reached(items, k - 1, w)
  }

  lemma {:induction false} ReachedIsBetween(items: seq<Item>, rows: Rows, w: int64, k: nat)
    requires IsSelection(items, rows, w) && k <= |items|
    ensures w <= Reached(items, k, w)
    ensures forall j | k - 1 <= j < |items| && 0 <= j :: Reached(items, k, w) <= items[j].row.rev.version
  {
    if k > 0 { ReachedIsBetween(items, rows, w, k - 1); }
  }

  /** The store once `k` rows are taken, each if it won. */
  ghost function Taken(l: Local, items: seq<Item>, k: nat): Local
    requires k <= |items|
  {
    if k == 0 then l else
      var m, x := Taken(l, items, k - 1), items[k - 1];
      if Wins(x.row) then Local(m.entries[x.id := x.row.rev.data], m.versions[x.id := x.row.rev.version]) else m
  }

  lemma OneRowRuns(c: Cfg, es: seq<Event>, m: Local, todo: seq<Item>)
    requires todo != [] && Exec(c, es) == Some(Cfg(m, c.rows, Pulling(todo, false)))
    ensures Wins(todo[0].row) ==> var x := todo[0];
      Exec(c, es + [WriteEntry] + [WriteVersion]) ==
        Some(Cfg(Local(m.entries[x.id := x.row.rev.data], m.versions[x.id := x.row.rev.version]), c.rows,
                 Pulling(todo[1..], false)))
    ensures !Wins(todo[0].row) ==> Exec(c, es + [LocalWins]) == Some(Cfg(m, c.rows, Pulling(todo[1..], false)))
  {
    ExecSnoc(c, es, WriteEntry);
    ExecSnoc(c, es + [WriteEntry], WriteVersion);
    ExecSnoc(c, es, LocalWins);
  }

  lemma PullStarts(l: Local, rows: Rows, items: seq<Item>)
    requires IsSelection(items, rows, Watermark(l.versions))
    ensures Exec(Cfg(l, rows, Idle), [PullOk(items)]) == Some(Cfg(l, rows, Pulling(items, false)))
  {
    ExecSnoc(Cfg(l, rows, Idle), [], PullOk(items));
    assert [] + [PullOk(items)] == [PullOk(items)];
  }

  lemma {:induction false} StartedPullRuns(c: Cfg, l: Local, items: seq<Item>, k: nat)
    requires Exec(c, [PullOk(items)]) == Some(Cfg(l, c.rows, Pulling(items, false))) && k <= |items|
    ensures Exec(c, PullSteps(items, k)) == Some(Cfg(Taken(l, items, k), c.rows, Pulling(items[k..], false)))
  {
    if k == 0 {
      assert items[0..] == items;
    } else {
      StartedPullRuns(c, l, items, k - 1);
      assert items[k - 1..][0] == items[k - 1] && items[k - 1..][1..] == items[k..];
      OneRowRuns(c, PullSteps(items, k - 1), Taken(l, items, k - 1), items[k - 1..]);
    }
  }

  lemma PullStepsRun(l: Local, rows: Rows, items: seq<Item>, k: nat)
    requires IsSelection(items, rows, Watermark(l.versions)) && k <= |items|
    ensures Exec(Cfg(l, rows, Idle), PullSteps(items, k)) ==
            Some(Cfg(Taken(l, items, k), rows, Pulling(items[k..], false)))
  {
    PullStarts(l, rows, items);
    StartedPullRuns(Cfg(l, rows, Idle), l, items, k);
  }

  lemma {:induction false} TakenWatermark(l: Local, rows: Rows, items: seq<Item>, k: nat)
    requires IsSelection(items, rows, Watermark(l.versions)) && k <= |items|
    ensures Watermark(Taken(l, items, k).versions) == Reached(items, k, Watermark(l.versions))
  {
    if k > 0 {
      TakenWatermark(l, rows, items, k - 1);
      ReachedIsBetween(items, rows, Watermark(l.versions), k - 1);
      var m, x := Taken(l, items, k - 1), items[k - 1];
      if Wins(x.row) { WatermarkRises(m.versions, x.id, x.row.rev.version); }
    }
  }

  /** Rows not yet met are as they were. */
  lemma {:induction false} TakenKeepsTheRest(l: Local, rows: Rows, items: seq<Item>, k: nat, j: nat)
    requires IsSelection(items, rows, Watermark(l.versions)) && k <= j < |items|
    ensures var id, vs := items[j].id, Taken(l, items, k).versions;
      id in vs ==> id in l.versions && vs[id] == l.versions[id]
  {
    if k > 0 { TakenKeepsTheRest(l, rows, items, k - 1, j); }
  }

  lemma RestIsNotHeld(l: Local, rows: Rows, items: seq<Item>, k: nat, j: nat)
    requires IsSelection(items, rows, Watermark(l.versions)) && k <= j < |items|
    ensures var id, vs := items[j].id, Taken(l, items, k).versions; id in vs ==> vs[id] < items[j].row.rev.version
  {
    TakenKeepsTheRest(l, rows, items, k, j);
  }

  lemma WinnerIsSeen(l: Local, rows: Rows, id: Id)
    requires id in Winners(l, rows)
    ensures var view := OutcomeOf(l, rows).view; id in view && view[id].1 == Some(rows[id].rev.version)
  {
  }

  /** The watermark is past the row though the store does not hold its version. */
  ghost predicate PassedOver(m: Local, id: Id, v: int64) {
    v <= Watermark(m.versions) && (id in m.versions ==> m.versions[id] != v)
  }

  lemma PassedRowIsNotSeen(m: Local, rows: Rows, id: Id)
    requires id in rows && PassedOver(m, id, rows[id].rev.version)
    ensures var view := OutcomeOf(m, rows).view; id in view ==> view[id].1 != Some(rows[id].rev.version)
  {
  }

  /** The attempts end idle only where an uninterrupted round would have led to
      the same outcome as one from the start. */
  ghost predicate Recovers(l: Local, rows: Rows, attempts: seq<Event>) {
    var m := Exec(Cfg(l, rows, Idle), attempts);
    m.Some? && m.value.phase == Idle ==> OutcomeOf(m.value.local, m.value.rows) == OutcomeOf(l, rows)
  }

  lemma OutcomesDiffer(l: Local, m: Local, rows: Rows, id: Id)
    requires id in Winners(l, rows) && PassedOver(m, id, rows[id].rev.version)
    ensures OutcomeOf(m, rows) != OutcomeOf(l, rows)
  {
    WinnerIsSeen(l, rows, id);
    PassedRowIsNotSeen(m, rows, id);
  }

  lemma NotRecovered(l: Local, rows: Rows, es: seq<Event>, m: Local)
    requires Exec(Cfg(l, rows, Idle), es) == Some(Cfg(m, rows, Idle))
    requires OutcomeOf(m, rows) != OutcomeOf(l, rows)
    ensures !Recovers(l, rows, es)
  {
  }

  lemma CutPassesOver(l: Local, rows: Rows, items: seq<Item>, k: nat, s: nat)
    requires IsSelection(items, rows, Watermark(l.versions)) && 0 < k <= s < |items|
    requires Wins(items[k - 1].row) && items[k - 1].row.rev.version == items[s].row.rev.version
    ensures PassedOver(Taken(l, items, k), items[s].id, items[s].row.rev.version)
  {
    TakenWatermark(l, rows, items, k);
    RestIsNotHeld(l, rows, items, k, s);
  }

  lemma AbortedAt(c: Cfg, es: seq<Event>, m: Local, rows: Rows, phase: Phase)
    requires Exec(c, es) == Some(Cfg(m, rows, phase)) && phase != Idle
    ensures Exec(c, es + [Abort]) == Some(Cfg(m, rows, Idle))
  {
  }

  lemma PositionInSelection(l: Local, rows: Rows, items: seq<Item>, id: Id) returns (i: nat)
    requires IsSelection(items, rows, Watermark(l.versions)) && id in Winners(l, rows)
    ensures i < |items| && items[i].id == id && items[i].row == rows[id]
  {
    assert HasItem(items, id);
    i :| 0 <= i < |items| && items[i].id == id;
  }

  lemma TieInSelection(l: Local, rows: Rows, items: seq<Item>) returns (f: nat, s: nat)
    requires IsSelection(items, rows, Watermark(l.versions)) && !DistinctAbove(l, rows)
    ensures f < s < |items| && items[f].row.rev.version == items[s].row.rev.version
    ensures items[f].id in Winners(l, rows) && items[s].id in Winners(l, rows)
    ensures Wins(items[f].row)
  {
    var a, b :| a in Winners(l, rows) && b in Winners(l, rows) && a != b && rows[a].rev.version == rows[b].rev.version;
    f := PositionInSelection(l, rows, items, a);
    s := PositionInSelection(l, rows, items, b);
    if s < f {
      f, s := s, f;
    }
  }

  /** A pull cut after its first `k` rows. */
  ghost function CutAfter(items: seq<Item>, k: nat): seq<Event>
    requires k <= |items|
  {
    PullSteps(items, k) + [Abort]
  }

  lemma CutRuns(l: Local, rows: Rows, items: seq<Item>, k: nat)
    requires IsSelection(items, rows, Watermark(l.versions)) && k <= |items|
    ensures Exec(Cfg(l, rows, Idle), CutAfter(items, k)) == Some(Cfg(Taken(l, items, k), rows, Idle))
  {
    PullStepsRun(l, rows, items, k);
    AbortedAt(Cfg(l, rows, Idle), PullSteps(items, k), Taken(l, items, k), rows, Pulling(items[k..], false));
  }

  /** If two rows to be applied share a version, an attempt cut between them leaves
      the watermark past the second, and a complete round from there ends in
      another outcome than one from the start. */
  lemma TiesLoseARow(l: Local, rows: Rows) returns (attempts: seq<Event>, lost: Id)
    requires !DistinctAbove(l, rows)
    ensures !Recovers(l, rows, attempts)
    ensures var e := Exec(Cfg(l, rows, Idle), attempts);
      && e.Some? && e.value.phase.Idle? && e.value.rows == rows && lost in Winners(l, rows)
      && PassedOver(e.value.local, lost, rows[lost].rev.version)
  {
    var items := SelectionExists(rows, Watermark(l.versions));
    var f, s := TieInSelection(l, rows, items);
    attempts, lost := CutAfter(items, f + 1), items[s].id;
    CutRuns(l, rows, items, f + 1);
    CutPassesOver(l, rows, items, f + 1, s);
    OutcomesDiffer(l, Taken(l, items, f + 1), rows, lost);
    NotRecovered(l, rows, attempts, Taken(l, items, f + 1));
  }

  /** Every way of interrupting rounds is recovered from if and only if no two
      rows the next pull would apply share a version. */
  lemma RecoveryIff(l: Local, rows: Rows)
    ensures DistinctAbove(l, rows) <==> forall attempts :: Recovers(l, rows, attempts)
  {
    if DistinctAbove(l, rows) {
      forall attempts ensures Recovers(l, rows, attempts) {
        if Exec(Cfg(l, rows, Idle), attempts).Some? {
          RunKeepsOutcome(Cfg(l, rows, Idle), attempts);
        }
      }
    } else {
      var attempts, lost := TiesLoseARow(l, rows);
    }
  }

  // ---------- resuming a pull ----------

  /** `w` lies between the first `k` items and the rest. */
  predicate Separates(items: seq<Item>, k: nat, w: int64)
    requires k <= |items|
  {
    (k > 0 ==> items[k - 1].row.rev.version <= w) && (k < |items| ==> w < items[k].row.rev.version)
  }

  lemma RestIsASelection(items: seq<Item>, rows: Rows, since: int64, k: nat, w: int64)
    requires IsSelection(items, rows, since) && k <= |items| && since <= w && Separates(items, k, w)
    ensures IsSelection(items[k..], rows, w)
  {
    var rest := items[k..];
    assert forall i | 0 <= i < |rest| :: rest[i] == items[k + i];
    forall id | id in rows && rows[id].rev.version > w ensures HasItem(rest, id) {
      assert HasItem(items, id);
      var i :| 0 <= i < |items| && items[i].id == id;
      assert rest[i - k].id == id;
    }
  }

  lemma SelectionSeparates(items: seq<Item>, rows: Rows, since: int64, k: nat, w: int64)
    requires IsSelection(items, rows, since) && k <= |items| && IsSelection(items[k..], rows, w)
    ensures Separates(items, k, w)
  {
    var rest := items[k..];
    assert k < |items| ==> rest[0] == items[k];
    if k > 0 {
      forall i | 0 <= i < |rest| ensures rest[i].id != items[k - 1].id {
        assert rest[i] == items[k + i];
      }
      assert !HasItem(rest, items[k - 1].id);
    }
  }

  /** The `k`-th row's version was reached by a row that won, and the next row is
      above it. */
  ghost predicate CleanCut(items: seq<Item>, k: nat)
    requires k <= |items|
  {
    k > 0 ==>
      && (exists i :: 0 <= i < k && Wins(items[i].row) && items[i].row.rev.version == items[k - 1].row.rev.version)
      && (k < |items| ==> items[k - 1].row.rev.version < items[k].row.rev.version)
  }

  lemma {:induction false} ReachedIsAWinner(items: seq<Item>, rows: Rows, w: int64, k: nat)
    requires IsSelection(items, rows, w) && k <= |items|
    ensures forall i | 0 <= i < k && Wins(items[i].row) :: items[i].row.rev.version <= Reached(items, k, w)
    ensures Reached(items, k, w) == w
      || exists i :: 0 <= i < k && Wins(items[i].row) && items[i].row.rev.version == Reached(items, k, w)
  {
    if k > 0 {
      ReachedIsAWinner(items, rows, w, k - 1);
    }
  }

  lemma SeparatesIff(items: seq<Item>, rows: Rows, w: int64, k: nat)
    requires IsSelection(items, rows, w) && k <= |items|
    ensures Separates(items, k, Reached(items, k, w)) <==> CleanCut(items, k)
  {
    ReachedIsBetween(items, rows, w, k);
    ReachedIsAWinner(items, rows, w, k);
  }

  /** A pull loop interrupted after its first `k` rows: the next pull may return
      exactly the rest if and only if the cut does not fall between two rows of
      one version and the last version before it was really taken. */
  lemma PullResumesIff(l: Local, rows: Rows, items: seq<Item>, k: nat)
    requires IsSelection(items, rows, Watermark(l.versions)) && k <= |items|
    ensures var c := Exec(Cfg(l, rows, Idle), PullSteps(items, k));
      && c.Some? && c.value.rows == rows && c.value.phase == Pulling(items[k..], false)
      && (IsSelection(items[k..], rows, Watermark(c.value.local.versions)) <==> CleanCut(items, k))
  {
    var w := Watermark(l.versions);
    PullStepsRun(l, rows, items, k);
    TakenWatermark(l, rows, items, k);
    SeparatesIff(items, rows, w, k);
    if Separates(items, k, Reached(items, k, w)) {
      ReachedIsBetween(items, rows, w, k);
      RestIsASelection(items, rows, w, k, Reached(items, k, w));
    } else if IsSelection(items[k..], rows, Reached(items, k, w)) {
      SelectionSeparates(items, rows, w, k, Reached(items, k, w));
    }
  }
}
