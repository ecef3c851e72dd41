/** One device and the server as a machine whose steps are the local writes and
    remote calls of a sync round, and the closed form a whole round computes. */
module SyncRound {
  import opened Wrappers
  import opened VersionCodec
  import opened Buckets
  import opened LocalStore
  import opened SyncPolicy
  import opened SyncServer

  /** Where a round stands. Between two rounds a device is idle. */
  datatype Phase =
    | Idle
    | Pulling(todo: seq<Item>, half: bool)  // half: the head's data is written, its version is not
    | Pushing(toPush: set<Id>)
    | Deleting(toDelete: set<Id>)
    | Dropping(id: Id, entryGone: bool, later: set<Id>)  // the server has deleted id

  datatype Cfg = Cfg(local: Local, rows: Rows, phase: Phase)

  datatype Event =
    | PullOk(items: seq<Item>)
    | LocalWins
    | WriteEntry
    | WriteVersion
    | ListIds
    | PushOne(id: Id, now: int64)
    | EndPush
    | DeleteOk(id: Id)
    | DeleteAbsent(id: Id)                   // the server has no such row: the tombstone stays
    | DeleteLost(id: Id, happened: bool)     // the call fails, with or without its effect
    | DropEntry
    | DropVersion
    | EndDelete
    | Abort                                  // an error return, a crash, or a cancelled context

  /** The pull loop takes the row: the local side is offered with time 0. */
  predicate Wins(row: Row) {
    Resolve(LastWriteWins, Candidate([], 0, 0), Candidate([], row.rev.version, row.at)) == TakeRemote
  }

  /** Entries a push phase sends. */
  ghost function Pushable(l: Local): set<Id> {
    set id | id in l.entries && id in l.versions && l.versions[id] != 0 && l.versions[id] != -1
  }

  /** Entries marked for deletion. */
  ghost function Tombs(l: Local): set<Id> {
    set id | id in l.entries && id in l.versions && l.versions[id] == -1
  }

  ghost function Fire(c: Cfg, e: Event): Option<Cfg> {
    match e
    case PullOk(items) =>
      if c.phase.Idle? && IsSelection(items, c.rows, Watermark(c.local.versions))
      then Some(c.(phase := Pulling(items, false))) else None
    case LocalWins =>
      if c.phase.Pulling? && !c.phase.half && c.phase.todo != [] && !Wins(c.phase.todo[0].row)
      then Some(c.(phase := Pulling(c.phase.todo[1..], false))) else None
    case WriteEntry =>
      if c.phase.Pulling? && !c.phase.half && c.phase.todo != [] && Wins(c.phase.todo[0].row)
      then
        var x := c.phase.todo[0];
        Some(c.(local := c.local.(entries := c.local.entries[x.id := x.row.rev.data]),
                phase := Pulling(c.phase.todo, true)))
      else None
    case WriteVersion =>
      if c.phase.Pulling? && c.phase.half && c.phase.todo != []
      then
        var x := c.phase.todo[0];
        Some(c.(local := c.local.(versions := c.local.versions[x.id := x.row.rev.version]),
                phase := Pulling(c.phase.todo[1..], false)))
      else None
    case ListIds =>
      if c.phase.Pulling? && !c.phase.half && c.phase.todo == []
      then Some(c.(phase := Pushing(Pushable(c.local)))) else None
    case PushOne(id, now) =>
      if c.phase.Pushing? && id in c.phase.toPush && id in Pushable(c.local)
      then Some(c.(rows := Upsert(c.rows, id, Rev(c.local.versions[id], c.local.entries[id]), now),
                   phase := Pushing(c.phase.toPush - {id})))
      else None
    case EndPush =>
      if c.phase.Pushing? && c.phase.toPush == {}
      then Some(c.(phase := Deleting(Tombs(c.local)))) else None
    case DeleteOk(id) =>
      if c.phase.Deleting? && id in c.phase.toDelete && id in c.rows
      then Some(c.(rows := c.rows - {id}, phase := Dropping(id, false, c.phase.toDelete - {id}))) else None
    case DeleteAbsent(id) =>
      if c.phase.Deleting? && id in c.phase.toDelete && id !in c.rows
      then Some(c.(phase := Deleting(c.phase.toDelete - {id}))) else None
    case DeleteLost(id, happened) =>
      if c.phase.Deleting? && id in c.phase.toDelete
      then Some(c.(rows := if happened then c.rows - {id} else c.rows,
                   phase := Deleting(c.phase.toDelete - {id})))
      else None
    case DropEntry =>
      if c.phase.Dropping? && !c.phase.entryGone
      then Some(c.(local := c.local.(entries := c.local.entries - {c.phase.id}),
                   phase := c.phase.(entryGone := true)))
      else None
    case DropVersion =>
      if c.phase.Dropping? && c.phase.entryGone
      then Some(c.(local := c.local.(versions := c.local.versions - {c.phase.id}),
                   phase := Deleting(c.phase.later)))
      else None
    case EndDelete =>
      if c.phase.Deleting? && c.phase.toDelete == {} then Some(c.(phase := Idle)) else None
    case Abort => Some(c.(phase := Idle))
  }

  ghost function Exec(c: Cfg, es: seq<Event>): Option<Cfg> {
    if es == [] then Some(c) else
      match Exec(c, es[..|es| - 1])
      case None => None
      case Some(m) => Fire(m, es[|es| - 1])
  }

  lemma ExecSnoc(c: Cfg, es: seq<Event>, e: Event)
    ensures Exec(c, es + [e]) == match Exec(c, es) case None => None case Some(m) => Fire(m, e)
  {
  }

  lemma {:induction false} ExecAppend(c: Cfg, es: seq<Event>, fs: seq<Event>)
    requires Exec(c, es).Some?
    ensures Exec(c, es + fs) == Exec(Exec(c, es).value, fs)
  {
    if fs == [] {
      assert es + fs == es;
    } else {
      var n := |fs| - 1;
      assert es + fs == (es + fs[..n]) + [fs[n]];
      ExecAppend(c, es, fs[..n]);
      ExecSnoc(c, es + fs[..n], fs[n]);
    }
  }

  /** One pull, at the start; after it no abort and, when `strict`, no failed delete. */
  ghost predicate OneRound(es: seq<Event>, strict: bool) {
    && es != []
    && var e := es[|es| - 1];
       if |es| == 1 then e.PullOk?
       else OneRound(es[..|es| - 1], strict) && !e.PullOk? && !e.Abort? && !(strict && e.DeleteLost?)
  }

  /** An uninterrupted round without failures, from its pull to the end of its deletes. */
  ghost predicate Complete(es: seq<Event>) {
    OneRound(es, true) && es[|es| - 1].EndDelete?
  }

  type Stamps = map<Id, int64>

  /** The server's clock reading at the push of each id. */
  ghost function StampsOf(es: seq<Event>): Stamps {
    if es == [] then map[] else
      var rest := StampsOf(es[..|es| - 1]);
      match es[|es| - 1]
      case PushOne(id, now) => rest[id := now]
      case _ => rest
  }

  // ---------- the closed form ----------

  /** Ids a pull overrides: the server is above the watermark and its row wins. */
  ghost function Winners(l: Local, rows: Rows): set<Id> {
    set id | id in rows && rows[id].rev.version > Watermark(l.versions) && Wins(rows[id])
  }

  ghost function Override(l: Local, rows: Rows, es: set<Id>, vs: set<Id>): Local
    requires es <= rows.Keys && vs <= rows.Keys
  {
    Local(map id | id in l.entries.Keys + es :: if id in es then rows[id].rev.data else l.entries[id],
          map id | id in l.versions.Keys + vs :: if id in vs then rows[id].rev.version else l.versions[id])
  }

  ghost function Pulled(l: Local, rows: Rows): Local {
    Override(l, rows, Winners(l, rows), Winners(l, rows))
  }

  /** The server joined by strict version with the given local entries. */
  ghost function Joined(l: Local, rows: Rows, ids: set<Id>, at: Stamps): Rows
    requires ids <= Pushable(l)
  {
    map id | id in rows.Keys + ids ::
      if id in ids && Accepts(rows, id, l.versions[id])
      then Row(Rev(l.versions[id], l.entries[id]), if id in at then at[id] else 0)
      else rows[id]
  }

  ghost function SyncRows(l: Local, rows: Rows, at: Stamps): Rows {
    var p := Pulled(l, rows);
    Joined(p, rows, Pushable(p), at) - Tombs(p)
  }

  ghost function Cut(l: Local, es: set<Id>, vs: set<Id>): Local {
    Local(l.entries - es, l.versions - vs)
  }

  ghost function SyncLocal(l: Local, rows: Rows): Local {
    var p := Pulled(l, rows);
    var gone := Tombs(p) * rows.Keys;
    Cut(p, gone, gone)
  }

  // ---------- every uninterrupted round computes the closed form ----------

  ghost function ItemIds(items: seq<Item>): set<Id> {
    set i | 0 <= i < |items| :: items[i].id
  }

  ghost predicate ItemsOf(todo: seq<Item>, rows: Rows) {
    && (forall i | 0 <= i < |todo| :: todo[i].id in rows && todo[i].row == rows[todo[i].id])
    && (forall i, j | 0 <= i < j < |todo| :: todo[i].id != todo[j].id)
  }

  /** A pull loop with `todo` to go has overridden the winners it has passed. */
  ghost predicate MidPull(l: Local, rows: Rows, c: Cfg, todo: seq<Item>, half: bool) {
    var win := Winners(l, rows);
    && c.rows == rows && ItemsOf(todo, rows)
    && (forall i | 0 <= i < |todo| && Wins(todo[i].row) :: todo[i].id in win)
    && (half ==> todo != [] && Wins(todo[0].row))
    && var applied := win - ItemIds(todo);
       c.local == Override(l, rows, if half then applied + {todo[0].id} else applied, applied)
  }

  ghost predicate MidPush(p: Local, rows: Rows, at: Stamps, c: Cfg, toPush: set<Id>) {
    && c.local == p && toPush <= Pushable(p)
    && c.rows == Joined(p, rows, Pushable(p) - toPush, at)
  }

  ghost predicate MidDelete(p: Local, rows: Rows, full: Rows, c: Cfg, toDelete: set<Id>) {
    var past := Tombs(p) - toDelete;
    && toDelete <= Tombs(p)
    && c.local == Cut(p, past * rows.Keys, past * rows.Keys)
    && c.rows == full - past
  }

  ghost predicate MidDrop(p: Local, rows: Rows, full: Rows, c: Cfg, id: Id, entryGone: bool, later: set<Id>) {
    var past := Tombs(p) - later;
    var gone := (past - {id}) * rows.Keys;
    && later <= Tombs(p) && id in past && id in rows
    && c.local == Cut(p, if entryGone then gone + {id} else gone, gone)
    && c.rows == full - past
  }

  /** What every moment of a quiet round looks like, told from its start. */
  ghost predicate Midway(l: Local, rows: Rows, at: Stamps, c: Cfg) {
    var p := Pulled(l, rows);
    match c.phase
    case Idle => c.local == SyncLocal(l, rows) && c.rows == SyncRows(l, rows, at)
    case Pulling(todo, half) => MidPull(l, rows, c, todo, half)
    case Pushing(toPush) => MidPush(p, rows, at, c, toPush)
    case Deleting(toDelete) => MidDelete(p, rows, Joined(p, rows, Pushable(p), at), c, toDelete)
    case Dropping(id, entryGone, later) =>
      MidDrop(p, rows, Joined(p, rows, Pushable(p), at), c, id, entryGone, later)
  }

  lemma ItemIdsOfTail(todo: seq<Item>, rows: Rows)
    requires todo != [] && ItemsOf(todo, rows)
    ensures ItemsOf(todo[1..], rows)
    ensures ItemIds(todo) == ItemIds(todo[1..]) + {todo[0].id}
    ensures todo[0].id !in ItemIds(todo[1..])
  {
  }

  lemma OverrideNothing(l: Local, rows: Rows)
    ensures Override(l, rows, {}, {}) == l
  {
  }

  lemma OverrideEntry(l: Local, rows: Rows, es: set<Id>, vs: set<Id>, id: Id)
    requires es <= rows.Keys && vs <= rows.Keys && id in rows
    ensures var o := Override(l, rows, es, vs);
      Override(l, rows, es + {id}, vs) == o.(entries := o.entries[id := rows[id].rev.data])
  {
  }

  lemma OverrideVersion(l: Local, rows: Rows, es: set<Id>, vs: set<Id>, id: Id)
    requires es <= rows.Keys && vs <= rows.Keys && id in rows
    ensures var o := Override(l, rows, es, vs);
      Override(l, rows, es, vs + {id}) == o.(versions := o.versions[id := rows[id].rev.version])
  {
  }

  lemma JoinOne(p: Local, rows: Rows, ids: set<Id>, at: Stamps, id: Id, now: int64)
    requires id in Pushable(p) && id !in ids && ids <= Pushable(p)
    ensures Joined(p, rows, ids + {id}, at[id := now]) ==
            Upsert(Joined(p, rows, ids, at), id, Rev(p.versions[id], p.entries[id]), now)
  {
  }

  lemma MidPullStarts(l: Local, rows: Rows, items: seq<Item>)
    requires IsSelection(items, rows, Watermark(l.versions))
    ensures MidPull(l, rows, Cfg(l, rows, Pulling(items, false)), items, false)
  {
    var win := Winners(l, rows);
    forall id | id in win ensures id in ItemIds(items) {
      assert HasItem(items, id);
      var i :| 0 <= i < |items| && items[i].id == id;
    }
    assert win - ItemIds(items) == {};
    OverrideNothing(l, rows);
  }

  lemma MidPullSkips(l: Local, rows: Rows, c: Cfg, todo: seq<Item>)
    requires MidPull(l, rows, c, todo, false) && todo != [] && !Wins(todo[0].row)
    ensures MidPull(l, rows, c.(phase := Pulling(todo[1..], false)), todo[1..], false)
  {
    ItemIdsOfTail(todo, rows);
    assert Winners(l, rows) - ItemIds(todo[1..]) == Winners(l, rows) - ItemIds(todo);
  }

  lemma MidPullWrites(l: Local, rows: Rows, c: Cfg, todo: seq<Item>)
    requires MidPull(l, rows, c, todo, false) && todo != [] && Wins(todo[0].row)
    ensures MidPull(l, rows, Fire(c.(phase := Pulling(todo, false)), WriteEntry).value, todo, true)
  {
    var applied := Winners(l, rows) - ItemIds(todo);
    OverrideEntry(l, rows, applied, applied, todo[0].id);
  }

  lemma MidPullAdvances(l: Local, rows: Rows, c: Cfg, todo: seq<Item>)
    requires MidPull(l, rows, c, todo, true)
    ensures MidPull(l, rows, Fire(c.(phase := Pulling(todo, true)), WriteVersion).value, todo[1..], false)
  {
    ItemIdsOfTail(todo, rows);
    var applied, id := Winners(l, rows) - ItemIds(todo), todo[0].id;
    assert Winners(l, rows) - ItemIds(todo[1..]) == applied + {id};
    OverrideVersion(l, rows, applied + {id}, applied, id);
  }

  lemma MidPullEnds(l: Local, rows: Rows, at: Stamps, c: Cfg)
    requires MidPull(l, rows, c, [], false)
    ensures var p := Pulled(l, rows); MidPush(p, rows, at, c.(phase := Pushing(Pushable(p))), Pushable(p))
  {
    var p := Pulled(l, rows);
    assert Winners(l, rows) - ItemIds([]) == Winners(l, rows);
    assert Pushable(p) - Pushable(p) == {};
    assert Joined(p, rows, {}, at) == rows;
  }

  lemma MidPushAdvances(p: Local, rows: Rows, at: Stamps, c: Cfg, toPush: set<Id>, id: Id, now: int64)
    requires MidPush(p, rows, at, c, toPush) && id in toPush
    ensures MidPush(p, rows, at[id := now],
      Cfg(c.local, Upsert(c.rows, id, Rev(p.versions[id], p.entries[id]), now), Pushing(toPush - {id})), toPush - {id})
  {
    var done := Pushable(p) - toPush;
    assert Pushable(p) - (toPush - {id}) == done + {id};
    JoinOne(p, rows, done, at, id, now);
  }

  lemma MidPushEnds(p: Local, rows: Rows, at: Stamps, c: Cfg)
    requires MidPush(p, rows, at, c, {})
    ensures MidDelete(p, rows, Joined(p, rows, Pushable(p), at), c.(phase := Deleting(Tombs(p))), Tombs(p))
  {
  }

  lemma MidDeletePasses(p: Local, rows: Rows, full: Rows, c: Cfg, toDelete: set<Id>, id: Id)
    requires MidDelete(p, rows, full, c, toDelete) && id in toDelete && id !in c.rows
    requires id in rows ==> id in full
    ensures MidDelete(p, rows, full, c.(phase := Deleting(toDelete - {id})), toDelete - {id})
  {
  }

  lemma MidDeleteTakes(p: Local, rows: Rows, full: Rows, c: Cfg, toDelete: set<Id>, id: Id)
    requires MidDelete(p, rows, full, c, toDelete) && id in toDelete && id in rows
    ensures var later := toDelete - {id};
      MidDrop(p, rows, full, Cfg(c.local, c.rows - {id}, Dropping(id, false, later)), id, false, later)
  {
  }

  lemma MidDropsEntry(p: Local, rows: Rows, full: Rows, c: Cfg, id: Id, later: set<Id>)
    requires MidDrop(p, rows, full, c, id, false, later)
    ensures MidDrop(p, rows, full,
      Cfg(c.local.(entries := c.local.entries - {id}), c.rows, Dropping(id, true, later)), id, true, later)
  {
  }

  lemma MidDropsVersion(p: Local, rows: Rows, full: Rows, c: Cfg, id: Id, later: set<Id>)
    requires MidDrop(p, rows, full, c, id, true, later)
    ensures MidDelete(p, rows, full,
      Cfg(c.local.(versions := c.local.versions - {id}), c.rows, Deleting(later)), later)
  {
  }

  lemma MidDeleteEnds(l: Local, rows: Rows, at: Stamps, c: Cfg)
    requires var p := Pulled(l, rows); MidDelete(p, rows, Joined(p, rows, Pushable(p), at), c, {})
    ensures c.local == SyncLocal(l, rows) && c.rows == SyncRows(l, rows, at)
  {
    var p := Pulled(l, rows);
    assert Tombs(p) - {} == Tombs(p);
  }

  lemma MidwayFires(l: Local, rows: Rows, at: Stamps, c: Cfg, e: Event)
    requires Midway(l, rows, at, c) && Fire(c, e).Some?
    requires !e.PullOk? && !e.Abort? && !e.DeleteLost? && !e.PushOne?
    ensures Midway(l, rows, at, Fire(c, e).value)
  {
    var p := Pulled(l, rows);
    var full := Joined(p, rows, Pushable(p), at);
    match e {
      case LocalWins => MidPullSkips(l, rows, c, c.phase.todo);
      case WriteEntry => MidPullWrites(l, rows, c, c.phase.todo);
      case WriteVersion => MidPullAdvances(l, rows, c, c.phase.todo);
      case ListIds =>
        MidPullEnds(l, rows, at, c);
      case EndPush => MidPushEnds(p, rows, at, c);
      case DeleteOk(id) =>
        assert id in rows;
        MidDeleteTakes(p, rows, full, c, c.phase.toDelete, id);
      case DeleteAbsent(id) =>
        assert id in rows ==> id in full;
        MidDeletePasses(p, rows, full, c, c.phase.toDelete, id);
      case DropEntry => MidDropsEntry(p, rows, full, c, c.phase.id, c.phase.later);
      case DropVersion => MidDropsVersion(p, rows, full, c, c.phase.id, c.phase.later);
      case EndDelete => MidDeleteEnds(l, rows, at, c);
    }
  }

  lemma FirstIsMidway(l: Local, rows: Rows, es: seq<Event>)
    requires |es| == 1 && es[0].PullOk? && Exec(Cfg(l, rows, Idle), es).Some?
    ensures Midway(l, rows, StampsOf(es), Exec(Cfg(l, rows, Idle), es).value)
  {
    var start := Cfg(l, rows, Idle);
    assert es[..0] == [] && Exec(start, es[..0]) == Some(start) && StampsOf(es[..0]) == map[];
    MidPullStarts(l, rows, es[0].items);
  }

  lemma NextIsMidway(l: Local, rows: Rows, at: Stamps, c: Cfg, e: Event)
    requires Midway(l, rows, at, c) && Fire(c, e).Some?
    requires !e.PullOk? && !e.Abort? && !e.DeleteLost?
    ensures Midway(l, rows, if e.PushOne? then at[e.id := e.now] else at, Fire(c, e).value)
  {
    if e.PushOne? {
      MidPushAdvances(Pulled(l, rows), rows, at, c, c.phase.toPush, e.id, e.now);
    } else {
      MidwayFires(l, rows, at, c, e);
    }
  }

  lemma {:induction false} RoundIsMidway(l: Local, rows: Rows, es: seq<Event>)
    requires OneRound(es, true)
    requires Exec(Cfg(l, rows, Idle), es).Some?
    ensures Midway(l, rows, StampsOf(es), Exec(Cfg(l, rows, Idle), es).value)
  {
    if |es| == 1 {
      FirstIsMidway(l, rows, es);
    } else {
      var front, e := es[..|es| - 1], es[|es| - 1];
      RoundIsMidway(l, rows, front);
      NextIsMidway(l, rows, StampsOf(front), Exec(Cfg(l, rows, Idle), front).value, e);
    }
  }

  lemma EndsIdle(c: Cfg, es: seq<Event>)
    requires es != [] && es[|es| - 1].EndDelete? && Exec(c, es).Some?
    ensures Exec(c, es).value.phase == Idle
  {
  }

  lemma IdleIsMerged(l: Local, rows: Rows, at: Stamps, c: Cfg)
    requires Midway(l, rows, at, c) && c.phase == Idle
    ensures c == Cfg(SyncLocal(l, rows), SyncRows(l, rows, at), Idle)
  {
  }

  /** Whatever order the loops take and whatever the clock shows, a round that is
      not interrupted ends idle with exactly the closed form on both sides. */
  lemma RoundComputesTheMerge(l: Local, rows: Rows, es: seq<Event>)
    requires Complete(es)
    requires Exec(Cfg(l, rows, Idle), es).Some?
    ensures Exec(Cfg(l, rows, Idle), es) == Some(Cfg(SyncLocal(l, rows), SyncRows(l, rows, StampsOf(es)), Idle))
  {
    RoundIsMidway(l, rows, es);
    EndsIdle(Cfg(l, rows, Idle), es);
    IdleIsMerged(l, rows, StampsOf(es), Exec(Cfg(l, rows, Idle), es).value);
  }
}
