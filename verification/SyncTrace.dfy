/** Runs of the round machine as the client's loops perform them: one lemma for
    each thing a loop does, and where each loop stands in between. */
module SyncTrace {
  import opened Wrappers
  import opened VersionCodec
  import opened Buckets
  import opened LocalStore
  import opened SyncServer
  import opened SyncRound
  import opened SyncCalls

  /** The members of `s` a loop over `ids` has yet to meet. */
  ghost function Left(ids: seq<Id>, s: set<Id>): set<Id> {
    set x | x in ids && x in s
  }

  lemma LeftStep(ids: seq<Id>, j: nat, s: set<Id>)
    requires j < |ids| && Distinct(ids)
    ensures ids[j] !in ids[j + 1..]
    ensures forall x :: x in ids[j..] <==> x == ids[j] || x in ids[j + 1..]
    ensures Left(ids[j + 1..], s) == Left(ids[j..], s) - {ids[j]}
    ensures ids[j] in Left(ids[j..], s) <==> ids[j] in s
  {
  }

  lemma LeftAll(ids: seq<Id>, s: set<Id>)
    requires forall x | x in s :: x in ids
    ensures Left(ids[0..], s) == s
    ensures Left(ids[|ids|..], s) == {}
  {
  }

  /** A round so far: what it did from `start`, and where it stands. `strict`
      says that it has met no failed call at all. */
  ghost predicate At(start: Cfg, es: seq<Event>, strict: bool, local: Local, rows: Rows, phase: Phase) {
    OneRound(es, strict) && Exec(start, es) == Some(Cfg(local, rows, phase))
  }

  /** A round given up after a step, all calls before having succeeded. */
  ghost predicate CutShort(es: seq<Event>) {
    es != [] && es[|es| - 1] == Abort && OneRound(es[..|es| - 1], true)
  }

  /** A round that reached the end of its deletes, though some may have failed. */
  ghost predicate RunToTheEnd(es: seq<Event>) {
    OneRound(es, false) && es[|es| - 1].EndDelete?
  }

  // ---------- one lemma per event the code performs ----------

  lemma Fires(start: Cfg, es: seq<Event>, strict: bool, c: Cfg, e: Event)
    requires At(start, es, strict, c.local, c.rows, c.phase) && Fire(c, e).Some?
    requires !e.PullOk? && !e.Abort? && !(strict && e.DeleteLost?)
    ensures var d := Fire(c, e).value; At(start, es + [e], strict, d.local, d.rows, d.phase)
  {
  }

  lemma FiresLocalWins(start: Cfg, es: seq<Event>, l: Local, rows: Rows, todo: seq<Item>)
    requires At(start, es, true, l, rows, Pulling(todo, false)) && todo != [] && !Wins(todo[0].row)
    ensures At(start, es + [LocalWins], true, l, rows, Pulling(todo[1..], false))
    ensures CallsIn(es + [LocalWins]) == CallsIn(es)
  {
    CallsSnoc(es, LocalWins);
  }

  lemma FiresWrites(start: Cfg, es: seq<Event>, l: Local, rows: Rows, todo: seq<Item>)
    requires At(start, es, true, l, rows, Pulling(todo, false)) && todo != [] && Wins(todo[0].row)
    ensures var x := todo[0];
      At(start, es + [WriteEntry] + [WriteVersion], true,
         Local(l.entries[x.id := x.row.rev.data], l.versions[x.id := x.row.rev.version]), rows,
         Pulling(todo[1..], false))
    ensures CallsIn(es + [WriteEntry] + [WriteVersion]) == CallsIn(es)
  {
    CallsSnoc(es, WriteEntry);
    CallsSnoc(es + [WriteEntry], WriteVersion);
  }

  lemma FiresPush(start: Cfg, es: seq<Event>, l: Local, rows: Rows, toPush: set<Id>, id: Id, rev: Rev, now: int64)
    requires At(start, es, true, l, rows, Pushing(toPush)) && id in toPush && id in Pushable(l)
    requires rev == Rev(l.versions[id], l.entries[id])
    ensures At(start, es + [PushOne(id, now)], true, l, Upsert(rows, id, rev, now), Pushing(toPush - {id}))
    ensures CallsIn(es + [PushOne(id, now)]) == CallsIn(es) + [PushCall(id, now)]
  {
    CallsSnoc(es, PushOne(id, now));
  }

  lemma AbortsIdle(start: Cfg, es: seq<Event>, l: Local, rows: Rows, phase: Phase)
    requires At(start, es, true, l, rows, phase)
    ensures Exec(start, es + [Abort]) == Some(Cfg(l, rows, Idle)) && CutShort(es + [Abort])
    ensures CallsIn(es + [Abort]) == CallsIn(es)
  {
    CallsSnoc(es, Abort);
  }

  lemma {:induction false} StrictIsLenient(es: seq<Event>)
    requires OneRound(es, true)
    ensures OneRound(es, false)
  {
    if |es| > 1 {
      StrictIsLenient(es[..|es| - 1]);
    }
  }

  lemma FiresLost(start: Cfg, es: seq<Event>, strict: bool, l: Local, rows: Rows, toDelete: set<Id>, id: Id,
                  happened: bool)
    requires At(start, es, strict, l, rows, Deleting(toDelete)) && id in toDelete
    ensures At(start, es + [DeleteLost(id, happened)], false, l, if happened then rows - {id} else rows,
               Deleting(toDelete - {id}))
    ensures CallsIn(es + [DeleteLost(id, happened)]) ==
            CallsIn(es) + [DeleteCall(id, if happened then ReplyLost else Lost)]
  {
    CallsSnoc(es, DeleteLost(id, happened));
    if strict { StrictIsLenient(es); }
    Fires(start, es, false, Cfg(l, rows, Deleting(toDelete)), DeleteLost(id, happened));
  }

  lemma FiresAbsent(start: Cfg, es: seq<Event>, strict: bool, l: Local, rows: Rows, toDelete: set<Id>, id: Id)
    requires At(start, es, strict, l, rows, Deleting(toDelete)) && id in toDelete && id !in rows
    ensures At(start, es + [DeleteAbsent(id)], strict, l, rows, Deleting(toDelete - {id}))
    ensures CallsIn(es + [DeleteAbsent(id)]) == CallsIn(es) + [DeleteCall(id, Delivered)]
  {
    CallsSnoc(es, DeleteAbsent(id));
  }

  lemma FiresDelete(start: Cfg, es: seq<Event>, strict: bool, l: Local, rows: Rows, toDelete: set<Id>, id: Id)
    requires At(start, es, strict, l, rows, Deleting(toDelete)) && id in toDelete && id in rows
    ensures At(start, es + [DeleteOk(id)] + [DropEntry] + [DropVersion], strict,
               Local(l.entries - {id}, l.versions - {id}), rows - {id}, Deleting(toDelete - {id}))
    ensures CallsIn(es + [DeleteOk(id)] + [DropEntry] + [DropVersion]) == CallsIn(es) + [DeleteCall(id, Delivered)]
  {
    CallsSnoc(es, DeleteOk(id));
    CallsSnoc(es + [DeleteOk(id)], DropEntry);
    CallsSnoc(es + [DeleteOk(id)] + [DropEntry], DropVersion);
    var c := Cfg(l, rows, Deleting(toDelete));
    Fires(start, es, strict, c, DeleteOk(id));
    var d := Fire(c, DeleteOk(id)).value;
    Fires(start, es + [DeleteOk(id)], strict, d, DropEntry);
    Fires(start, es + [DeleteOk(id)] + [DropEntry], strict, Fire(d, DropEntry).value, DropVersion);
  }

  lemma FiresListIds(start: Cfg, es: seq<Event>, l: Local, rows: Rows)
    requires At(start, es, true, l, rows, Pulling([], false))
    ensures At(start, es + [ListIds], true, l, rows, Pushing(Pushable(l)))
    ensures CallsIn(es + [ListIds]) == CallsIn(es)
  {
    CallsSnoc(es, ListIds);
  }

  lemma FiresEndPush(start: Cfg, es: seq<Event>, l: Local, rows: Rows)
    requires At(start, es, true, l, rows, Pushing({}))
    ensures At(start, es + [EndPush], true, l, rows, Deleting(Tombs(l)))
    ensures CallsIn(es + [EndPush]) == CallsIn(es)
  {
    CallsSnoc(es, EndPush);
  }

  lemma FiresEndDelete(start: Cfg, es: seq<Event>, strict: bool, l: Local, rows: Rows)
    requires start.phase == Idle && At(start, es, strict, l, rows, Deleting({}))
    ensures Exec(start, es + [EndDelete]) == Some(Cfg(l, rows, Idle)) && RunToTheEnd(es + [EndDelete])
    ensures CallsIn(es + [EndDelete]) == CallsIn(es)
    ensures strict ==> Complete(es + [EndDelete])
    ensures strict ==>
      l == SyncLocal(start.local, start.rows) && rows == SyncRows(start.local, start.rows, StampsOf(es + [EndDelete]))
  {
    Fires(start, es, strict, Cfg(l, rows, Deleting({})), EndDelete);
    CallsSnoc(es, EndDelete);
    if strict {
      StrictIsLenient(es + [EndDelete]);
      RoundComputesTheMerge(start.local, start.rows, es + [EndDelete]);
    }
  }

  lemma FiresPull(l: Local, rows: Rows, items: seq<Item>)
    requires IsSelection(items, rows, Watermark(l.versions))
    ensures At(Cfg(l, rows, Idle), [PullOk(items)], true, l, rows, Pulling(items, false))
    ensures CallsIn([PullOk(items)]) == [PullCall]
  {
    CallsSnoc([], PullOk(items));
    assert [] + [PullOk(items)] == [PullOk(items)];
  }

  /** Once the pull loop is through, the store is the pulled one. */
  lemma PullIsComplete(l: Local, rows: Rows, es: seq<Event>, p: Local, same: Rows)
    requires At(Cfg(l, rows, Idle), es, true, p, same, Pulling([], false))
    ensures p == Pulled(l, rows) && same == rows
  {
    RoundIsMidway(l, rows, es);
    assert Winners(l, rows) - ItemIds([]) == Winners(l, rows);
  }

  // ---------- the calls the loops have made ----------

  /** A push loop past `ids` has sent what it should of them, and all went well. */
  ghost predicate PushedSoFar(todo: seq<Id>, net: nat -> Fault, clock: nat -> int64, calls: seq<Call>, k: nat) {
    k == 1 + |todo| && AllDelivered(net, 1, k) && calls == [PullCall] + Pushes(todo, clock, 1)
  }

  lemma PushSent(todo: seq<Id>, id: Id, net: nat -> Fault, clock: nat -> int64, calls: seq<Call>, k: nat)
    requires PushedSoFar(todo, net, clock, calls, k) && net(k) == Delivered
    ensures PushedSoFar(todo + [id], net, clock, calls + [PushCall(id, clock(k))], k + 1)
  {
    PushesSnoc(todo, id, clock, 1);
  }

  lemma PushLost(part: seq<Id>, todo: seq<Id>, net: nat -> Fault, clock: nat -> int64, calls: seq<Call>, k: nat)
    requires PushedSoFar(part, net, clock, calls, k) && |part| < |todo| && todo[..|part|] == part
    requires net(k) == Lost
    ensures FailsAt(todo, net, clock, calls, k)
  {
  }

  lemma PushReplyLost(part: seq<Id>, todo: seq<Id>, id: Id, net: nat -> Fault, clock: nat -> int64, calls: seq<Call>,
                      k: nat)
    requires PushedSoFar(part, net, clock, calls, k) && |part| < |todo| && todo[..|part| + 1] == part + [id]
    requires net(k) == ReplyLost
    ensures FailsAt(todo, net, clock, calls + [PushCall(id, clock(k))], k)
  {
    PushesSnoc(part, id, clock, 1);
    assert todo[..k] == part + [id];
  }

  /** A delete loop past `dead` has tried each of them once. */
  ghost predicate DeletedSoFar(dead: seq<Id>, net: nat -> Fault, first: nat, prior: seq<Call>, calls: seq<Call>,
                               k: nat)
  {
    k == first + |dead| && calls == prior + Deletes(dead, net, first)
  }

  lemma DeleteTried(dead: seq<Id>, id: Id, net: nat -> Fault, first: nat, prior: seq<Call>, calls: seq<Call>, k: nat)
    requires DeletedSoFar(dead, net, first, prior, calls, k)
    ensures DeletedSoFar(dead + [id], net, first, prior, calls + [DeleteCall(id, net(k))], k + 1)
  {
    DeletesSnoc(dead, id, net, first);
  }

  // ---------- where the loops stand ----------

  /** The push loop has met the first `j` ids; its next call is number `k`. */
  ghost predicate PushingAt(start: Cfg, es: seq<Event>, l: Local, rows: Rows, ids: seq<Id>, j: nat,
                            net: nat -> Fault, clock: nat -> int64, k: nat)
    requires j <= |ids|
  {
    && At(start, es, true, l, rows, Pushing(Left(ids[j..], Pushable(l))))
    && PushedSoFar(Chosen(ids[..j], Pushable(l)), net, clock, CallsIn(es), k)
  }

  lemma PushLoopStarts(start: Cfg, es: seq<Event>, l: Local, rows: Rows, ids: seq<Id>, net: nat -> Fault,
                       clock: nat -> int64)
    requires At(start, es, true, l, rows, Pushing(Pushable(l))) && CallsIn(es) == [PullCall]
    requires forall id | id in l.entries :: id in ids
    ensures PushingAt(start, es, l, rows, ids, 0, net, clock, 1)
  {
    LeftAll(ids, Pushable(l));
  }

  lemma PushLoopSkips(start: Cfg, es: seq<Event>, l: Local, rows: Rows, ids: seq<Id>, j: nat, net: nat -> Fault,
                      clock: nat -> int64, k: nat)
    requires j < |ids| && Distinct(ids) && ids[j] !in Pushable(l)
    requires PushingAt(start, es, l, rows, ids, j, net, clock, k)
    ensures PushingAt(start, es, l, rows, ids, j + 1, net, clock, k)
  {
    LeftStep(ids, j, Pushable(l));
    ChosenStep(ids, Pushable(l), j);
    assert Left(ids[j + 1..], Pushable(l)) == Left(ids[j..], Pushable(l));
  }

  lemma PushLoopFires(start: Cfg, es: seq<Event>, l: Local, rows: Rows, ids: seq<Id>, j: nat, now: int64)
    requires j < |ids| && Distinct(ids) && ids[j] in Pushable(l)
    requires At(start, es, true, l, rows, Pushing(Left(ids[j..], Pushable(l))))
    ensures At(start, es + [PushOne(ids[j], now)], true, l,
               Upsert(rows, ids[j], Rev(l.versions[ids[j]], l.entries[ids[j]]), now),
               Pushing(Left(ids[j + 1..], Pushable(l))))
    ensures CallsIn(es + [PushOne(ids[j], now)]) == CallsIn(es) + [PushCall(ids[j], now)]
  {
    var rev := Rev(l.versions[ids[j]], l.entries[ids[j]]);
    LeftStep(ids, j, Pushable(l));
    FiresPush(start, es, l, rows, Left(ids[j..], Pushable(l)), ids[j], rev, now);
  }

  lemma PushLoopSends(start: Cfg, es: seq<Event>, l: Local, rows: Rows, ids: seq<Id>, j: nat, net: nat -> Fault,
                      clock: nat -> int64, k: nat)
    requires j < |ids| && Distinct(ids) && ids[j] in Pushable(l) && net(k) == Delivered
    requires PushingAt(start, es, l, rows, ids, j, net, clock, k)
    ensures var next := Upsert(rows, ids[j], Rev(l.versions[ids[j]], l.entries[ids[j]]), clock(k));
      PushingAt(start, es + [PushOne(ids[j], clock(k))], l, next, ids, j + 1, net, clock, k + 1)
  {
    PushLoopFires(start, es, l, rows, ids, j, clock(k));
    ChosenStep(ids, Pushable(l), j);
    PushSent(Chosen(ids[..j], Pushable(l)), ids[j], net, clock, CallsIn(es), k);
  }

  /** The push loop gave up at call `k`. */
  ghost predicate GaveUp(start: Cfg, es: seq<Event>, l: Local, rows: Rows, ids: seq<Id>, net: nat -> Fault,
                         clock: nat -> int64, k: nat)
  {
    && Exec(start, es) == Some(Cfg(l, rows, Idle)) && CutShort(es)
    && FailsAt(Chosen(ids, Pushable(l)), net, clock, CallsIn(es), k)
  }

  lemma PushLoopGivesUp(start: Cfg, es: seq<Event>, l: Local, rows: Rows, ids: seq<Id>, j: nat, net: nat -> Fault,
                        clock: nat -> int64, k: nat)
    requires j < |ids| && ids[j] in Pushable(l) && net(k) == Lost
    requires PushingAt(start, es, l, rows, ids, j, net, clock, k)
    ensures GaveUp(start, es + [Abort], l, rows, ids, net, clock, k)
  {
    ChosenSoFar(ids, Pushable(l), j);
    PushLost(Chosen(ids[..j], Pushable(l)), Chosen(ids, Pushable(l)), net, clock, CallsIn(es), k);
    AbortsIdle(start, es, l, rows, Pushing(Left(ids[j..], Pushable(l))));
  }

  lemma PushLoopIsCut(start: Cfg, es: seq<Event>, l: Local, rows: Rows, ids: seq<Id>, j: nat, net: nat -> Fault,
                      clock: nat -> int64, k: nat)
    requires j < |ids| && Distinct(ids) && ids[j] in Pushable(l) && net(k) == ReplyLost
    requires PushingAt(start, es, l, rows, ids, j, net, clock, k)
    ensures var next := Upsert(rows, ids[j], Rev(l.versions[ids[j]], l.entries[ids[j]]), clock(k));
      GaveUp(start, es + [PushOne(ids[j], clock(k))] + [Abort], l, next, ids, net, clock, k)
  {
    var next := Upsert(rows, ids[j], Rev(l.versions[ids[j]], l.entries[ids[j]]), clock(k));
    ChosenSoFar(ids, Pushable(l), j);
    PushReplyLost(Chosen(ids[..j], Pushable(l)), Chosen(ids, Pushable(l)), ids[j], net, clock, CallsIn(es), k);
    PushLoopFires(start, es, l, rows, ids, j, clock(k));
    AbortsIdle(start, es + [PushOne(ids[j], clock(k))], l, next, Pushing(Left(ids[j + 1..], Pushable(l))));
  }

  lemma PushLoopEnds(start: Cfg, es: seq<Event>, l: Local, rows: Rows, ids: seq<Id>, net: nat -> Fault,
                     clock: nat -> int64, k: nat)
    requires PushingAt(start, es, l, rows, ids, |ids|, net, clock, k)
    ensures At(start, es, true, l, rows, Pushing({}))
    ensures PushedSoFar(Chosen(ids, Pushable(l)), net, clock, CallsIn(es), k)
  {
    assert Left(ids[|ids|..], Pushable(l)) == {};
    assert ids[..|ids|] == ids;
  }

  /** The delete loop has met the first `j` ids; its next call is number `k`. */
  ghost predicate DeletingAt(start: Cfg, es: seq<Event>, strict: bool, l: Local, rows: Rows, ids: seq<Id>, j: nat,
                             tombs: set<Id>, net: nat -> Fault, first: nat, prior: seq<Call>, k: nat)
    requires j <= |ids|
  {
    && At(start, es, strict, l, rows, Deleting(Left(ids[j..], tombs)))
    && DeletedSoFar(Chosen(ids[..j], tombs), net, first, prior, CallsIn(es), k)
  }

  lemma DeleteLoopStarts(start: Cfg, es: seq<Event>, l: Local, rows: Rows, ids: seq<Id>, net: nat -> Fault, first: nat)
    requires At(start, es, true, l, rows, Deleting(Tombs(l))) && forall id | id in l.entries :: id in ids
    ensures DeletingAt(start, es, true, l, rows, ids, 0, Tombs(l), net, first, CallsIn(es), first)
  {
    LeftAll(ids, Tombs(l));
    assert CallsIn(es) + Deletes([], net, first) == CallsIn(es);
  }

  lemma DeleteLoopSkips(start: Cfg, es: seq<Event>, strict: bool, l: Local, rows: Rows, ids: seq<Id>, j: nat,
                        tombs: set<Id>, net: nat -> Fault, first: nat, prior: seq<Call>, k: nat)
    requires j < |ids| && Distinct(ids) && ids[j] !in tombs
    requires DeletingAt(start, es, strict, l, rows, ids, j, tombs, net, first, prior, k)
    ensures DeletingAt(start, es, strict, l, rows, ids, j + 1, tombs, net, first, prior, k)
  {
    LeftStep(ids, j, tombs);
    ChosenStep(ids, tombs, j);
    assert Left(ids[j + 1..], tombs) == Left(ids[j..], tombs);
  }

  lemma DeleteLoopTries(start: Cfg, es: seq<Event>, strict: bool, l: Local, rows: Rows, ids: seq<Id>, j: nat,
                        tombs: set<Id>, net: nat -> Fault, first: nat, prior: seq<Call>, was: seq<Event>, k: nat)
    requires j < |ids| && Distinct(ids) && ids[j] in tombs
    requires DeletedSoFar(Chosen(ids[..j], tombs), net, first, prior, CallsIn(was), k)
    requires At(start, es, strict, l, rows, Deleting(Left(ids[j..], tombs) - {ids[j]}))
    requires CallsIn(es) == CallsIn(was) + [DeleteCall(ids[j], net(k))]
    ensures DeletingAt(start, es, strict, l, rows, ids, j + 1, tombs, net, first, prior, k + 1)
  {
    LeftStep(ids, j, tombs);
    ChosenStep(ids, tombs, j);
    DeleteTried(Chosen(ids[..j], tombs), ids[j], net, first, prior, CallsIn(was), k);
  }

  lemma DeleteLoopEnds(start: Cfg, es: seq<Event>, strict: bool, l: Local, rows: Rows, ids: seq<Id>,
                       tombs: set<Id>, net: nat -> Fault, first: nat, prior: seq<Call>, k: nat)
    requires DeletingAt(start, es, strict, l, rows, ids, |ids|, tombs, net, first, prior, k)
    ensures At(start, es, strict, l, rows, Deleting({}))
    ensures CallsIn(es) == prior + Deletes(Chosen(ids, tombs), net, first)
  {
    assert Left(ids[|ids|..], tombs) == {};
    assert ids[..|ids|] == ids;
  }

  // ---------- every state has a complete round ----------

  lemma {:induction false} PushesExist(start: Cfg, before: seq<Event>, l: Local, rows: Rows, toPush: set<Id>,
                                       now: int64)
    returns (es: seq<Event>, next: Rows)
    requires At(start, before, true, l, rows, Pushing(toPush)) && toPush <= Pushable(l)
    ensures At(start, es, true, l, next, Pushing({}))
    decreases toPush
  {
    if toPush == {} {
      es, next := before, rows;
    } else {
      var id :| id in toPush;
      var rev := Rev(l.versions[id], l.entries[id]);
      FiresPush(start, before, l, rows, toPush, id, rev, now);
      es, next := PushesExist(start, before + [PushOne(id, now)], l, Upsert(rows, id, rev, now), toPush - {id}, now);
    }
  }

  lemma {:induction false} DeletesExist(start: Cfg, before: seq<Event>, l: Local, rows: Rows, toDelete: set<Id>)
    returns (es: seq<Event>, m: Local, next: Rows)
    requires At(start, before, true, l, rows, Deleting(toDelete))
    ensures At(start, es, true, m, next, Deleting({}))
    decreases toDelete
  {
    if toDelete == {} {
      es, m, next := before, l, rows;
    } else {
      var id :| id in toDelete;
      if id in rows {
        FiresDelete(start, before, true, l, rows, toDelete, id);
        es, m, next := DeletesExist(start, before + [DeleteOk(id)] + [DropEntry] + [DropVersion],
                                    Local(l.entries - {id}, l.versions - {id}), rows - {id}, toDelete - {id});
      } else {
        FiresAbsent(start, before, true, l, rows, toDelete, id);
        es, m, next := DeletesExist(start, before + [DeleteAbsent(id)], l, rows, toDelete - {id});
      }
    }
  }

  lemma {:induction false} PullsExist(start: Cfg, before: seq<Event>, l: Local, rows: Rows, todo: seq<Item>)
    returns (es: seq<Event>, m: Local)
    requires At(start, before, true, l, rows, Pulling(todo, false))
    ensures At(start, es, true, m, rows, Pulling([], false))
    decreases |todo|
  {
    if todo == [] {
      es, m := before, l;
    } else if Wins(todo[0].row) {
      var x := todo[0];
      FiresWrites(start, before, l, rows, todo);
      es, m := PullsExist(start, before + [WriteEntry] + [WriteVersion],
        Local(l.entries[x.id := x.row.rev.data], l.versions[x.id := x.row.rev.version]), rows, todo[1..]);
    } else {
      FiresLocalWins(start, before, l, rows, todo);
      es, m := PullsExist(start, before + [LocalWins], l, rows, todo[1..]);
    }
  }

  /** From every state an uninterrupted round without failures is possible. */
  lemma CompleteRoundExists(l: Local, rows: Rows, now: int64) returns (es: seq<Event>)
    ensures Complete(es) && Exec(Cfg(l, rows, Idle), es).Some?
  {
    var start, next, m, n := Cfg(l, rows, Idle), rows, l, l;
    var items := SelectionExists(rows, Watermark(l.versions));
    FiresPull(l, rows, items);
    es, m := PullsExist(start, [PullOk(items)], l, rows, items);
    FiresListIds(start, es, m, rows);
    es, next := PushesExist(start, es + [ListIds], m, rows, Pushable(m), now);
    FiresEndPush(start, es, m, next);
    es, n, next := DeletesExist(start, es + [EndPush], m, next, Tombs(m));
    FiresEndDelete(start, es, true, n, next);
    es := es + [EndDelete];
  }
}
