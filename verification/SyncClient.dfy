/** FullSync: the client's three loops over the local store and the server. */
module SyncClient {
  import opened Wrappers
  import opened ByteStrings
  import opened VersionCodec
  import opened Buckets
  import opened LocalStore
  import opened SyncPolicy
  import opened SyncServer
  import opened SyncRound
  import opened SyncCalls
  import opened SyncTrace

  /** A push of one entry is one upsert. */
  lemma SingleFold(rows: Rows, id: Id, rev: Rev, now: int64)
    ensures Fold(rows, [Write(id, rev, now)]) == Upsert(rows, id, rev, now)
  {
  }

  /** The client's push of a single entry. */
  method PushEntry(srv: SyncService, user: User, id: Id, rev: Rev, now: int64)
    modifies srv
    ensures srv.RowsOf(user) == Upsert(old(srv.RowsOf(user)), id, rev, now)
    ensures srv.table - {user} == old(srv.table - {user})
  {
    SingleFold(srv.RowsOf(user), id, rev, now);
    var pushed := srv.Push(user, [(id, rev)], _ => now, 1);
  }

  /** Writes one pulled row if the resolver takes it. */
  method ApplyRow(st: Store, user: User, resolver: Resolver, se: Item, ghost rows: Rows, ghost todo: seq<Item>,
                  ghost start: Cfg, ghost before: seq<Event>)
    returns (ghost es: seq<Event>)
    requires st.Valid() && resolver == LastWriteWins && todo != [] && todo[0] == se
    requires At(start, before, true, st.LocalOf(user), rows, Pulling(todo, false))
    modifies st
    ensures st.Valid()
    ensures st.OthersOf(user) == old(st.OthersOf(user))
    ensures At(start, es, true, st.LocalOf(user), rows, Pulling(todo[1..], false))
    ensures CallsIn(es) == CallsIn(before)
  {
    var localVer := st.GetVersion(user, se.id);
    var local := Candidate(se.id, if localVer == None then 0 else localVer.value, 0);
    var remote := Candidate(se.id, se.row.rev.version, se.row.at);
    if Resolve(resolver, local, remote) == TakeRemote {
      FiresWrites(start, before, st.LocalOf(user), rows, todo);
      st.Put(user, se.id, se.row.rev.data);
      st.PutVersion(user, se.id, se.row.rev.version);
      es := before + [WriteEntry] + [WriteVersion];
    } else {
      FiresLocalWins(start, before, st.LocalOf(user), rows, todo);
      es := before + [LocalWins];
    }
  }

  method PullLoop(st: Store, user: User, resolver: Resolver, items: seq<Item>, ghost rows: Rows,
                  ghost start: Cfg, ghost before: seq<Event>)
    returns (ghost es: seq<Event>)
    requires st.Valid() && resolver == LastWriteWins
    requires At(start, before, true, st.LocalOf(user), rows, Pulling(items, false))
    modifies st
    ensures st.Valid()
    ensures st.OthersOf(user) == old(st.OthersOf(user))
    ensures At(start, es, true, st.LocalOf(user), rows, Pulling([], false))
    ensures CallsIn(es) == CallsIn(before)
  {
    es := before;
    var i := 0;
    assert items[0..] == items;
    while i < |items|
      invariant i <= |items| && st.Valid()
      invariant st.OthersOf(user) == old(st.OthersOf(user))
      invariant At(start, es, true, st.LocalOf(user), rows, Pulling(items[i..], false))
      invariant CallsIn(es) == CallsIn(before)
    {
      es := ApplyRow(st, user, resolver, items[i], rows, items[i..], start, es);
      assert items[i..][1..] == items[i + 1..];
      i := i + 1;
    }
    assert items[i..] == [];
  }

  /** One turn of the push loop: skips the id, pushes its entry, or gives up. */
  method PushTurn(st: Store, srv: SyncService, user: User, ids: seq<Id>, j: nat, net: nat -> Fault,
                  clock: nat -> int64, k: nat, ghost start: Cfg, ghost before: seq<Event>)
    returns (ok: bool, next: nat, ghost es: seq<Event>)
    requires st.Valid() && Distinct(ids) && j < |ids| && ids[j] in st.LocalOf(user).entries
    requires PushingAt(start, before, st.LocalOf(user), srv.RowsOf(user), ids, j, net, clock, k)
    modifies srv
    ensures srv.table - {user} == old(srv.table - {user})
    ensures ok ==> PushingAt(start, es, st.LocalOf(user), srv.RowsOf(user), ids, j + 1, net, clock, next)
    ensures !ok ==> GaveUp(start, es, st.LocalOf(user), srv.RowsOf(user), ids, net, clock, next)
  {
    ghost var l, rows := st.LocalOf(user), srv.RowsOf(user);
    var id := ids[j];
    var localVer := st.GetVersion(user, id);
    if localVer == None || localVer.value == 0 || localVer.value == -1 {
      PushLoopSkips(start, before, l, rows, ids, j, net, clock, k);
      return true, k, before;
    }
    var data := st.Get(user, id);
    if data == None {
      return true, k, before;
    }
    if net(k) == Lost {
      PushLoopGivesUp(start, before, l, rows, ids, j, net, clock, k);
      return false, k, before + [Abort];
    }
    PushEntry(srv, user, id, Rev(localVer.value, data.value), clock(k));
    if net(k) == ReplyLost {
      PushLoopIsCut(start, before, l, rows, ids, j, net, clock, k);
      return false, k, before + [PushOne(id, clock(k))] + [Abort];
    }
    PushLoopSends(start, before, l, rows, ids, j, net, clock, k);
    return true, k + 1, before + [PushOne(id, clock(k))];
  }

  /** Pushes every listed entry with a version other than 0 and -1, one call each,
      and gives up at the first that fails; `k` numbers the next remote call, or
      the failed one. */
  method PushLoop(st: Store, srv: SyncService, user: User, ids: seq<Id>, net: nat -> Fault, clock: nat -> int64,
                  ghost start: Cfg, ghost before: seq<Event>)
    returns (ok: bool, k: nat, ghost es: seq<Event>)
    requires st.Valid() && Distinct(ids) && forall id :: id in ids <==> id in st.LocalOf(user).entries
    requires At(start, before, true, st.LocalOf(user), srv.RowsOf(user), Pushing(Pushable(st.LocalOf(user))))
    requires CallsIn(before) == [PullCall]
    modifies srv
    ensures srv.table - {user} == old(srv.table - {user})
    ensures ok ==> At(start, es, true, st.LocalOf(user), srv.RowsOf(user), Pushing({}))
    ensures ok ==> PushedSoFar(Chosen(ids, Pushable(st.LocalOf(user))), net, clock, CallsIn(es), k)
    ensures !ok ==> GaveUp(start, es, st.LocalOf(user), srv.RowsOf(user), ids, net, clock, k)
  {
    ok, k, es := true, 1, before;
    PushLoopStarts(start, es, st.LocalOf(user), srv.RowsOf(user), ids, net, clock);
    var j := 0;
    while j < |ids|
      invariant j <= |ids|
      invariant srv.table - {user} == old(srv.table - {user})
      invariant PushingAt(start, es, st.LocalOf(user), srv.RowsOf(user), ids, j, net, clock, k)
    {
      assert ids[j] in ids;
      ok, k, es := PushTurn(st, srv, user, ids, j, net, clock, k, start, es);
      if !ok {
        return false, k, es;
      }
      j := j + 1;
    }
    PushLoopEnds(start, es, st.LocalOf(user), srv.RowsOf(user), ids, net, clock, k);
    return true, k, es;
  }

  /** Asks the server to delete one tombstoned entry and, if it did, forgets it;
      a call that fails, for whatever reason, leaves the tombstone. */
  method DeleteEntry(st: Store, srv: SyncService, user: User, id: Id, fault: Fault, ghost toDelete: set<Id>,
                     ghost start: Cfg, ghost before: seq<Event>, ghost was: bool)
    returns (ghost es: seq<Event>, ghost strict: bool)
    requires st.Valid() && id in toDelete
    requires At(start, before, was, st.LocalOf(user), srv.RowsOf(user), Deleting(toDelete))
    modifies st, srv
    ensures st.Valid()
    ensures st.OthersOf(user) == old(st.OthersOf(user))
    ensures srv.table - {user} == old(srv.table - {user})
    ensures srv.RowsOf(user) == if fault == Lost then old(srv.RowsOf(user)) else old(srv.RowsOf(user)) - {id}
    ensures st.LocalOf(user) ==
      if fault == Delivered && id in old(srv.RowsOf(user)) then Cut(old(st.LocalOf(user)), {id}, {id})
      else old(st.LocalOf(user))
    ensures strict <==> was && fault == Delivered
    ensures At(start, es, strict, st.LocalOf(user), srv.RowsOf(user), Deleting(toDelete - {id}))
    ensures CallsIn(es) == CallsIn(before) + [DeleteCall(id, fault)]
  {
    ghost var l, rows := st.LocalOf(user), srv.RowsOf(user);
    strict := was && fault == Delivered;
    if fault == Lost {
      FiresLost(start, before, was, l, rows, toDelete, id, false);
      es := before + [DeleteLost(id, false)];
      return;
    }
    var deleted := srv.Delete(user, id);
    assert !deleted ==> rows - {id} == rows;
    if fault == ReplyLost {
      FiresLost(start, before, was, l, rows, toDelete, id, true);
      es := before + [DeleteLost(id, true)];
    } else if !deleted {
      FiresAbsent(start, before, was, l, rows, toDelete, id);
      es := before + [DeleteAbsent(id)];
    } else {
      FiresDelete(start, before, was, l, rows, toDelete, id);
      st.Delete(user, id);
      st.DeleteVersion(user, id);
      es := before + [DeleteOk(id)] + [DropEntry] + [DropVersion];
    }
  }

  /** `vs` still holds for the ids to come what `was` held. */
  ghost predicate AgreesOn(vs: map<Id, int64>, was: map<Id, int64>, ids: seq<Id>) {
    forall x | x in ids :: (x in vs <==> x in was) && (x in was ==> vs[x] == was[x])
  }

  lemma AgreementShrinks(vs: map<Id, int64>, next: map<Id, int64>, was: map<Id, int64>, ids: seq<Id>, j: nat)
    requires j < |ids| && Distinct(ids) && AgreesOn(vs, was, ids[j..])
    requires vs - {ids[j]} == next - {ids[j]}
    ensures AgreesOn(next, was, ids[j + 1..])
  {
    LeftStep(ids, j, {});
    forall x | x in ids[j + 1..]
      ensures (x in next <==> x in was) && (x in was ==> next[x] == was[x])
    {
      assert x in ids[j..];
      assert x in vs <==> x in vs - {ids[j]};
      assert x in next <==> x in next - {ids[j]};
      assert x in next ==> next[x] == (next - {ids[j]})[x];
    }
  }

  /** One turn of the delete loop: skips the id or tries to delete its entry. */
  method DeleteTurn(st: Store, srv: SyncService, user: User, ids: seq<Id>, j: nat, ghost tombs: set<Id>,
                    net: nat -> Fault, k: nat, ghost first: nat, ghost prior: seq<Call>, ghost start: Cfg,
                    ghost before: seq<Event>, ghost was: bool)
    returns (next: nat, ghost es: seq<Event>, ghost strict: bool)
    requires st.Valid() && Distinct(ids) && j < |ids|
    requires ids[j] in tombs <==> ids[j] in st.LocalOf(user).versions && st.LocalOf(user).versions[ids[j]] == -1
    requires DeletingAt(start, before, was, st.LocalOf(user), srv.RowsOf(user), ids, j, tombs, net, first, prior, k)
    modifies st, srv
    ensures st.Valid()
    ensures st.OthersOf(user) == old(st.OthersOf(user))
    ensures srv.table - {user} == old(srv.table - {user})
    ensures st.LocalOf(user).versions - {ids[j]} == old(st.LocalOf(user)).versions - {ids[j]}
    ensures was && net(k) == Delivered ==> strict
    ensures DeletingAt(start, es, strict, st.LocalOf(user), srv.RowsOf(user), ids, j + 1, tombs, net, first, prior,
                       next)
  {
    ghost var l, rows := st.LocalOf(user), srv.RowsOf(user);
    var localVer := st.GetVersion(user, ids[j]);
    if localVer == None || localVer.value != -1 {
      DeleteLoopSkips(start, before, was, l, rows, ids, j, tombs, net, first, prior, k);
      return k, before, was;
    }
    LeftStep(ids, j, tombs);
    es, strict := DeleteEntry(st, srv, user, ids[j], net(k), Left(ids[j..], tombs), start, before, was);
    DeleteLoopTries(start, es, strict, st.LocalOf(user), srv.RowsOf(user), ids, j, tombs, net, first, prior, before, k);
    return k + 1, es, strict;
  }

  /** Tries every tombstone among the listed ids once, whatever becomes of the others. */
  method DeleteLoop(st: Store, srv: SyncService, user: User, ids: seq<Id>, net: nat -> Fault, first: nat,
                    ghost start: Cfg, ghost before: seq<Event>)
    returns (ghost es: seq<Event>, ghost strict: bool)
    requires st.Valid() && Distinct(ids) && forall id :: id in ids <==> id in st.LocalOf(user).entries
    requires At(start, before, true, st.LocalOf(user), srv.RowsOf(user), Deleting(Tombs(st.LocalOf(user))))
    modifies st, srv
    ensures st.Valid()
    ensures st.OthersOf(user) == old(st.OthersOf(user))
    ensures srv.table - {user} == old(srv.table - {user})
    ensures (forall n :: net(n) == Delivered) ==> strict
    ensures At(start, es, strict, st.LocalOf(user), srv.RowsOf(user), Deleting({}))
    ensures CallsIn(es) == CallsIn(before) + Deletes(Chosen(ids, Tombs(old(st.LocalOf(user)))), net, first)
  {
    es, strict := before, true;
    var k := first;
    ghost var l, tombs, prior := st.LocalOf(user), Tombs(st.LocalOf(user)), CallsIn(before);
    DeleteLoopStarts(start, es, l, srv.RowsOf(user), ids, net, first);
    var j := 0;
    while j < |ids|
      invariant j <= |ids| && st.Valid()
      invariant st.OthersOf(user) == old(st.OthersOf(user))
      invariant srv.table - {user} == old(srv.table - {user})
      invariant AgreesOn(st.LocalOf(user).versions, l.versions, ids[j..])
      invariant (forall n :: net(n) == Delivered) ==> strict
      invariant DeletingAt(start, es, strict, st.LocalOf(user), srv.RowsOf(user), ids, j, tombs, net, first, prior, k)
    {
      assert ids[j] in ids && ids[j] in ids[j..];
      ghost var vs := st.LocalOf(user).versions;
      k, es, strict := DeleteTurn(st, srv, user, ids, j, tombs, net, k, first, prior, start, es, strict);
      AgreementShrinks(vs, st.LocalOf(user).versions, l.versions, ids, j);
      j := j + 1;
    }
    DeleteLoopEnds(start, es, strict, st.LocalOf(user), srv.RowsOf(user), ids, tombs, net, first, prior, k);
  }

  /** One full round. `net` is the fate of each remote call in turn and `clock`
      what the server's clock shows at it. The ghost results are the run of the
      round machine that the code performed and the ids it listed after its pull. */
  method FullSync(st: Store, srv: SyncService, user: User, net: nat -> Fault, clock: nat -> int64)
    returns (ok: bool, ghost es: seq<Event>, ghost ids: seq<Id>)
    requires st.Valid()
    modifies st, srv
    ensures st.Valid()
    ensures st.OthersOf(user) == old(st.OthersOf(user))
    ensures srv.table - {user} == old(srv.table - {user})
    ensures Exec(Cfg(old(st.LocalOf(user)), old(srv.RowsOf(user)), Idle), es) ==
            Some(Cfg(st.LocalOf(user), srv.RowsOf(user), Idle))
    ensures net(0) != Delivered ==> !ok && es == []
    ensures net(0) == Delivered ==> if ok then RunToTheEnd(es) else CutShort(es)
    ensures net(0) == Delivered ==>
      var p := Pulled(old(st.LocalOf(user)), old(srv.RowsOf(user)));
      Lists(ids, p) && RoundCalls(p, ids, net, clock, ok, CallsIn(es))
    ensures (forall k :: net(k) == Delivered) ==> ok && Complete(es)
    ensures (forall k :: net(k) == Delivered) ==>
      && st.LocalOf(user) == SyncLocal(old(st.LocalOf(user)), old(srv.RowsOf(user)))
      && srv.RowsOf(user) == SyncRows(old(st.LocalOf(user)), old(srv.RowsOf(user)), StampsOf(es))
  {
    es, ids := [], [];
    ghost var start := Cfg(st.LocalOf(user), srv.RowsOf(user), Idle);
    var resolver := NewResolver("last-write-wins");
    if resolver == None {
      return false, es, ids;
    }
    var maxLocal := st.GetMaxVersion(user);
    if net(0) != Delivered {
      return false, es, ids;
    }
    var items := srv.Pull(user, maxLocal);
    FiresPull(st.LocalOf(user), srv.RowsOf(user), items);
    es := [PullOk(items)];
    es := PullLoop(st, user, resolver.value, items, srv.RowsOf(user), start, es);
    PullIsComplete(start.local, start.rows, es, st.LocalOf(user), srv.RowsOf(user));
    ghost var p := st.LocalOf(user);

    var listed := st.List(user);
    ids := listed;
    assert Distinct(ids) by {
      forall x, y | 0 <= x < y < |ids| ensures ids[x] != ids[y] { LessIsAsymmetric(ids[x], ids[y]); }
    }
    FiresListIds(start, es, p, srv.RowsOf(user));
    es := es + [ListIds];
    var k;
    ok, k, es := PushLoop(st, srv, user, listed, net, clock, start, es);
    if !ok {
      return false, es, ids;
    }
    FiresEndPush(start, es, p, srv.RowsOf(user));
    es := es + [EndPush];
    ghost var strict;
    es, strict := DeleteLoop(st, srv, user, listed, net, k, start, es);
    FiresEndDelete(start, es, strict, st.LocalOf(user), srv.RowsOf(user));
    es := es + [EndDelete];
    return true, es, ids;
  }
}
