/** Laws of uninterrupted rounds: idempotence, the exact effect of a delete, and
    when a device that syncs, adds and syncs equals the server. */
module SyncLaws {
  import opened Wrappers
  import opened VersionCodec
  import opened Buckets
  import opened LocalStore
  import opened SyncServer
  import opened SyncRound
  import opened Recovery

  // ---------- a second round changes nothing ----------

  /** A round never lowers the watermark. */
  lemma RoundRaisesWatermark(l: Local, rows: Rows)
    ensures Watermark(SyncLocal(l, rows).versions) >= Watermark(l.versions)
  {
    var w := Watermark(l.versions);
    if w > 0 {
      var id :| id in l.versions && l.versions[id] == w;
      var p := Pulled(l, rows);
      assert id in p.versions && p.versions[id] >= w;
      assert id in SyncLocal(l, rows).versions;
    }
  }

  /** After a round the watermark covers every row that could still win a pull. */
  lemma WatermarkCoversWinners(l: Local, rows: Rows, at: Stamps)
    ensures Winners(SyncLocal(l, rows), SyncRows(l, rows, at)) == {}
  {
    var m, next, p := SyncLocal(l, rows), SyncRows(l, rows, at), Pulled(l, rows);
    RoundRaisesWatermark(l, rows);
    forall id | id in next && Wins(next[id]) ensures next[id].rev.version <= Watermark(m.versions) {
      if id in Pushable(p) && Accepts(rows, id, p.versions[id]) {
        assert id in m.versions && m.versions[id] == next[id].rev.version;
      } else if id in Winners(l, rows) {
        assert id in m.versions && m.versions[id] == next[id].rev.version;
      }
    }
  }

  /** After a round every push would be refused and every tombstone left is
      absent on the server. */
  lemma NothingLeftToSend(l: Local, rows: Rows, at: Stamps)
    ensures var m, next := SyncLocal(l, rows), SyncRows(l, rows, at);
      && (forall id | id in Pushable(m) :: !Accepts(next, id, m.versions[id]))
      && Tombs(m) * next.Keys == {}
  {
    var m, next, p := SyncLocal(l, rows), SyncRows(l, rows, at), Pulled(l, rows);
    assert Tombs(m) <= Tombs(p);
    forall id | id in Pushable(m) ensures !Accepts(next, id, m.versions[id]) {
      assert id in Pushable(p) && id !in Tombs(p) && m.versions[id] == p.versions[id];
      assert id in next;
    }
  }

  lemma NothingToPull(l: Local, rows: Rows)
    requires Winners(l, rows) == {}
    ensures Pulled(l, rows) == l
  {
  }

  lemma NothingToPush(l: Local, rows: Rows, at: Stamps)
    requires forall id | id in Pushable(l) :: !Accepts(rows, id, l.versions[id])
    ensures Joined(l, rows, Pushable(l), at) == rows
  {
  }

  lemma NothingToDelete(l: Local, rows: Rows)
    requires Tombs(l) * rows.Keys == {}
    ensures Cut(l, Tombs(l) * rows.Keys, Tombs(l) * rows.Keys) == l && rows - Tombs(l) == rows
  {
  }

  /** The two halves of a round, once the pulled store is known. */
  lemma RoundFrom(l: Local, rows: Rows, at: Stamps, p: Local, joined: Rows)
    requires Pulled(l, rows) == p && Joined(p, rows, Pushable(p), at) == joined
    ensures SyncLocal(l, rows) == Cut(p, Tombs(p) * rows.Keys, Tombs(p) * rows.Keys)
    ensures SyncRows(l, rows, at) == joined - Tombs(p)
  {
  }

  lemma QuietSync(l: Local, rows: Rows, at: Stamps)
    requires Winners(l, rows) == {}
    requires forall id | id in Pushable(l) :: !Accepts(rows, id, l.versions[id])
    requires Tombs(l) * rows.Keys == {}
    ensures SyncLocal(l, rows) == l && SyncRows(l, rows, at) == rows
  {
    NothingToPull(l, rows);
    NothingToPush(l, rows, at);
    NothingToDelete(l, rows);
    RoundFrom(l, rows, at, l, rows);
  }

  /** A second complete round changes neither the store nor a single server row,
      not even a stored time; and no hypothesis on timestamps is needed. */
  lemma SyncIsIdempotent(l: Local, rows: Rows, at: Stamps, again: Stamps)
    ensures var m, next := SyncLocal(l, rows), SyncRows(l, rows, at);
      SyncLocal(m, next) == m && SyncRows(m, next, again) == next
  {
    WatermarkCoversWinners(l, rows, at);
    NothingLeftToSend(l, rows, at);
    QuietSync(SyncLocal(l, rows), SyncRows(l, rows, at), again);
  }

  // ---------- what a delete does ----------

  /** A tombstone survives the pull exactly when the server has no row for it
      that is above the watermark and wins; a surviving one disappears from both
      sides if the server has it and stays a local tombstone otherwise; one that
      does not survive is replaced by the server's row. */
  lemma DeleteEffect(l: Local, rows: Rows, at: Stamps, id: Id)
    requires id in Tombs(l)
    ensures var m, next := SyncLocal(l, rows), SyncRows(l, rows, at);
      && (id in Tombs(Pulled(l, rows)) <==>
            (id in rows ==> rows[id].rev.version <= Watermark(l.versions) || !Wins(rows[id])))
      && (id in Tombs(Pulled(l, rows)) && id in rows ==>
            id !in m.entries && id !in m.versions && id !in next)
      && (id in Tombs(Pulled(l, rows)) && id !in rows ==>
            id in Tombs(m) && m.entries[id] == l.entries[id] && id !in next)
      && (id !in Tombs(Pulled(l, rows)) ==>
            id in m.entries && id in m.versions && id in next
            && Rev(m.versions[id], m.entries[id]) == next[id].rev == rows[id].rev)
  {
  }

  /** The device holds exactly what the server holds. */
  ghost predicate Synced(l: Local, rows: Rows) {
    && l.entries.Keys == rows.Keys && l.versions.Keys == rows.Keys
    && forall id | id in rows :: Rev(l.versions[id], l.entries[id]) == rows[id].rev
  }

  ghost predicate PositiveRows(rows: Rows) {
    forall id | id in rows :: rows[id].rev.version > 0 && Wins(rows[id])
  }

  ghost function Tombstoned(l: Local, id: Id): Local {
    l.(versions := l.versions[id := -1])
  }

  /** Marking an entry of an up-to-date device and syncing deletes it from the
      server if and only if some other entry's version is at least as large.
      Otherwise the mark lowers the watermark, and the row is pulled back. */
  lemma DeleteTakesEffectIff(l: Local, rows: Rows, at: Stamps, id: Id)
    requires Synced(l, rows) && PositiveRows(rows) && id in rows
    ensures var m, next := SyncLocal(Tombstoned(l, id), rows), SyncRows(Tombstoned(l, id), rows, at);
      && (id !in next <==> exists x :: x in rows && x != id && rows[x].rev.version >= rows[id].rev.version)
      && (id in next ==> next == rows && m == l)
      && (id !in next ==> next == rows - {id} && m == Cut(l, {id}, {id}))
  {
    var t := Tombstoned(l, id);
    var w := Watermark(t.versions);
    if x :| x in rows && x != id && rows[x].rev.version >= rows[id].rev.version {
      assert t.versions[x] == rows[x].rev.version;
      MarkedBelowIsDeleted(l, rows, at, id);
    } else {
      forall x | x in t.versions ensures t.versions[x] < rows[id].rev.version {
      }
      MarkedAboveIsRestored(l, rows, at, id);
    }
  }

  lemma MarkedWinners(l: Local, rows: Rows, id: Id)
    requires Synced(l, rows) && PositiveRows(rows) && id in rows
    ensures var t := Tombstoned(l, id);
      Winners(t, rows) == if rows[id].rev.version > Watermark(t.versions) then {id} else {}
  {
    var t := Tombstoned(l, id);
    forall x | x in rows && x != id ensures x !in Winners(t, rows) {
      assert t.versions[x] == rows[x].rev.version;
    }
  }

  lemma MarkedSends(l: Local, rows: Rows, id: Id)
    requires Synced(l, rows) && PositiveRows(rows) && id in rows
    ensures Tombs(Tombstoned(l, id)) == {id}
    ensures forall x | x in Pushable(Tombstoned(l, id)) :: !Accepts(rows, x, Tombstoned(l, id).versions[x])
  {
  }

  lemma CutMarked(l: Local, rows: Rows, id: Id)
    requires id in rows && Tombs(Tombstoned(l, id)) == {id}
    ensures var gone := Tombs(Tombstoned(l, id)) * rows.Keys;
      Cut(Tombstoned(l, id), gone, gone) == Cut(l, {id}, {id})
  {
  }

  lemma MarkedBelowIsDeleted(l: Local, rows: Rows, at: Stamps, id: Id)
    requires Synced(l, rows) && PositiveRows(rows) && id in rows
    requires rows[id].rev.version <= Watermark(Tombstoned(l, id).versions)
    ensures SyncRows(Tombstoned(l, id), rows, at) == rows - {id}
    ensures SyncLocal(Tombstoned(l, id), rows) == Cut(l, {id}, {id})
  {
    var t := Tombstoned(l, id);
    MarkedWinners(l, rows, id);
    NothingToPull(t, rows);
    MarkedSends(l, rows, id);
    NothingToPush(t, rows, at);
    RoundFrom(t, rows, at, t, rows);
    CutMarked(l, rows, id);
  }

  lemma PullRestores(l: Local, rows: Rows, id: Id)
    requires Synced(l, rows) && id in rows && Winners(Tombstoned(l, id), rows) == {id}
    ensures Pulled(Tombstoned(l, id), rows) == l
  {
  }

  lemma SyncedIsQuiet(l: Local, rows: Rows, at: Stamps)
    requires Synced(l, rows) && PositiveRows(rows)
    ensures Joined(l, rows, Pushable(l), at) == rows && Tombs(l) == {}
    ensures Cut(l, Tombs(l) * rows.Keys, Tombs(l) * rows.Keys) == l
  {
    NothingToPush(l, rows, at);
    forall id ensures id !in Tombs(l) {
      if id in l.versions { assert l.versions[id] == rows[id].rev.version; }
    }
    NothingToDelete(l, rows);
  }

  lemma MarkedAboveIsRestored(l: Local, rows: Rows, at: Stamps, id: Id)
    requires Synced(l, rows) && PositiveRows(rows) && id in rows
    requires rows[id].rev.version > Watermark(Tombstoned(l, id).versions)
    ensures SyncRows(Tombstoned(l, id), rows, at) == rows
    ensures SyncLocal(Tombstoned(l, id), rows) == l
  {
    MarkedWinners(l, rows, id);
    PullRestores(l, rows, id);
    SyncedIsQuiet(l, rows, at);
    RoundFrom(Tombstoned(l, id), rows, at, l, rows);
    NothingToDelete(l, rows);
  }

  /** It does happen: a device adds its first entry, syncs, marks it and syncs
      again. The entry is back on both sides. */
  lemma MarkOfAnOnlyEntryIsUndone()
    ensures var id, at, empty := [1], map[[1] := 1], Local(map[], map[]);
      var l := Added(empty, id, Rev(5, [7]));
      var rows := SyncRows(l, map[], at);
      && SyncLocal(l, map[]) == l && id in rows
      && SyncRows(Tombstoned(l, id), rows, at) == rows && SyncLocal(Tombstoned(l, id), rows) == l
  {
    var id, at, empty := [1], map[[1] := 1], Local(map[], map[]);
    var l := Added(empty, id, Rev(5, [7]));
    AddThenSync(empty, map[], id, Rev(5, [7]), at);
    DeleteTakesEffectIff(l, SyncRows(l, map[], at), at, id);
  }

  // ---------- devices that sync, add, sync ----------

  /** The store is consistent with the server and complete below its watermark. An
      entry may lack its version where a pull was cut between its two writes. */
  ghost predicate DownwardClosed(l: Local, rows: Rows) {
    && l.versions.Keys <= l.entries.Keys <= rows.Keys
    && (forall id | id in l.versions :: 0 < l.versions[id] && Dominates(rows, id, l.versions[id]))
    && (forall id | id in rows && rows[id].rev.version <= Watermark(l.versions) ::
          id in l.versions && Rev(l.versions[id], l.entries[id]) == rows[id].rev)
  }

  lemma PullCompletes(l: Local, rows: Rows)
    requires DownwardClosed(l, rows) && PositiveRows(rows)
    ensures Synced(Pulled(l, rows), rows)
  {
  }

  /** One round brings such a device up to date and leaves the server as it was. */
  lemma SyncCatchesUp(l: Local, rows: Rows, at: Stamps)
    requires DownwardClosed(l, rows) && PositiveRows(rows)
    ensures Synced(SyncLocal(l, rows), rows) && SyncRows(l, rows, at) == rows
  {
    var p := Pulled(l, rows);
    PullCompletes(l, rows);
    SyncedIsQuiet(p, rows, at);
    RoundFrom(l, rows, at, p, rows);
    NothingToDelete(p, rows);
  }

  ghost function Added(l: Local, id: Id, rev: Rev): Local {
    Local(l.entries[id := rev.data], l.versions[id := rev.version])
  }

  ghost predicate AboveAll(version: int64, rows: Rows) {
    0 < version && forall id | id in rows :: rows[id].rev.version < version
  }

  ghost function Stored(rows: Rows, id: Id, rev: Rev, at: Stamps): Rows {
    rows[id := Row(rev, if id in at then at[id] else 0)]
  }

  lemma OnePushIsStored(m: Local, rows: Rows, id: Id, rev: Rev, at: Stamps)
    requires id in Pushable(m) && Rev(m.versions[id], m.entries[id]) == rev && Accepts(rows, id, rev.version)
    requires forall x | x in Pushable(m) && x != id :: !Accepts(rows, x, m.versions[x])
    ensures Joined(m, rows, Pushable(m), at) == Stored(rows, id, rev, at)
  {
  }

  lemma AddIsTheOnlyPush(l: Local, rows: Rows, id: Id, rev: Rev, at: Stamps)
    requires DownwardClosed(l, rows) && AboveAll(rev.version, rows)
    ensures var m := Added(l, id, rev);
      Joined(m, rows, Pushable(m), at) == Stored(rows, id, rev, at) && Tombs(m) == {}
  {
    var m := Added(l, id, rev);
    forall x | x in m.versions ensures 0 < m.versions[x] && (x != id ==> !Accepts(rows, x, m.versions[x])) {
      if x != id { assert Dominates(rows, x, l.versions[x]); }
    }
    assert id in Pushable(m) && Accepts(rows, id, m.versions[id]);
    OnePushIsStored(m, rows, id, rev, at);
  }

  /** Syncing right after an add pulls nothing and pushes exactly the new entry. */
  lemma AddThenSync(l: Local, rows: Rows, id: Id, rev: Rev, at: Stamps)
    requires DownwardClosed(l, rows) && AboveAll(rev.version, rows)
    ensures SyncLocal(Added(l, id, rev), rows) == Added(l, id, rev)
    ensures SyncRows(Added(l, id, rev), rows, at) == Stored(rows, id, rev, at)
  {
    var m := Added(l, id, rev);
    assert m.versions[id] == rev.version;
    assert Winners(m, rows) == {};
    NothingToPull(m, rows);
    AddIsTheOnlyPush(l, rows, id, rev, at);
    NothingToDelete(m, rows);
    NothingToDelete(m, Stored(rows, id, rev, at));
    RoundFrom(m, rows, at, m, Stored(rows, id, rev, at));
  }

  lemma CurrentHoldsAll(l: Local, rows: Rows, id: Id)
    requires DownwardClosed(l, rows) && PositiveRows(rows) && Winners(l, rows) <= {id}
    ensures forall x | x in rows && x != id :: x in l.versions && Rev(l.versions[x], l.entries[x]) == rows[x].rev
    ensures forall x | x in l.versions :: x in rows
  {
    forall x | x in rows && x != id ensures x in l.versions && Rev(l.versions[x], l.entries[x]) == rows[x].rev {
      assert x !in Winners(l, rows);
    }
    forall x | x in l.versions ensures x in rows {
      assert Dominates(rows, x, l.versions[x]);
    }
  }

  lemma AddCompletes(l: Local, rows: Rows, id: Id, rev: Rev, at: Stamps)
    requires l.versions.Keys <= l.entries.Keys <= rows.Keys
    requires forall x | x in rows && x != id :: x in l.versions && Rev(l.versions[x], l.entries[x]) == rows[x].rev
    ensures Synced(Added(l, id, rev), Stored(rows, id, rev, at))
  {
  }

  lemma AddSkips(l: Local, rows: Rows, id: Id, rev: Rev, at: Stamps, x: Id)
    requires x in Winners(l, rows) && x != id
    ensures !Synced(Added(l, id, rev), Stored(rows, id, rev, at))
  {
    var m, next := Added(l, id, rev), Stored(rows, id, rev, at);
    assert x in next && next[x] == rows[x];
    assert x in m.versions ==> m.versions[x] == l.versions[x];
  }

  lemma CurrentPlusAddIsSynced(l: Local, rows: Rows, id: Id, rev: Rev, at: Stamps)
    requires DownwardClosed(l, rows) && PositiveRows(rows)
    ensures Synced(Added(l, id, rev), Stored(rows, id, rev, at)) <==> Winners(l, rows) <= {id}
  {
    if Winners(l, rows) <= {id} {
      CurrentHoldsAll(l, rows, id);
      AddCompletes(l, rows, id, rev, at);
    } else {
      var x :| x in Winners(l, rows) && x != id;
      AddSkips(l, rows, id, rev, at, x);
    }
  }

  /** A plain "add, then sync" leaves the device equal to the server if and only
      if a pull just before the add would have brought nothing but, at most, the
      entry being replaced: rows between the old watermark and the new version
      are never pulled. */
  lemma PlainAddCatchesUpIff(l: Local, rows: Rows, id: Id, rev: Rev, at: Stamps)
    requires DownwardClosed(l, rows) && PositiveRows(rows) && AboveAll(rev.version, rows)
    ensures var m := Added(l, id, rev);
      Synced(SyncLocal(m, rows), SyncRows(m, rows, at)) <==> Winners(l, rows) <= {id}
  {
    AddThenSync(l, rows, id, rev, at);
    CurrentPlusAddIsSynced(l, rows, id, rev, at);
  }

  // ---------- the same for any device whatever ----------

  /** Where an add and a sync leave device and server agreeing about `x`, though
      nothing is pulled: the device overrules the row, marks it, or has it; or,
      where there is no row, it knows nothing of `x` or has it to send. */
  ghost predicate Settles(l: Local, rows: Rows, x: Id) {
    if x in rows then
      && x in l.entries && x in l.versions
      && (|| l.versions[x] == -1
          || Rev(l.versions[x], l.entries[x]) == rows[x].rev
          || (l.versions[x] > rows[x].rev.version && l.versions[x] != 0))
    else
      && (x in l.entries <==> x in l.versions)
      && (x in l.versions ==> l.versions[x] != 0 && l.versions[x] != -1)
  }

  ghost predicate SyncedAt(l: Local, rows: Rows, x: Id) {
    && (x in l.entries <==> x in rows) && (x in l.versions <==> x in rows)
    && (x in rows ==> Rev(l.versions[x], l.entries[x]) == rows[x].rev)
  }

  lemma SyncedIsPointwise(l: Local, rows: Rows)
    ensures Synced(l, rows) <==> forall x :: SyncedAt(l, rows, x)
  {
    if Synced(l, rows) {
      forall x ensures SyncedAt(l, rows, x) {
        assert (x in l.entries.Keys <==> x in rows.Keys) && (x in l.versions.Keys <==> x in rows.Keys);
      }
    }
    if forall x :: SyncedAt(l, rows, x) {
      forall x
        ensures (x in l.entries <==> x in rows) && (x in l.versions <==> x in rows)
        ensures x in rows ==> Rev(l.versions[x], l.entries[x]) == rows[x].rev
      {
        assert SyncedAt(l, rows, x);
      }
      assert l.entries.Keys == rows.Keys && l.versions.Keys == rows.Keys;
    }
  }

  lemma SettlesAt(p: Local, rows: Rows, at: Stamps, x: Id)
    ensures var gone := Tombs(p) * rows.Keys;
      SyncedAt(Cut(p, gone, gone), Joined(p, rows, Pushable(p), at) - Tombs(p), x) <==> Settles(p, rows, x)
  {
  }

  /** For every device and every server: a complete round leaves the two equal if
      and only if the store, once it has pulled, settles every entry. */
  lemma RoundSyncsIff(l: Local, rows: Rows, at: Stamps)
    ensures Synced(SyncLocal(l, rows), SyncRows(l, rows, at)) <==> forall x :: Settles(Pulled(l, rows), rows, x)
  {
    var p, n, next := Pulled(l, rows), SyncLocal(l, rows), SyncRows(l, rows, at);
    SyncedIsPointwise(n, next);
    RoundFrom(l, rows, at, p, Joined(p, rows, Pushable(p), at));
    forall x ensures SyncedAt(n, next, x) <==> Settles(p, rows, x) {
      SettlesAt(p, rows, at, x);
    }
  }

  lemma NothingIsPulledAfterAdd(l: Local, rows: Rows, id: Id, rev: Rev)
    requires AboveAll(rev.version, rows)
    ensures Pulled(Added(l, id, rev), rows) == Added(l, id, rev)
  {
    var m := Added(l, id, rev);
    assert m.versions[id] == rev.version;
    assert Winners(m, rows) == {};
    NothingToPull(m, rows);
  }

  /** For every device and every server below the new version: "add, then sync"
      leaves the two equal if and only if the store settles every other entry. */
  lemma AddSettlesIff(l: Local, rows: Rows, id: Id, rev: Rev, at: Stamps)
    requires AboveAll(rev.version, rows)
    ensures var m := Added(l, id, rev);
      Synced(SyncLocal(m, rows), SyncRows(m, rows, at)) <==> forall x | x != id :: Settles(l, rows, x)
  {
    var m := Added(l, id, rev);
    NothingIsPulledAfterAdd(l, rows, id, rev);
    RoundSyncsIff(m, rows, at);
    forall x ensures Settles(m, rows, x) <==> x == id || Settles(l, rows, x) {
    }
  }

  /** "Sync, add, sync" of any device, whatever became of the first sync: failed,
      cut, or complete. */
  lemma SyncAddSyncSettlesIff(l: Local, rows: Rows, round: seq<Event>, m: Local, next: Rows,
                              id: Id, rev: Rev, at: Stamps)
    requires Exec(Cfg(l, rows, Idle), round) == Some(Cfg(m, next, Idle))
    requires AboveAll(rev.version, next)
    ensures var a := Added(m, id, rev);
      Synced(SyncLocal(a, next), SyncRows(a, next, at)) <==> forall x | x != id :: Settles(m, next, x)
  {
    AddSettlesIff(m, next, id, rev, at);
  }

  /** It does happen: one device adds an entry and syncs; another, still empty,
      adds a newer one and syncs. The first entry never reaches it, not in its
      next round either. */
  lemma AddMayMissARow()
    ensures var empty := Local(map[], map[]);
      var rows := SyncRows(Added(empty, [1], Rev(5, [7])), map[], map[[1] := 1]);
      var m := Added(empty, [2], Rev(6, [8]));
      var l, next := SyncLocal(m, rows), SyncRows(m, rows, map[[2] := 2]);
      && [1] in next && [1] !in l.entries
      && SyncLocal(l, next) == l
  {
    var empty, x: Id, y: Id := Local(map[], map[]), [1], [2];
    AddThenSync(empty, map[], x, Rev(5, [7]), map[x := 1]);
    var rows := SyncRows(Added(empty, x, Rev(5, [7])), map[], map[x := 1]);
    AddThenSync(empty, rows, y, Rev(6, [8]), map[y := 2]);
    SyncIsIdempotent(Added(empty, y, Rev(6, [8])), rows, map[y := 2], map[]);
  }

  // ---------- rounds that may be cut ----------

  ghost predicate DistinctVersions(rows: Rows) {
    forall a, b | a in rows && b in rows && a != b :: rows[a].rev.version != rows[b].rev.version
  }

  ghost predicate HalfDone(l: Local, todo: seq<Item>) {
    todo != [] && todo[0].id in l.entries && l.entries[todo[0].id] == todo[0].row.rev.data
  }

  ghost predicate SteadyPhase(l: Local, rows: Rows, phase: Phase) {
    match phase
    case Idle => true
    case Pulling(todo, half) => IsSelection(todo, rows, Watermark(l.versions)) && (half ==> HalfDone(l, todo))
    case Pushing(_) => true
    case Deleting(toDelete) => toDelete == {}
    case Dropping(_, _, _) => false
  }

  /** Every moment of a round, cut or not, of a device complete below its watermark. */
  ghost predicate Steady(c: Cfg) {
    && PositiveRows(c.rows) && DistinctVersions(c.rows)
    && DownwardClosed(c.local, c.rows) && SteadyPhase(c.local, c.rows, c.phase)
  }

  lemma HalfStaysClosed(l: Local, rows: Rows, todo: seq<Item>)
    requires DownwardClosed(l, rows) && todo != [] && IsSelection(todo, rows, Watermark(l.versions))
    ensures var m := l.(entries := l.entries[todo[0].id := todo[0].row.rev.data]);
      DownwardClosed(m, rows) && HalfDone(m, todo)
  {
  }

  lemma NextIsLeast(todo: seq<Item>, rows: Rows, w: int64, id: Id)
    requires todo != [] && IsSelection(todo, rows, w) && id in rows && rows[id].rev.version > w
    ensures rows[id].rev.version >= todo[0].row.rev.version
  {
    assert HasItem(todo, id);
    var i :| 0 <= i < |todo| && todo[i].id == id;
  }

  lemma WholeIsComplete(l: Local, rows: Rows, todo: seq<Item>, x: Id)
    requires DistinctVersions(rows) && DownwardClosed(l, rows) && HalfDone(l, todo)
    requires IsSelection(todo, rows, Watermark(l.versions))
    requires x in rows && rows[x].rev.version <= todo[0].row.rev.version
    ensures var vs := l.versions[todo[0].id := todo[0].row.rev.version];
      x in vs && x in l.entries && Rev(vs[x], l.entries[x]) == rows[x].rev
  {
    if x != todo[0].id && rows[x].rev.version > Watermark(l.versions) {
      NextIsLeast(todo, rows, Watermark(l.versions), x);
    }
  }

  lemma WholeStaysClosed(l: Local, rows: Rows, todo: seq<Item>)
    requires DistinctVersions(rows) && DownwardClosed(l, rows) && HalfDone(l, todo)
    requires IsSelection(todo, rows, Watermark(l.versions))
    ensures var m := l.(versions := l.versions[todo[0].id := todo[0].row.rev.version]);
      Watermark(m.versions) == todo[0].row.rev.version && DownwardClosed(m, rows)
  {
    var id, v := todo[0].id, todo[0].row.rev.version;
    WatermarkRises(l.versions, id, v);
    forall x | x in rows && rows[x].rev.version <= v
      ensures x in l.versions[id := v] && Rev(l.versions[id := v][x], l.entries[x]) == rows[x].rev
    {
      WholeIsComplete(l, rows, todo, x);
    }
  }

  lemma RestIsSelected(todo: seq<Item>, rows: Rows, w: int64)
    requires DistinctVersions(rows) && todo != [] && IsSelection(todo, rows, w)
    ensures IsSelection(todo[1..], rows, todo[0].row.rev.version)
  {
    if |todo| > 1 { assert todo[0].id != todo[1].id; }
    RestIsASelection(todo, rows, w, 1, todo[0].row.rev.version);
  }

  lemma ClosedHasNoTombs(l: Local, rows: Rows)
    requires DownwardClosed(l, rows)
    ensures Tombs(l) == {}
    ensures forall id | id in Pushable(l) :: !Accepts(rows, id, l.versions[id])
  {
    forall id | id in l.versions ensures l.versions[id] > 0 && !Accepts(rows, id, l.versions[id]) {
      assert Dominates(rows, id, l.versions[id]);
    }
  }

  lemma StepIsSteady(c: Cfg, e: Event)
    requires Steady(c) && Fire(c, e).Some?
    ensures Steady(Fire(c, e).value) && Fire(c, e).value.rows == c.rows
  {
    match e {
      case WriteEntry => HalfStaysClosed(c.local, c.rows, c.phase.todo);
      case WriteVersion =>
        WholeStaysClosed(c.local, c.rows, c.phase.todo);
        RestIsSelected(c.phase.todo, c.rows, Watermark(c.local.versions));
      case PushOne(_, _) => ClosedHasNoTombs(c.local, c.rows);
      case EndPush => ClosedHasNoTombs(c.local, c.rows);
      case _ =>
    }
  }

  lemma {:induction false} RunIsSteady(c: Cfg, es: seq<Event>)
    requires Steady(c) && Exec(c, es).Some?
    ensures Steady(Exec(c, es).value) && Exec(c, es).value.rows == c.rows
  {
    if es != [] {
      RunIsSteady(c, es[..|es| - 1]);
      StepIsSteady(Exec(c, es[..|es| - 1]).value, es[|es| - 1]);
    }
  }

  /** Such a device equals the server exactly when a pull would bring nothing. */
  lemma SyncedIff(l: Local, rows: Rows)
    requires DownwardClosed(l, rows) && PositiveRows(rows)
    ensures Synced(l, rows) <==> Winners(l, rows) == {}
  {
    if Winners(l, rows) == {} {
      PullCompletes(l, rows);
      NothingToPull(l, rows);
    } else {
      var id :| id in Winners(l, rows);
      assert id in l.versions ==> l.versions[id] <= Watermark(l.versions) < rows[id].rev.version;
    }
  }

  /** One round, cut anywhere or complete, of a device complete below its
      watermark: the server keeps every row and the device stays complete below
      its watermark. (With equal versions, only a complete round is sure to.) */
  lemma RoundKeepsClosed(l: Local, rows: Rows, round: seq<Event>, m: Local, next: Rows)
    requires DownwardClosed(l, rows) && PositiveRows(rows)
    requires DistinctVersions(rows) || Complete(round)
    requires Exec(Cfg(l, rows, Idle), round) == Some(Cfg(m, next, Idle))
    ensures next == rows && DownwardClosed(m, rows)
    ensures Complete(round) ==> Winners(m, rows) == {}
  {
    if Complete(round) {
      RoundComputesTheMerge(l, rows, round);
      SyncCatchesUp(l, rows, StampsOf(round));
      SyncedIsClosed(m, rows);
      SyncedIff(m, rows);
    } else {
      RunIsSteady(Cfg(l, rows, Idle), round);
    }
  }

  // ---------- the sync after an add ----------

  /** When a run first pushes the entry, by the server's clock, if it does. */
  ghost function FirstPush(es: seq<Event>, id: Id): Option<int64> {
    if es == [] then None else
      match FirstPush(es[..|es| - 1], id)
      case Some(now) => Some(now)
      case None =>
        var e := es[|es| - 1];
        if e.PushOne? && e.id == id then Some(e.now) else None
  }

  ghost function AfterPush(rows: Rows, id: Id, rev: Rev, es: seq<Event>): Rows {
    match FirstPush(es, id)
    case None => rows
    case Some(now) => rows[id := Row(rev, now)]
  }

  /** The device has one thing to tell the server and nothing to learn from it. */
  ghost predicate OnlyNews(a: Local, rows: Rows, id: Id, rev: Rev) {
    && id in Pushable(a) && Rev(a.versions[id], a.entries[id]) == rev
    && AboveAll(rev.version, rows) && rev.version <= Watermark(a.versions)
    && Tombs(a) == {} && forall x | x in Pushable(a) && x != id :: !Accepts(rows, x, a.versions[x])
  }

  ghost predicate NewsPhase(phase: Phase) {
    match phase
    case Pulling(todo, half) => todo == [] && !half
    case Deleting(toDelete) => toDelete == {}
    case Dropping(_, _, _) => false
    case _ => true
  }

  lemma FirstPushSnoc(es: seq<Event>, e: Event, id: Id)
    ensures FirstPush(es + [e], id) ==
      if FirstPush(es, id).None? && e.PushOne? && e.id == id then Some(e.now) else FirstPush(es, id)
  {
    assert (es + [e])[..|es|] == es;
  }

  lemma FirstIsAbove(items: seq<Item>, rows: Rows, w: int64)
    requires IsSelection(items, rows, w) && items != []
    ensures exists id :: id in rows && rows[id].rev.version > w
  {
    assert items[0].id in rows;
  }

  lemma NewsStep(c: Cfg, rows: Rows, id: Id, rev: Rev, es: seq<Event>, e: Event)
    requires OnlyNews(c.local, rows, id, rev) && c.rows == AfterPush(rows, id, rev, es) && NewsPhase(c.phase)
    requires Fire(c, e).Some?
    ensures var d := Fire(c, e).value;
      d.local == c.local && d.rows == AfterPush(rows, id, rev, es + [e]) && NewsPhase(d.phase)
  {
    FirstPushSnoc(es, e, id);
    if e.PullOk? && e.items != [] {
      FirstIsAbove(e.items, c.rows, Watermark(c.local.versions));
      assert false;
    }
  }

  lemma {:induction false} NewsRun(a: Local, rows: Rows, id: Id, rev: Rev, es: seq<Event>)
    requires OnlyNews(a, rows, id, rev) && Exec(Cfg(a, rows, Idle), es).Some?
    ensures var c := Exec(Cfg(a, rows, Idle), es).value;
      c.local == a && c.rows == AfterPush(rows, id, rev, es) && NewsPhase(c.phase)
  {
    if es != [] {
      NewsRun(a, rows, id, rev, es[..|es| - 1]);
      assert es[..|es| - 1] + [es[|es| - 1]] == es;
      NewsStep(Exec(Cfg(a, rows, Idle), es[..|es| - 1]).value, rows, id, rev, es[..|es| - 1], es[|es| - 1]);
    }
  }

  lemma AddIsOnlyNews(l: Local, rows: Rows, id: Id, rev: Rev)
    requires DownwardClosed(l, rows) && AboveAll(rev.version, rows)
    ensures OnlyNews(Added(l, id, rev), rows, id, rev)
  {
    var a := Added(l, id, rev);
    assert a.versions[id] == rev.version;
    forall x | x in a.versions && x != id ensures a.versions[x] > 0 && !Accepts(rows, x, a.versions[x]) {
      assert Dominates(rows, x, l.versions[x]);
    }
  }

  lemma CompleteRunPushes(l: Local, rows: Rows, id: Id, rev: Rev, last: seq<Event>)
    requires DownwardClosed(l, rows) && AboveAll(rev.version, rows)
    requires Complete(last) && Exec(Cfg(Added(l, id, rev), rows, Idle), last).Some?
    ensures FirstPush(last, id).Some?
  {
    AddIsOnlyNews(l, rows, id, rev);
    NewsRun(Added(l, id, rev), rows, id, rev, last);
    RoundComputesTheMerge(Added(l, id, rev), rows, last);
    AddThenSync(l, rows, id, rev, StampsOf(last));
    assert id in Stored(rows, id, rev, StampsOf(last)) && Stored(rows, id, rev, StampsOf(last))[id].rev == rev;
  }

  /** What the pushed or unpushed add leaves, told of the closed device it began on. */
  lemma AddedIsSyncedIff(m: Local, rows: Rows, id: Id, rev: Rev, last: seq<Event>)
    requires DownwardClosed(m, rows) && PositiveRows(rows) && AboveAll(rev.version, rows)
    ensures Synced(Added(m, id, rev), AfterPush(rows, id, rev, last)) <==>
            Winners(m, rows) <= {id} && FirstPush(last, id).Some?
  {
    match FirstPush(last, id) {
      case None =>
        assert Added(m, id, rev).versions[id] == rev.version;
        assert id in rows ==> rows[id].rev.version < rev.version;
      case Some(now) =>
        CurrentPlusAddIsSynced(m, rows, id, rev, map[id := now]);
    }
  }

  /** "Sync, add, sync", where either sync may fail or be cut anywhere and the
      program goes on all the same: the device ends equal to the server if and only
      if the first sync left nothing to pull but, at most, the entry being replaced,
      and the last pushed the entry. Complete syncs do both; a first sync that
      failed at once makes this the plain add. */
  lemma SyncAddSyncIff(l: Local, rows: Rows, round: seq<Event>, m: Local, next: Rows,
                       id: Id, rev: Rev, last: seq<Event>, k: Local, end: Rows)
    requires DownwardClosed(l, rows) && PositiveRows(rows)
    requires DistinctVersions(rows) || Complete(round)
    requires Exec(Cfg(l, rows, Idle), round) == Some(Cfg(m, next, Idle))
    requires Exec(Cfg(Added(m, id, rev), next, Idle), last) == Some(Cfg(k, end, Idle))
    requires AboveAll(rev.version, rows)
    ensures k == Added(m, id, rev) && end == AfterPush(rows, id, rev, last)
    ensures Synced(k, end) <==> Winners(m, rows) <= {id} && FirstPush(last, id).Some?
    ensures Complete(round) ==> Winners(m, rows) == {}
    ensures Complete(last) ==> FirstPush(last, id).Some?
    ensures round == [] ==> m == l
  {
    RoundKeepsClosed(l, rows, round, m, next);
    AddIsOnlyNews(m, rows, id, rev);
    NewsRun(Added(m, id, rev), rows, id, rev, last);
    AddedIsSyncedIff(m, rows, id, rev, last);
    if Complete(last) { CompleteRunPushes(m, rows, id, rev, last); }
  }

  lemma OthersStayClosed(l: Local, rows: Rows, id: Id, row: Row)
    requires DownwardClosed(l, rows) && AboveAll(row.rev.version, rows)
    ensures DownwardClosed(l, rows[id := row])
  {
  }

  lemma SyncedIsClosed(l: Local, rows: Rows)
    requires Synced(l, rows) && PositiveRows(rows)
    ensures DownwardClosed(l, rows)
  {
  }

  // ---------- serialised commands ----------

  datatype Fleet = Fleet(rows: Rows, stores: map<nat, Local>)

  /** Commands run one after another. Each begins with a round, which may fail or
      be cut anywhere; the command line client then adds, and syncs again, each
      regardless of how the sync before went. */
  datatype Command =
    | Sync(d: nat, round: seq<Event>)
    | SyncAddSync(d: nat, round: seq<Event>, id: Id, rev: Rev, last: seq<Event>)

  /** A device and the server after a run that ends idle. */
  ghost function Idled(l: Local, rows: Rows, es: seq<Event>): Option<Cfg> {
    match Exec(Cfg(l, rows, Idle), es)
    case None => None
    case Some(c) => if c.phase.Idle? then Some(c) else None
  }

  ghost function FirstRound(f: Fleet, c: Command): Option<Cfg> {
    if c.d in f.stores then Idled(f.stores[c.d], f.rows, c.round) else None
  }

  ghost predicate PositiveClock(es: seq<Event>) {
    forall e | e in es && e.PushOne? :: e.now > 0
  }

  ghost function Perform(f: Fleet, c: Command): Option<Fleet> {
    match FirstRound(f, c)
    case None => None
    case Some(e) =>
      match c
      case Sync(d, _) => Some(Fleet(e.rows, f.stores[d := e.local]))
      case SyncAddSync(d, _, id, rev, last) =>
        if !(AboveAll(rev.version, f.rows) && PositiveClock(last)) then None else
          match Idled(Added(e.local, id, rev), e.rows, last)
          case None => None
          case Some(k) => Some(Fleet(k.rows, f.stores[d := k.local]))
  }

  ghost function PerformAll(f: Fleet, cs: seq<Command>): Option<Fleet> {
    if cs == [] then Some(f) else
      match PerformAll(f, cs[..|cs| - 1])
      case None => None
      case Some(g) => Perform(g, cs[|cs| - 1])
  }

  /** The first round left nothing to pull but, at most, the entry being added,
      and the last pushed that entry. */
  ghost predicate Prompt(f: Fleet, c: Command)
    requires FirstRound(f, c).Some?
  {
    var e := FirstRound(f, c).value;
    match c
    case Sync(_, _) => Winners(e.local, e.rows) == {}
    case SyncAddSync(_, _, id, _, last) => Winners(e.local, e.rows) <= {id} && FirstPush(last, id).Some?
  }

  /** No row is skipped by an add, and no add is left unpushed. */
  ghost predicate Harmless(f: Fleet, c: Command)
    requires FirstRound(f, c).Some?
  {
    c.Sync? || Prompt(f, c)
  }

  ghost predicate AllClosed(f: Fleet) {
    PositiveRows(f.rows) && forall d | d in f.stores :: DownwardClosed(f.stores[d], f.rows)
  }

  lemma {:induction false} FirstPushIsPositive(es: seq<Event>, id: Id)
    requires PositiveClock(es) && FirstPush(es, id).Some?
    ensures FirstPush(es, id).value > 0
  {
    var front, e := es[..|es| - 1], es[|es| - 1];
    assert e in es && forall x | x in front :: x in es;
    if FirstPush(front, id).Some? { FirstPushIsPositive(front, id); }
  }

  lemma PushKeepsRows(rows: Rows, id: Id, rev: Rev, last: seq<Event>)
    requires PositiveRows(rows) && AboveAll(rev.version, rows) && PositiveClock(last)
    ensures PositiveRows(AfterPush(rows, id, rev, last))
    ensures DistinctVersions(rows) ==> DistinctVersions(AfterPush(rows, id, rev, last))
  {
    if FirstPush(last, id).Some? { FirstPushIsPositive(last, id); }
  }

  /** A store with a skipped row or an unpushed add is not complete below its watermark. */
  lemma AddedIsClosedIff(m: Local, rows: Rows, id: Id, rev: Rev, last: seq<Event>)
    requires DownwardClosed(m, rows) && PositiveRows(rows) && AboveAll(rev.version, rows) && PositiveClock(last)
    ensures DownwardClosed(Added(m, id, rev), AfterPush(rows, id, rev, last)) <==>
            Winners(m, rows) <= {id} && FirstPush(last, id).Some?
  {
    var a, next := Added(m, id, rev), AfterPush(rows, id, rev, last);
    AddedIsSyncedIff(m, rows, id, rev, last);
    PushKeepsRows(rows, id, rev, last);
    assert a.versions[id] == rev.version;
    if Synced(a, next) {
      SyncedIsClosed(a, next);
    } else if FirstPush(last, id).None? {
      assert !Dominates(next, id, a.versions[id]);
    } else {
      var x :| x in Winners(m, rows) && x != id;
      assert next[x] == rows[x] && next[x].rev.version <= Watermark(a.versions);
      assert x in a.versions ==> a.versions[x] == m.versions[x] <= Watermark(m.versions);
    }
  }

  lemma SyncCommand(f: Fleet, c: Command)
    requires c.Sync? && AllClosed(f) && Perform(f, c).Some?
    requires DistinctVersions(f.rows) || Complete(c.round)
    ensures var g := Perform(f, c).value;
      && g.rows == f.rows && DownwardClosed(g.stores[c.d], g.rows)
      && (Synced(g.stores[c.d], g.rows) <==> Prompt(f, c))
  {
    var e := FirstRound(f, c).value;
    RoundKeepsClosed(f.stores[c.d], f.rows, c.round, e.local, e.rows);
    SyncedIff(e.local, f.rows);
  }

  lemma AddCommand(f: Fleet, c: Command)
    requires c.SyncAddSync? && AllClosed(f) && Perform(f, c).Some?
    requires DistinctVersions(f.rows) || Complete(c.round)
    ensures var g := Perform(f, c).value;
      && g.rows == AfterPush(f.rows, c.id, c.rev, c.last)
      && (Synced(g.stores[c.d], g.rows) <==> Prompt(f, c))
      && (DownwardClosed(g.stores[c.d], g.rows) <==> Prompt(f, c))
  {
    var e, g := FirstRound(f, c).value, Perform(f, c).value;
    SyncAddSyncIff(f.stores[c.d], f.rows, c.round, e.local, e.rows, c.id, c.rev, c.last, g.stores[c.d], g.rows);
    RoundKeepsClosed(f.stores[c.d], f.rows, c.round, e.local, e.rows);
    AddedIsClosedIff(e.local, f.rows, c.id, c.rev, c.last);
  }

  lemma BystandersStayClosed(f: Fleet, c: Command)
    requires AllClosed(f) && Perform(f, c).Some?
    requires c.Sync? ==> Perform(f, c).value.rows == f.rows
    requires c.SyncAddSync? ==> Perform(f, c).value.rows == AfterPush(f.rows, c.id, c.rev, c.last)
    ensures var g := Perform(f, c).value;
      && PositiveRows(g.rows) && (DistinctVersions(f.rows) ==> DistinctVersions(g.rows))
      && forall d | d in f.stores && d != c.d :: d in g.stores && DownwardClosed(g.stores[d], g.rows)
  {
    if c.SyncAddSync? {
      PushKeepsRows(f.rows, c.id, c.rev, c.last);
      forall d | d in f.stores ensures DownwardClosed(f.stores[d], Perform(f, c).value.rows) {
        if FirstPush(c.last, c.id).Some? {
          OthersStayClosed(f.stores[d], f.rows, c.id, Row(c.rev, FirstPush(c.last, c.id).value));
        }
      }
    }
  }

  lemma ClosedButOne(g: Fleet, d: nat)
    requires PositiveRows(g.rows) && d in g.stores
    requires forall x | x in g.stores && x != d :: DownwardClosed(g.stores[x], g.rows)
    ensures AllClosed(g) <==> DownwardClosed(g.stores[d], g.rows)
  {
  }

  lemma CommandKeepsStores(f: Fleet, c: Command)
    requires Perform(f, c).Some?
    ensures Perform(f, c).value.stores.Keys == f.stores.Keys && c.d in f.stores
  {
  }

  /** What one command does to a fleet of devices complete below their watermarks:
      its device ends equal to the server exactly if it was prompt, and all of them
      stay complete exactly if it was harmless. */
  lemma CommandDecides(f: Fleet, c: Command)
    requires AllClosed(f) && Perform(f, c).Some?
    requires DistinctVersions(f.rows) || Complete(c.round)
    ensures var g := Perform(f, c).value;
      && c.d in g.stores && (DistinctVersions(f.rows) ==> DistinctVersions(g.rows))
      && (Synced(g.stores[c.d], g.rows) <==> Prompt(f, c))
      && (AllClosed(g) <==> Harmless(f, c))
  {
    if c.Sync? {
      SyncCommand(f, c);
    } else {
      AddCommand(f, c);
    }
    BystandersStayClosed(f, c);
    CommandKeepsStores(f, c);
    ClosedButOne(Perform(f, c).value, c.d);
  }

  ghost predicate AllHarmless(f: Fleet, cs: seq<Command>)
    requires PerformAll(f, cs).Some?
  {
    cs != [] ==>
      && AllHarmless(f, cs[..|cs| - 1])
      && Harmless(PerformAll(f, cs[..|cs| - 1]).value, cs[|cs| - 1])
  }

  ghost predicate AlwaysClosed(f: Fleet, cs: seq<Command>)
    requires PerformAll(f, cs).Some?
  {
    AllClosed(PerformAll(f, cs).value) && (cs != [] ==> AlwaysClosed(f, cs[..|cs| - 1]))
  }

  /** The devices start empty, and either all versions differ or no round is cut. */
  ghost predicate FreshFleet(f: Fleet, cs: seq<Command>) {
    && PositiveRows(f.rows) && (forall d | d in f.stores :: f.stores[d] == Local(map[], map[]))
    && (DistinctVersions(f.rows) || forall c | c in cs :: Complete(c.round))
  }

  /** Over any run of such commands by any devices: all devices stay complete below
      their watermarks if and only if no add goes ahead over rows its first sync
      has left unpulled and every add is pushed by its own last sync. */
  lemma {:induction false} SerialisedClientsStayClosedIff(f: Fleet, cs: seq<Command>)
    requires FreshFleet(f, cs) && PerformAll(f, cs).Some?
    ensures AlwaysClosed(f, cs) <==> AllHarmless(f, cs)
    ensures DistinctVersions(f.rows) ==> DistinctVersions(PerformAll(f, cs).value.rows) || !AllHarmless(f, cs)
  {
    if cs != [] {
      var front, c := cs[..|cs| - 1], cs[|cs| - 1];
      assert c in cs;
      SerialisedClientsStayClosedIff(f, front);
      if AllHarmless(f, front) {
        CommandDecides(PerformAll(f, front).value, c);
      }
    }
  }

  /** And as long as they do, a command leaves its device equal to the server if
      and only if its first sync left nothing to pull but, at most, the entry it
      adds, and its last sync pushed that entry. */
  lemma SerialisedClientsConverge(f: Fleet, cs: seq<Command>, c: Command)
    requires FreshFleet(f, cs + [c]) && PerformAll(f, cs).Some? && AllHarmless(f, cs)
    requires Perform(PerformAll(f, cs).value, c).Some?
    ensures var g := Perform(PerformAll(f, cs).value, c).value;
      c.d in g.stores && (Synced(g.stores[c.d], g.rows) <==> Prompt(PerformAll(f, cs).value, c))
  {
    assert forall x | x in cs :: x in cs + [c];
    assert c in cs + [c];
    SerialisedClientsStayClosedIff(f, cs);
    CommandDecides(PerformAll(f, cs).value, c);
  }

  ghost predicate AllComplete(c: Command) {
    Complete(c.round) && (c.SyncAddSync? ==> Complete(c.last))
  }

  lemma CompleteIsPrompt(f: Fleet, c: Command)
    requires AllClosed(f) && AllComplete(c) && Perform(f, c).Some?
    ensures Prompt(f, c)
  {
    var e, g := FirstRound(f, c).value, Perform(f, c).value;
    RoundKeepsClosed(f.stores[c.d], f.rows, c.round, e.local, e.rows);
    if c.SyncAddSync? {
      SyncAddSyncIff(f.stores[c.d], f.rows, c.round, e.local, e.rows, c.id, c.rev, c.last, g.stores[c.d], g.rows);
    }
  }

  /** When no round fails, every device equals the server after each of its commands. */
  lemma {:induction false} CompleteCommandsConverge(f: Fleet, cs: seq<Command>)
    requires FreshFleet(f, cs) && PerformAll(f, cs).Some?
    requires forall c | c in cs :: AllComplete(c)
    ensures var g := PerformAll(f, cs).value;
      && AllClosed(g) && AllHarmless(f, cs)
      && (cs != [] ==> cs[|cs| - 1].d in g.stores && Synced(g.stores[cs[|cs| - 1].d], g.rows))
  {
    if cs != [] {
      var front, c := cs[..|cs| - 1], cs[|cs| - 1];
      assert c in cs && AllComplete(c);
      CompleteCommandsConverge(f, front);
      CompleteIsPrompt(PerformAll(f, front).value, c);
      CommandDecides(PerformAll(f, front).value, c);
    }
  }
}
