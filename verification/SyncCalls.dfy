/** The remote calls of a round: which are made, in what order, and what became
    of each. */
module SyncCalls {
  import opened VersionCodec
  import opened ByteStrings
  import opened Buckets
  import opened LocalStore
  import opened SyncServer
  import opened SyncRound

  /** What becomes of a remote call: it succeeds, or it returns an error without
      or with its effect having happened. */
  datatype Fault = Delivered | Lost | ReplyLost

  /** A call whose effect a run shows; a lost push has none and is not shown. */
  datatype Call = PullCall | PushCall(id: Id, now: int64) | DeleteCall(id: Id, fate: Fault)

  ghost function CallOf(e: Event): seq<Call> {
    match e
    case PullOk(_) => [PullCall]
    case PushOne(id, now) => [PushCall(id, now)]
    case DeleteOk(id) => [DeleteCall(id, Delivered)]
    case DeleteAbsent(id) => [DeleteCall(id, Delivered)]
    case DeleteLost(id, happened) => [DeleteCall(id, if happened then ReplyLost else Lost)]
    case _ => []
  }

  ghost function CallsIn(es: seq<Event>): seq<Call> {
    if es == [] then [] else CallsIn(es[..|es| - 1]) + CallOf(es[|es| - 1])
  }

  lemma CallsSnoc(es: seq<Event>, e: Event)
    ensures CallsIn(es + [e]) == CallsIn(es) + CallOf(e)
  {
    assert (es + [e])[..|es|] == es;
  }

  // ---------- the ids a loop picks ----------

  ghost predicate Distinct(ids: seq<Id>) {
    forall x, y | 0 <= x < y < |ids| :: ids[x] != ids[y]
  }

  /** All ids of the store's entries, in key order. */
  ghost predicate Lists(ids: seq<Id>, l: Local) {
    && (forall id :: id in ids <==> id in l.entries)
    && (forall x, y | 0 <= x < y < |ids| :: Less(ids[x], ids[y]))
  }

  /** The members of `s` among `ids`, in their order. */
  ghost function Chosen(ids: seq<Id>, s: set<Id>): (cs: seq<Id>)
    ensures forall x :: x in cs <==> x in ids && x in s
    ensures |cs| <= |ids|
  {
    if ids == [] then [] else
      var n := |ids| - 1;
      assert ids == ids[..n] + [ids[n]];
      Chosen(ids[..n], s) + if ids[n] in s then [ids[n]] else []
  }

  lemma ChosenStep(ids: seq<Id>, s: set<Id>, j: nat)
    requires j < |ids|
    ensures Chosen(ids[..j + 1], s) == Chosen(ids[..j], s) + if ids[j] in s then [ids[j]] else []
  {
    assert ids[..j + 1][..j] == ids[..j];
  }

  lemma {:induction false} ChosenPrefix(ids: seq<Id>, s: set<Id>, j: nat)
    requires j <= |ids|
    ensures Chosen(ids[..j], s) <= Chosen(ids, s)
    decreases |ids| - j
  {
    if j == |ids| {
      assert ids[..j] == ids;
    } else {
      ChosenStep(ids, s, j);
      ChosenPrefix(ids, s, j + 1);
    }
  }

  /** Where the loop stands at an id that it picks. */
  lemma ChosenSoFar(ids: seq<Id>, s: set<Id>, j: nat)
    requires j < |ids| && ids[j] in s
    ensures var part, all := Chosen(ids[..j], s), Chosen(ids, s);
      |part| < |all| && all[..|part|] == part && all[..|part| + 1] == part + [ids[j]]
  {
    ChosenStep(ids, s, j);
    ChosenPrefix(ids, s, j + 1);
  }

  /** Pushes of the given ids, numbered from `first`: each bears the server's
      clock as its own call reads it. */
  ghost function Pushes(ids: seq<Id>, clock: nat -> int64, first: nat): (cs: seq<Call>)
    ensures |cs| == |ids| && forall i | 0 <= i < |ids| :: cs[i] == PushCall(ids[i], clock(first + i))
  {
    seq(|ids|, i requires 0 <= i < |ids| => PushCall(ids[i], clock(first + i)))
  }

  ghost function Deletes(ids: seq<Id>, net: nat -> Fault, first: nat): (cs: seq<Call>)
    ensures |cs| == |ids| && forall i | 0 <= i < |ids| :: cs[i] == DeleteCall(ids[i], net(first + i))
  {
    seq(|ids|, i requires 0 <= i < |ids| => DeleteCall(ids[i], net(first + i)))
  }

  lemma PushesSnoc(ids: seq<Id>, id: Id, clock: nat -> int64, first: nat)
    ensures Pushes(ids + [id], clock, first) == Pushes(ids, clock, first) + [PushCall(id, clock(first + |ids|))]
  {
  }

  lemma DeletesSnoc(ids: seq<Id>, id: Id, net: nat -> Fault, first: nat)
    ensures Deletes(ids + [id], net, first) == Deletes(ids, net, first) + [DeleteCall(id, net(first + |ids|))]
  {
  }

  ghost predicate AllDelivered(net: nat -> Fault, first: nat, past: nat) {
    forall k | first <= k < past :: net(k) == Delivered
  }

  /** The calls of a push loop over the ids `todo` in which call `k` is the first to fail. */
  ghost predicate FailsAt(todo: seq<Id>, net: nat -> Fault, clock: nat -> int64, calls: seq<Call>, k: nat) {
    && 1 <= k <= |todo| && AllDelivered(net, 1, k) && net(k) != Delivered
    && calls == [PullCall] + Pushes(todo[..if net(k) == Lost then k - 1 else k], clock, 1)
  }

  /** The calls of a round that has pulled the store `p`: one push for every entry
      that has one to send, one delete for every tombstone, numbered on from the
      pull; the first push to fail ends the round, a failed delete does not. */
  ghost predicate RoundCalls(p: Local, ids: seq<Id>, net: nat -> Fault, clock: nat -> int64, ok: bool,
                             calls: seq<Call>)
  {
    var todo, dead := Chosen(ids, Pushable(p)), Chosen(ids, Tombs(p));
    if ok then
      && AllDelivered(net, 1, 1 + |todo|)
      && calls == Plan(todo, dead, net, clock)
    else
      exists k :: FailsAt(todo, net, clock, calls, k)
  }

  // ---------- the times a run stores ----------

  lemma {:induction false} StampsAreCalls(es: seq<Event>, id: Id)
    ensures id in StampsOf(es) ==> PushCall(id, StampsOf(es)[id]) in CallsIn(es)
    ensures forall now :: PushCall(id, now) in CallsIn(es) ==> id in StampsOf(es)
  {
    if es != [] {
      StampsAreCalls(es[..|es| - 1], id);
    }
  }

  /** The calls of a failure-free round. */
  ghost function Plan(todo: seq<Id>, dead: seq<Id>, net: nat -> Fault, clock: nat -> int64): seq<Call> {
    [PullCall] + Pushes(todo, clock, 1) + Deletes(dead, net, 1 + |todo|)
  }

  lemma PlanIsNumbered(todo: seq<Id>, dead: seq<Id>, net: nat -> Fault, clock: nat -> int64, k: nat)
    requires k < |Plan(todo, dead, net, clock)|
    ensures var c := Plan(todo, dead, net, clock)[k]; c.PushCall? ==> c.now == clock(k)
  {
    if 1 <= k <= |todo| {
      assert Plan(todo, dead, net, clock)[k] == Pushes(todo, clock, 1)[k - 1];
    } else if |todo| < k {
      assert Plan(todo, dead, net, clock)[k] == Deletes(dead, net, 1 + |todo|)[k - 1 - |todo|];
    }
  }

  lemma PlanPushes(todo: seq<Id>, dead: seq<Id>, net: nat -> Fault, clock: nat -> int64, id: Id)
    requires id in todo
    ensures exists now :: PushCall(id, now) in Plan(todo, dead, net, clock)
  {
    var i :| 0 <= i < |todo| && todo[i] == id;
    assert Plan(todo, dead, net, clock)[1 + i] == Pushes(todo, clock, 1)[i] == PushCall(id, clock(1 + i));
  }

  lemma ChangedRowsAreJoined(l: Local, rows: Rows, at: Stamps, id: Id)
    requires id in SyncRows(l, rows, at) && !(id in rows && SyncRows(l, rows, at)[id] == rows[id])
    ensures id in Pushable(Pulled(l, rows)) && SyncRows(l, rows, at)[id].at == if id in at then at[id] else 0
  {
  }

  /** In a round without failures every row that it changed bears the server's
      clock as the push of that row read it. */
  lemma ChangedRowsAreStamped(l: Local, rows: Rows, es: seq<Event>, ids: seq<Id>, net: nat -> Fault,
                              clock: nat -> int64, id: Id)
    requires Lists(ids, Pulled(l, rows)) && RoundCalls(Pulled(l, rows), ids, net, clock, true, CallsIn(es))
    requires id in SyncRows(l, rows, StampsOf(es))
    requires !(id in rows && SyncRows(l, rows, StampsOf(es))[id] == rows[id])
    ensures var row, calls := SyncRows(l, rows, StampsOf(es))[id], CallsIn(es);
      exists k: nat :: k < |calls| && calls[k] == PushCall(id, row.at) && row.at == clock(k)
  {
    var todo, dead := Chosen(ids, Pushable(Pulled(l, rows))), Chosen(ids, Tombs(Pulled(l, rows)));
    ChangedRowsAreJoined(l, rows, StampsOf(es), id);
    PlanPushes(todo, dead, net, clock, id);
    StampsAreCalls(es, id);
    var k :| 0 <= k < |CallsIn(es)| && CallsIn(es)[k] == PushCall(id, StampsOf(es)[id]);
    PlanIsNumbered(todo, dead, net, clock, k);
  }
}
