/** The server's table of entries: a conditional upsert, a filtered and ordered
    read, and an unconditional delete. */
module SyncServer {
  import opened ByteStrings
  import opened VersionCodec
  import opened Buckets

  /** A revision of an entry: what a version number stands for. */
  datatype Rev = Rev(version: int64, data: Bytes)

  /** A stored row; `at` is the Unix second of its updated_at column. */
  datatype Row = Row(rev: Rev, at: int64)

  type Rows = map<Id, Row>

  /** A row as Pull returns it. */
  datatype Item = Item(id: Id, row: Row)

  /** One upsert the server performs, with the clock reading it stores. */
  datatype Write = Write(id: Id, rev: Rev, at: int64)

  ghost function Revs(rows: Rows): map<Id, Rev> {
    map id | id in rows :: rows[id].rev
  }

  predicate Accepts(rows: Rows, id: Id, version: int64) {
    id in rows ==> rows[id].rev.version < version
  }

  function Upsert(rows: Rows, id: Id, rev: Rev, at: int64): Rows {
    if Accepts(rows, id, rev.version) then rows[id := Row(rev, at)] else rows
  }

  function Fold(rows: Rows, ws: seq<Write>): Rows {
    if ws == [] then rows else
      var w := ws[|ws| - 1];
      Upsert(Fold(rows, ws[..|ws| - 1]), w.id, w.rev, w.at)
  }

  // ---------- pushing is a join ----------

  /** Write `i` is the first to carry its version of `id` and beats the start row. */
  ghost predicate FirstCarrier(rows: Rows, ws: seq<Write>, id: Id, i: nat) {
    && i < |ws| && ws[i].id == id
    && Accepts(rows, id, ws[i].rev.version)
    && forall j | 0 <= j < i && ws[j].id == id :: ws[j].rev.version < ws[i].rev.version
  }

  ghost predicate Dominates(rows: Rows, id: Id, version: int64) {
    id in rows && rows[id].rev.version >= version
  }

  /** Per key, folding the conditional upsert keeps the largest version offered,
      the start row included, with the data and time of its first carrier. */
  lemma {:induction false} PushIsAJoin(rows: Rows, ws: seq<Write>, id: Id)
    ensures id in rows ==> Dominates(Fold(rows, ws), id, rows[id].rev.version)
    ensures forall i | 0 <= i < |ws| && ws[i].id == id :: Dominates(Fold(rows, ws), id, ws[i].rev.version)
    ensures id in Fold(rows, ws) ==>
      || (id in rows && Fold(rows, ws)[id] == rows[id])
      || exists i: nat :: FirstCarrier(rows, ws, id, i) && Fold(rows, ws)[id] == Row(ws[i].rev, ws[i].at)
  {
    if ws != [] {
      var n := |ws| - 1;
      var front, w := ws[..n], ws[n];
      PushIsAJoin(rows, front, id);
      var mid, out := Fold(rows, front), Fold(rows, ws);
      forall i | 0 <= i < |ws| && ws[i].id == id ensures Dominates(out, id, ws[i].rev.version) {
        if i < n { assert front[i] == ws[i]; }
      }
      if id in out {
        if w.id == id && Accepts(mid, id, w.rev.version) {
          forall j | 0 <= j < n && ws[j].id == id ensures ws[j].rev.version < w.rev.version {
            assert front[j] == ws[j];
          }
          assert FirstCarrier(rows, ws, id, n);
        } else if !(id in rows && mid[id] == rows[id]) {
          var i: nat :| FirstCarrier(rows, front, id, i) && mid[id] == Row(front[i].rev, front[i].at);
          assert FirstCarrier(rows, ws, id, i);
        }
      }
    }
  }

  ghost function Offers(ws: seq<Write>): set<(Id, Rev)> {
    set i | 0 <= i < |ws| :: (ws[i].id, ws[i].rev)
  }

  ghost function Holdings(rows: Rows): set<(Id, Rev)> {
    set id | id in rows :: (id, rows[id].rev)
  }

  /** An id and a version together fix the data. */
  ghost predicate VersionsFixData(facts: set<(Id, Rev)>) {
    forall a, b | a in facts && b in facts && a.0 == b.0 && a.1.version == b.1.version :: a == b
  }

  lemma FoldHoldsAFact(rows: Rows, ws: seq<Write>, id: Id)
    requires id in Fold(rows, ws)
    ensures (id, Fold(rows, ws)[id].rev) in Holdings(rows) + Offers(ws)
  {
  }

  lemma FoldDominatesFacts(rows: Rows, ws: seq<Write>, f: (Id, Rev))
    requires f in Holdings(rows) + Offers(ws)
    ensures Dominates(Fold(rows, ws), f.0, f.1.version)
  {
  }

  type Facts = set<(Id, Rev)>

  /** What `revs` holds for `id` is the maximum of the facts about it: it is one of
      them, and none is above it. */
  ghost predicate IsJoinAt(revs: map<Id, Rev>, facts: Facts, id: Id) {
    && (id in revs ==> (id, revs[id]) in facts)
    && (forall f | f in facts && f.0 == id :: id in revs && f.1.version <= revs[id].version)
  }

  ghost predicate IsJoin(revs: map<Id, Rev>, facts: Facts) {
    forall id :: IsJoinAt(revs, facts, id)
  }

  ghost function About(facts: Facts, id: Id): Facts {
    set f | f in facts && f.0 == id
  }

  ghost predicate AgreeAt(a: map<Id, Rev>, b: map<Id, Rev>, id: Id) {
    (id in a <==> id in b) && (id in a ==> a[id] == b[id])
  }

  /** Two maxima of the same facts agree where versions fix data. */
  lemma JoinIsUnique(a: map<Id, Rev>, b: map<Id, Rev>, facts: Facts, id: Id)
    requires VersionsFixData(About(facts, id)) && IsJoinAt(a, facts, id) && IsJoinAt(b, facts, id)
    ensures AgreeAt(a, b, id)
  {
    if id in a { assert (id, a[id]) in About(facts, id); }
    if id in b { assert (id, b[id]) in About(facts, id); }
  }

  /** Folding pushes computes the join of the start rows and everything offered. */
  lemma FoldIsTheJoin(rows: Rows, ws: seq<Write>)
    ensures IsJoin(Revs(Fold(rows, ws)), Holdings(rows) + Offers(ws))
  {
    var revs, facts := Revs(Fold(rows, ws)), Holdings(rows) + Offers(ws);
    forall id ensures IsJoinAt(revs, facts, id) {
      if id in revs { FoldHoldsAFact(rows, ws, id); }
      forall f | f in facts && f.0 == id ensures id in revs && f.1.version <= revs[id].version {
        FoldDominatesFacts(rows, ws, f);
      }
    }
  }

  /** When versions fix data, only the set of offers matters: the table is the
      same under reordering and duplication of the pushes. */
  lemma PushOrderIsIrrelevant(rows: Rows, ws: seq<Write>, vs: seq<Write>)
    requires Offers(ws) == Offers(vs)
    requires VersionsFixData(Holdings(rows) + Offers(ws))
    ensures Revs(Fold(rows, ws)) == Revs(Fold(rows, vs))
  {
    FoldIsTheJoin(rows, ws);
    FoldIsTheJoin(rows, vs);
    var a, b, facts := Revs(Fold(rows, ws)), Revs(Fold(rows, vs)), Holdings(rows) + Offers(ws);
    forall id ensures AgreeAt(a, b, id) {
      assert IsJoinAt(a, facts, id) && IsJoinAt(b, facts, id);
      JoinIsUnique(a, b, facts, id);
    }
    AgreementIsEquality(a, b);
  }

  lemma AgreementIsEquality(a: map<Id, Rev>, b: map<Id, Rev>)
    requires forall id :: AgreeAt(a, b, id)
    ensures a == b
  {
    assert forall id :: AgreeAt(a, b, id) ==> (id in a <==> id in b);
  }

  /** Splitting a batch in two changes nothing, not even the stored times. */
  lemma {:induction false} BatchesCompose(rows: Rows, ws: seq<Write>, vs: seq<Write>)
    ensures Fold(rows, ws + vs) == Fold(Fold(rows, ws), vs)
  {
    if vs == [] {
      assert ws + vs == ws;
    } else {
      var n := |vs| - 1;
      assert (ws + vs)[..|ws + vs| - 1] == ws + vs[..n];
      BatchesCompose(rows, ws, vs[..n]);
    }
  }

  /** Two batches that carry the same revisions, at whatever times. */
  ghost predicate SameOffers(ws: seq<Write>, vs: seq<Write>) {
    && |ws| == |vs|
    && forall i | 0 <= i < |ws| :: ws[i].id == vs[i].id && ws[i].rev == vs[i].rev
  }

  lemma {:induction false} DominatedWritesChangeNothing(rows: Rows, ws: seq<Write>)
    requires forall i | 0 <= i < |ws| :: Dominates(rows, ws[i].id, ws[i].rev.version)
    ensures Fold(rows, ws) == rows
  {
    if ws != [] {
      DominatedWritesChangeNothing(rows, ws[..|ws| - 1]);
    }
  }

  lemma UpsertIgnoresTimes(a: Rows, b: Rows, w: Write, v: Write)
    requires Revs(a) == Revs(b) && w.id == v.id && w.rev == v.rev
    ensures Revs(Upsert(a, w.id, w.rev, w.at)) == Revs(Upsert(b, v.id, v.rev, v.at))
  {
    assert forall id :: id in a <==> id in Revs(a);
    assert forall id :: id in b <==> id in Revs(b);
    assert Accepts(a, w.id, w.rev.version) == Accepts(b, v.id, v.rev.version);
  }

  lemma {:induction false} TimesDoNotMatter(a: Rows, b: Rows, ws: seq<Write>, vs: seq<Write>)
    requires Revs(a) == Revs(b) && SameOffers(ws, vs)
    ensures Revs(Fold(a, ws)) == Revs(Fold(b, vs))
  {
    if ws != [] {
      var n := |ws| - 1;
      TimesDoNotMatter(a, b, ws[..n], vs[..n]);
      UpsertIgnoresTimes(Fold(a, ws[..n]), Fold(b, vs[..n]), ws[n], vs[n]);
    }
  }

  /** Sending again what was already folded changes nothing. */
  lemma PrefixIsDone(rows: Rows, done: seq<Write>, again: seq<Write>)
    requires SameOffers(done, again)
    ensures Fold(Fold(rows, done), again) == Fold(rows, done)
  {
    var part := Fold(rows, done);
    forall i | 0 <= i < |again| ensures Dominates(part, again[i].id, again[i].rev.version) {
      PushIsAJoin(rows, done, done[i].id);
    }
    DominatedWritesChangeNothing(part, again);
  }

  lemma SplitFold(rows: Rows, ws: seq<Write>, k: nat)
    requires k <= |ws|
    ensures Fold(rows, ws) == Fold(Fold(rows, ws[..k]), ws[k..])
  {
    assert ws == ws[..k] + ws[k..];
    BatchesCompose(rows, ws[..k], ws[k..]);
  }

  /** A batch that failed after any prefix may be sent again in full, at later
      times: the revisions end as if it had been applied once. */
  lemma RetryIsSafe(rows: Rows, ws: seq<Write>, k: nat, retry: seq<Write>)
    requires k <= |ws| && SameOffers(ws, retry)
    ensures Revs(Fold(Fold(rows, ws[..k]), retry)) == Revs(Fold(rows, ws))
  {
    var part := Fold(rows, ws[..k]);
    PrefixIsDone(rows, ws[..k], retry[..k]);
    SplitFold(part, retry, k);
    SplitFold(rows, ws, k);
    TimesDoNotMatter(part, part, retry[k..], ws[k..]);
  }

  // ---------- pulling ----------

  ghost predicate HasItem(items: seq<Item>, id: Id) {
    exists i :: 0 <= i < |items| && items[i].id == id
  }

  /** `items` are the rows above `since`, each once, in ascending version order. */
  ghost predicate IsSelection(items: seq<Item>, rows: Rows, since: int64) {
    && (forall i | 0 <= i < |items| ::
          items[i].id in rows && items[i].row == rows[items[i].id] && items[i].row.rev.version > since)
    && (forall id {:trigger HasItem(items, id)} | id in rows && rows[id].rev.version > since :: HasItem(items, id))
    && (forall i, j | 0 <= i < j < |items| ::
          items[i].id != items[j].id && items[i].row.rev.version <= items[j].row.rev.version)
  }

  lemma {:induction false} LeastExists(rows: Rows, ids: set<Id>)
    requires ids <= rows.Keys && ids != {}
    ensures exists id :: id in ids && forall j | j in ids :: rows[id].rev.version <= rows[j].rev.version
    decreases ids
  {
    var x :| x in ids;
    if ids != {x} {
      LeastExists(rows, ids - {x});
      var y :| y in ids - {x} && forall j | j in ids - {x} :: rows[y].rev.version <= rows[j].rev.version;
      var least := if rows[x].rev.version <= rows[y].rev.version then x else y;
      assert least in ids && forall j | j in ids :: rows[least].rev.version <= rows[j].rev.version;
    }
  }

  lemma SelectionGrows(items: seq<Item>, rows: Rows, rest: set<Id>, since: int64, id: Id)
    requires IsSelection(items, rows - rest, since)
    requires id in rest && id in rows && rows[id].rev.version > since
    requires forall i | 0 <= i < |items| :: items[i].row.rev.version <= rows[id].rev.version
    ensures IsSelection(items + [Item(id, rows[id])], rows - (rest - {id}), since)
  {
    var more, out := items + [Item(id, rows[id])], rows - (rest - {id});
    forall x | x in out && out[x].rev.version > since ensures HasItem(more, x) {
      if x == id {
        assert more[|items|].id == x;
      } else {
        assert x in rows - rest && HasItem(items, x);
        var i :| 0 <= i < |items| && items[i].id == x;
        assert more[i].id == x;
      }
    }
  }

  lemma {:induction false} GreatestExists(rows: Rows)
    requires rows != map[]
    ensures exists id :: id in rows && forall j | j in rows :: rows[j].rev.version <= rows[id].rev.version
    decreases rows.Keys
  {
    var x :| x in rows;
    var rest := rows - {x};
    assert rest.Keys == rows.Keys - {x};
    assert forall j | j in rows :: j == x || (j in rest && rest[j] == rows[j]);
    var top := x;
    if rest != map[] {
      GreatestExists(rest);
      var y :| y in rest && forall j | j in rest :: rest[j].rev.version <= rest[y].rev.version;
      top := if rows[y].rev.version <= rows[x].rev.version then x else y;
    }
    assert top in rows && forall j | j in rows :: rows[j].rev.version <= rows[top].rev.version;
  }

  /** A pull always has an answer. */
  lemma {:induction false} SelectionExists(rows: Rows, since: int64) returns (items: seq<Item>)
    ensures IsSelection(items, rows, since)
    decreases rows.Keys
  {
    if rows == map[] {
      items := [];
    } else {
      GreatestExists(rows);
      var top :| top in rows && forall j | j in rows :: rows[j].rev.version <= rows[top].rev.version;
      var rest := rows - {top};
      assert rest.Keys == rows.Keys - {top};
      items := SelectionExists(rest, since);
      if rows[top].rev.version > since {
        SelectionGrows(items, rows, {top}, since, top);
        assert {top} - {top} == {} && rows - {} == rows;
        items := items + [Item(top, rows[top])];
      } else {
        assert forall id | id in rows :: rows[id].rev.version <= since;
      }
    }
  }

  function Writes(entries: seq<(Id, Rev)>, clock: nat -> int64): (ws: seq<Write>)
    ensures |ws| == |entries|
    ensures forall i | 0 <= i < |ws| :: ws[i] == Write(entries[i].0, entries[i].1, clock(i))
  {
    seq(|entries|, i requires 0 <= i < |entries| => Write(entries[i].0, entries[i].1, clock(i)))
  }

  class SyncService {
    // one row per (user, entry)
    var table: map<User, Rows>

    function RowsOf(user: User): Rows
      reads this
    {
      if user in table then table[user] else map[]
    }

    constructor ()
      ensures table == map[]
    {
      table := map[];
    }

    /** Upserts the entries one by one; the database may fail at entry `fault`,
        and then what came before it stays. */
    method Push(user: User, entries: seq<(Id, Rev)>, clock: nat -> int64, fault: nat) returns (ok: bool)
      modifies this
      ensures ok <==> |entries| <= fault
      ensures RowsOf(user) == Fold(old(RowsOf(user)), Writes(entries, clock)[..if ok then |entries| else fault])
      ensures table - {user} == old(table - {user})
    {
      ghost var ws := Writes(entries, clock);
      ghost var start := RowsOf(user);
      var i := 0;
      while i < |entries|
        invariant i <= |entries| && i <= fault
        invariant RowsOf(user) == Fold(start, ws[..i])
        invariant table - {user} == old(table - {user})
      {
        if i == fault {
          return false;
        }
        UpsertOne(user, entries[i].0, entries[i].1, clock(i));
        assert ws[..i + 1][..i] == ws[..i];
        i := i + 1;
      }
      return true;
    }

    /** The conditional upsert of one row. */
    method UpsertOne(user: User, id: Id, rev: Rev, now: int64)
      modifies this
      ensures RowsOf(user) == Upsert(old(RowsOf(user)), id, rev, now)
      ensures table - {user} == old(table - {user})
    {
      var rows := RowsOf(user);
      if id !in rows || rows[id].rev.version < rev.version {
        table := table[user := rows[id := Row(rev, now)]];
      }
    }

    method Pull(user: User, since: int64) returns (items: seq<Item>)
      ensures IsSelection(items, RowsOf(user), since)
    {
      items := [];
      var rows := RowsOf(user);
      var rest := set id | id in rows && rows[id].rev.version > since;
      while rest != {}
        invariant rest <= rows.Keys && (forall id | id in rest :: rows[id].rev.version > since)
        invariant IsSelection(items, rows - rest, since)
        invariant forall i, id | 0 <= i < |items| && id in rest :: items[i].row.rev.version <= rows[id].rev.version
        decreases rest
      {
        LeastExists(rows, rest);
        var id :| id in rest && forall j | j in rest :: rows[id].rev.version <= rows[j].rev.version;
        SelectionGrows(items, rows, rest, since, id);
        items := items + [Item(id, rows[id])];
        rest := rest - {id};
      }
      assert rows - rest == rows;
    }

    /** Removes the row whatever its version; an absent row is an error. */
    method Delete(user: User, id: Id) returns (ok: bool)
      modifies this
      ensures ok <==> id in old(RowsOf(user))
      ensures RowsOf(user) == old(RowsOf(user)) - {id}
      ensures table - {user} == old(table - {user})
    {
      var rows := RowsOf(user);
      ok := id in rows;
      if ok {
        table := table[user := rows - {id}];
      }
    }
  }
}
