/** The device's store: one bucket of encrypted entries and one of versions,
    both keyed by "user:id". */
module LocalStore {
  import opened Wrappers
  import opened ByteStrings
  import opened VersionCodec
  import opened Buckets

  /** What one user sees of the store: two independent maps. */
  datatype Local = Local(entries: map<Id, Bytes>, versions: map<Id, int64>)

  /** The largest of a device's versions, and 0. */
  ghost function Watermark(vs: map<Id, int64>): (w: int64)
    ensures 0 <= w
    ensures forall id | id in vs :: vs[id] <= w
    ensures w == 0 || exists id | id in vs :: vs[id] == w
    decreases vs.Keys
  {
    if vs == map[] then 0 else
      var id :| id in vs;
      var rest := vs - {id};
      assert rest.Keys == vs.Keys - {id};
      assert forall j | j in vs :: j == id || (j in rest && rest[j] == vs[j]);
      var w := Watermark(rest);
      assert w != 0 ==> exists j | j in rest :: vs[j] == w;
      if vs[id] > w then vs[id] else w
  }

  lemma {:induction false} StrippingKeepsOrder(p: Bytes, a: Bytes, b: Bytes)
    requires Less(p + a, p + b)
    ensures Less(a, b)
  {
    if p == [] {
      assert p + a == a && p + b == b;
    } else {
      assert (p + a)[1..] == p[1..] + a && (p + b)[1..] == p[1..] + b;
      StrippingKeepsOrder(p[1..], a, b);
    }
  }

  ghost function Decode(s: Bytes): int64 {
    if |s| == 8 then BytesToInt64(s) else 0
  }

  ghost function Decoded(view: map<Id, Bytes>): map<Id, int64> {
    map id | id in view :: Decode(view[id])
  }

  ghost function VersionView(m: map<Bytes, Bytes>, user: User): map<Id, int64> {
    Decoded(UserView(m, user))
  }

  /** The full keys under which a user's ids are stored. */
  function FullKeys(user: User, ids: seq<Id>): (ks: seq<Bytes>)
    ensures |ks| == |ids|
    ensures forall x | 0 <= x < |ids| :: ks[x] == Key(user, ids[x])
  {
    if ids == [] then [] else FullKeys(user, ids[..|ids| - 1]) + [Key(user, ids[|ids| - 1])]
  }

  lemma FullKeysHold(user: User, ids: seq<Id>, id: Id)
    ensures Key(user, id) in FullKeys(user, ids) <==> id in ids
  {
    var ks, k := FullKeys(user, ids), Key(user, id);
    if id in ids {
      var x :| 0 <= x < |ids| && ids[x] == id;
      assert ks[x] == k;
    }
    if k in ks {
      var x :| 0 <= x < |ks| && ks[x] == k;
      KeyIsInjective(user, ids[x], id);
    }
  }

  /** Visiting one more record moves its key from what is to come to what was listed. */
  lemma ListStep(b: Bucket, user: User, ids: seq<Id>, i: nat)
    requires i < |b| && Prefix(user) <= b[i].key
    ensures FullKeys(user, ids + [b[i].key[|user| + 1..]]) + Scan(b, Prefix(user), i + 1) ==
            FullKeys(user, ids) + Scan(b, Prefix(user), i)
  {
    var id := b[i].key[|user| + 1..];
    PrefixedIsKey(user, b[i].key);
    assert (ids + [id])[..|ids|] == ids;
  }

  /** A list of ids whose full keys are what the cursor visits is exactly the
      user's entries, in order. */
  lemma ListIsExact(b: Bucket, user: User, ids: seq<Id>)
    requires Sorted(b)
    requires FullKeys(user, ids) == Scan(b, Prefix(user), Seek(b, Prefix(user)))
    ensures forall id :: id in ids <==> id in UserView(Contents(b), user)
    ensures forall x, y | 0 <= x < y < |ids| :: Less(ids[x], ids[y])
  {
    var ks := FullKeys(user, ids);
    ScanIsExact(b, Prefix(user));
    forall id ensures id in ids <==> id in UserView(Contents(b), user) {
      KeyHasPrefix(user, id);
      FullKeysHold(user, ids, id);
    }
    forall x, y | 0 <= x < y < |ids| ensures Less(ids[x], ids[y]) {
      assert Less(ks[x], ks[y]);
      StrippingKeepsOrder(Prefix(user), ids[x], ids[y]);
    }
  }

  /** `max` bounds the versions in a stretch of the bucket. */
  ghost predicate Bounds(max: int, b: Bucket, from: nat, to: nat) {
    forall j | from <= j < to <= |b| :: Decode(b[j].val) <= max
  }

  lemma BoundsGrow(max: int, more: int, b: Bucket, from: nat, to: nat)
    requires from <= to < |b| && Bounds(max, b, from, to)
    requires max <= more && Decode(b[to].val) <= more
    ensures Bounds(more, b, from, to + 1)
  {
  }

  ghost predicate Attained(vs: map<Id, int64>, max: int) {
    max == 0 || exists id | id in vs :: vs[id] == max
  }

  /** A bound from the sought position to where the prefix ends is the watermark
      as soon as it is attained. */
  lemma ScanFindsTheWatermark(b: Bucket, user: User, e: nat, max: int64)
    requires Sorted(b) && Seek(b, Prefix(user)) <= e <= |b|
    requires e == |b| || !(Prefix(user) <= b[e].key)
    requires 0 <= max && Bounds(max, b, Seek(b, Prefix(user)), e)
    requires Attained(VersionView(Contents(b), user), max)
    ensures max == Watermark(VersionView(Contents(b), user))
  {
    var vs := VersionView(Contents(b), user);
    forall id | id in vs ensures vs[id] <= max {
      KeyHasPrefix(user, id);
      var j := PositionOf(b, Key(user, id));
      ContentsAt(b, j);
      if j < Seek(b, Prefix(user)) { PrefixIsNotAbove(Prefix(user), Key(user, id)); }
      if e <= j { NoneFollow(b, Prefix(user), e); }
    }
  }

  lemma ScannedVersionIsTheUsers(b: Bucket, user: User, j: nat)
    requires Sorted(b) && j < |b| && Prefix(user) <= b[j].key
    ensures b[j].key in Contents(b) && Contents(b)[b[j].key] == b[j].val
    ensures Attained(VersionView(Contents(b), user), Decode(b[j].val))
  {
    ContentsAt(b, j);
    PrefixedIsKey(user, b[j].key);
    var id := b[j].key[|user| + 1..];
    assert VersionView(Contents(b), user)[id] == Decode(b[j].val);
  }

  /** What every user sees of the two buckets. */
  ghost function Views(entries: Bucket, versions: Bucket): (vs: imap<User, Local>)
    ensures forall u :: u in vs
  {
    imap u: User :: Local(UserView(Contents(entries), u), VersionView(Contents(versions), u))
  }

  /** The part of the views that users with separate keys see. */
  ghost function Others(views: imap<User, Local>, user: User): imap<User, Local> {
    imap u | u in views && Separate(user, u) :: views[u]
  }

  lemma SameOthers(a: imap<User, Local>, b: imap<User, Local>, user: User)
    requires forall u :: u in a && u in b
    requires forall u | Separate(user, u) :: a[u] == b[u]
    ensures Others(a, user) == Others(b, user)
  {
  }

  // ---------- one change of one bucket ----------

  /** `c` is `b` after a change by `user`, who now sees `view` in it; users with
      separate keys see what they saw. */
  ghost predicate Changed(b: Bucket, c: Bucket, user: User, view: map<Id, Bytes>) {
    && Sorted(c)
    && UserView(Contents(c), user) == view
    && forall u | Separate(user, u) :: UserView(Contents(c), u) == UserView(Contents(b), u)
  }

  lemma OthersSeeTheSame(m: map<Bytes, Bytes>, n: map<Bytes, Bytes>, user: User, id: Id)
    requires m - {Key(user, id)} == n - {Key(user, id)}
    ensures forall u | Separate(user, u) :: UserView(n, u) == UserView(m, u)
  {
    forall u | Separate(user, u) ensures UserView(n, u) == UserView(m, u) {
      OtherViewsKeep(m, n, user, id, u);
    }
  }

  lemma InsertChanges(b: Bucket, user: User, id: Id, val: Bytes)
    requires Sorted(b)
    ensures Changed(b, Insert(b, Key(user, id), val), user, UserView(Contents(b), user)[id := val])
  {
    var m, k := Contents(b), Key(user, id);
    InsertUpdatesContents(b, k, val);
    PutUpdatesView(m, user, id, val);
    assert m[k := val] - {k} == m - {k};
    OthersSeeTheSame(m, m[k := val], user, id);
  }

  lemma RemoveChanges(b: Bucket, user: User, id: Id)
    requires Sorted(b)
    ensures Changed(b, Remove(b, Key(user, id)), user, UserView(Contents(b), user) - {id})
  {
    var m, k := Contents(b), Key(user, id);
    RemoveUpdatesContents(b, k);
    RemoveUpdatesView(m, user, id);
    assert m - {k} - {k} == m - {k};
    OthersSeeTheSame(m, m - {k}, user, id);
  }

  /** All values are eight bytes long. */
  ghost predicate AllEight(b: Bucket) {
    forall k | k in Contents(b) :: |Contents(b)[k]| == 8
  }

  lemma StillAllEight(b: Bucket, k: Bytes, version: int64)
    requires Sorted(b) && AllEight(b)
    ensures AllEight(Insert(b, k, Int64ToBytes(version))) && AllEight(Remove(b, k))
  {
    InsertUpdatesContents(b, k, Int64ToBytes(version));
    RemoveUpdatesContents(b, k);
  }

  ghost predicate Wellformed(entries: Bucket, versions: Bucket) {
    Sorted(entries) && Sorted(versions) && AllEight(versions)
  }

  /** The store `n` shows `user` the two maps `l`, and others what `m` shows them. */
  ghost predicate Becomes(m: imap<User, Local>, n: imap<User, Local>, user: User, l: Local) {
    (forall u :: u in n) && n[user] == l && Others(n, user) == Others(m, user)
  }

  lemma EntriesBecome(e: Bucket, f: Bucket, v: Bucket, user: User, view: map<Id, Bytes>)
    requires Wellformed(e, v) && Changed(e, f, user, view)
    ensures Wellformed(f, v)
    ensures Becomes(Views(e, v), Views(f, v), user, Local(view, Views(e, v)[user].versions))
  {
    SameOthers(Views(f, v), Views(e, v), user);
  }

  lemma VersionsBecome(e: Bucket, v: Bucket, w: Bucket, user: User, view: map<Id, Bytes>)
    requires Wellformed(e, v) && Changed(v, w, user, view) && AllEight(w)
    ensures Wellformed(e, w)
    ensures Becomes(Views(e, v), Views(e, w), user, Local(Views(e, v)[user].entries, Decoded(view)))
  {
    SameOthers(Views(e, w), Views(e, v), user);
  }

  lemma PutBecomes(e: Bucket, v: Bucket, user: User, id: Id, data: Bytes)
    requires Wellformed(e, v)
    ensures var f, l := Insert(e, Key(user, id), data), Views(e, v)[user];
      Wellformed(f, v) && Becomes(Views(e, v), Views(f, v), user, l.(entries := l.entries[id := data]))
  {
    InsertChanges(e, user, id, data);
    EntriesBecome(e, Insert(e, Key(user, id), data), v, user, UserView(Contents(e), user)[id := data]);
  }

  lemma DeleteBecomes(e: Bucket, v: Bucket, user: User, id: Id)
    requires Wellformed(e, v)
    ensures var f, l := Remove(e, Key(user, id)), Views(e, v)[user];
      Wellformed(f, v) && Becomes(Views(e, v), Views(f, v), user, l.(entries := l.entries - {id}))
  {
    RemoveChanges(e, user, id);
    EntriesBecome(e, Remove(e, Key(user, id)), v, user, UserView(Contents(e), user) - {id});
  }

  lemma PutVersionBecomes(e: Bucket, v: Bucket, user: User, id: Id, version: int64)
    requires Wellformed(e, v)
    ensures var w, l := Insert(v, Key(user, id), Int64ToBytes(version)), Views(e, v)[user];
      Wellformed(e, w) && Becomes(Views(e, v), Views(e, w), user, l.(versions := l.versions[id := version]))
  {
    var view := UserView(Contents(v), user);
    InsertChanges(v, user, id, Int64ToBytes(version));
    StillAllEight(v, Key(user, id), version);
    VersionsBecome(e, v, Insert(v, Key(user, id), Int64ToBytes(version)), user, view[id := Int64ToBytes(version)]);
    VersionIsDecoded(view, id, version);
  }

  lemma DeleteVersionBecomes(e: Bucket, v: Bucket, user: User, id: Id)
    requires Wellformed(e, v)
    ensures var w, l := Remove(v, Key(user, id)), Views(e, v)[user];
      Wellformed(e, w) && Becomes(Views(e, v), Views(e, w), user, l.(versions := l.versions - {id}))
  {
    var view := UserView(Contents(v), user);
    RemoveChanges(v, user, id);
    StillAllEight(v, Key(user, id), 0);
    VersionsBecome(e, v, Remove(v, Key(user, id)), user, view - {id});
    VersionIsDecoded(view, id, 0);
  }

  lemma VersionIsDecoded(view: map<Id, Bytes>, id: Id, version: int64)
    ensures Decoded(view[id := Int64ToBytes(version)]) == Decoded(view)[id := version]
    ensures Decoded(view - {id}) == Decoded(view) - {id}
  {
    VersionSurvivesStorage(version);
  }

  /** A new file holds two empty buckets. */
  lemma NewFileIsEmpty()
    ensures Wellformed([], [])
    ensures forall u :: Views([], [])[u] == Local(map[], map[])
  {
  }

  /** Mentioned where the representation of a store matters. */
  ghost predicate Opened(entries: Bucket, versions: Bucket) {
    true
  }

  class Store {
    var entries: Bucket
    var versions: Bucket
    ghost var views: imap<User, Local>

    // The trigger keeps the buckets and their recursive functions out of proofs
    // about callers: it comes into play only where Opened is mentioned.
    ghost predicate Valid()
      reads this
    {
      && (forall u :: u in views)
      && (forall e, v {:trigger Opened(e, v)} | e == entries && v == versions ::
            Opened(e, v) && Wellformed(e, v) && views == Views(e, v))
    }

    ghost function LocalOf(user: User): Local
      reads this
      requires Valid()
    {
      views[user]
    }

    /** What every user whose keys stay clear of `user`'s sees. */
    ghost function OthersOf(user: User): imap<User, Local>
      reads this
    {
      Others(views, user)
    }

    /** Opens a file, new or written before. */
    constructor (entries: Bucket, versions: Bucket)
      requires Wellformed(entries, versions)
      ensures Valid()
      ensures forall u :: LocalOf(u) == Views(entries, versions)[u]
    {
      this.entries, this.versions := entries, versions;
      views := Views(entries, versions);
    }

    /** The end of a write transaction: the two buckets as it leaves them, in which
        `user` sees `l`. */
    method Commit(entries: Bucket, versions: Bucket, user: User, ghost l: Local)
      requires Wellformed(entries, versions) && Becomes(views, Views(entries, versions), user, l)
      modifies this
      ensures Valid() && LocalOf(user) == l
      ensures OthersOf(user) == old(OthersOf(user))
    {
      this.entries, this.versions := entries, versions;
      views := Views(entries, versions);
    }

    method Put(user: User, id: Id, data: Bytes)
      requires Valid()
      modifies this
      ensures Valid()
      ensures LocalOf(user) == old(LocalOf(user)).(entries := old(LocalOf(user)).entries[id := data])
      ensures OthersOf(user) == old(OthersOf(user))
    {
      assert Opened(entries, versions);
      PutBecomes(entries, versions, user, id, data);
      ghost var l := LocalOf(user);
      Commit(Insert(entries, Key(user, id), data), versions, user, l.(entries := l.entries[id := data]));
    }

    method Get(user: User, id: Id) returns (data: Option<Bytes>)
      requires Valid()
      ensures var es := LocalOf(user).entries; data == if id in es then Some(es[id]) else None
    {
      assert Opened(entries, versions);
      data := Find(entries, Key(user, id));
      FindReadsContents(entries, Key(user, id));
    }

    method List(user: User) returns (ids: seq<Id>)
      requires Valid()
      ensures forall id :: id in ids <==> id in LocalOf(user).entries
      ensures forall x, y | 0 <= x < y < |ids| :: Less(ids[x], ids[y])
    {
      assert Opened(entries, versions);
      ids := [];
      var prefix := Prefix(user);
      var i := Seek(entries, prefix);
      while i < |entries| && prefix <= entries[i].key
        invariant i <= |entries|
        invariant Scan(entries, prefix, Seek(entries, prefix)) == FullKeys(user, ids) + Scan(entries, prefix, i)
      {
        ListStep(entries, user, ids, i);
        ids := ids + [entries[i].key[|user| + 1..]];
        i := i + 1;
      }
      assert Scan(entries, prefix, i) == [];
      ListIsExact(entries, user, ids);
    }

    method Delete(user: User, id: Id)
      requires Valid()
      modifies this
      ensures Valid()
      ensures LocalOf(user) == old(LocalOf(user)).(entries := old(LocalOf(user)).entries - {id})
      ensures OthersOf(user) == old(OthersOf(user))
    {
      assert Opened(entries, versions);
      DeleteBecomes(entries, versions, user, id);
      ghost var l := LocalOf(user);
      Commit(Remove(entries, Key(user, id)), versions, user, l.(entries := l.entries - {id}));
    }

    method PutVersion(user: User, id: Id, version: int64)
      requires Valid()
      modifies this
      ensures Valid()
      ensures LocalOf(user) == old(LocalOf(user)).(versions := old(LocalOf(user)).versions[id := version])
      ensures OthersOf(user) == old(OthersOf(user))
    {
      assert Opened(entries, versions);
      PutVersionBecomes(entries, versions, user, id, version);
      ghost var l := LocalOf(user);
      Commit(entries, Insert(versions, Key(user, id), Int64ToBytes(version)), user,
             l.(versions := l.versions[id := version]));
    }

    method GetVersion(user: User, id: Id) returns (version: Option<int64>)
      requires Valid()
      ensures var vs := LocalOf(user).versions; version == if id in vs then Some(vs[id]) else None
    {
      assert Opened(entries, versions);
      FindReadsContents(versions, Key(user, id));
      var data := Find(versions, Key(user, id));
      match data {
        case None => version := None;
        case Some(s) => version := Some(BytesToInt64(s));
      }
    }

    method DeleteVersion(user: User, id: Id)
      requires Valid()
      modifies this
      ensures Valid()
      ensures LocalOf(user) == old(LocalOf(user)).(versions := old(LocalOf(user)).versions - {id})
      ensures OthersOf(user) == old(OthersOf(user))
    {
      assert Opened(entries, versions);
      DeleteVersionBecomes(entries, versions, user, id);
      ghost var l := LocalOf(user);
      Commit(entries, Remove(versions, Key(user, id)), user, l.(versions := l.versions - {id}));
    }

    method GetMaxVersion(user: User) returns (max: int64)
      requires Valid()
      ensures max == Watermark(LocalOf(user).versions)
    {
      assert Opened(entries, versions);
      max := 0;
      var prefix := Prefix(user);
      var i := Seek(versions, prefix);
      while i < |versions| && prefix <= versions[i].key
        invariant Seek(versions, prefix) <= i <= |versions| && 0 <= max
        invariant Bounds(max, versions, Seek(versions, prefix), i)
        invariant Attained(VersionView(Contents(versions), user), max)
      {
        ScannedVersionIsTheUsers(versions, user, i);
        var ver := BytesToInt64(versions[i].val);
        BoundsGrow(max, if ver > max then ver else max, versions, Seek(versions, prefix), i);
        if ver > max {
          max := ver;
        }
        i := i + 1;
      }
      ScanFindsTheWatermark(versions, user, i, max);
    }
  }
}
