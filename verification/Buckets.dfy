/** A bucket of the embedded store: records in strictly ascending key order,
    read by key or by a cursor that seeks and then advances. */
module Buckets {
  import opened Wrappers
  import opened ByteStrings

  datatype Record = Record(key: Bytes, val: Bytes)

  type Bucket = seq<Record>
  type User = Bytes
  type Id = Bytes

  /** The finite map a bucket stands for. */
  ghost function Contents(b: Bucket): map<Bytes, Bytes> {
    if b == [] then map[] else Contents(b[1..])[b[0].key := b[0].val]
  }

  ghost predicate Sorted(b: Bucket) {
    b != [] ==> (forall k | k in Contents(b[1..]) :: Less(b[0].key, k)) && Sorted(b[1..])
  }

  function Find(b: Bucket, k: Bytes): Option<Bytes> {
    if b == [] then None
    else if b[0].key == k then Some(b[0].val)
    else Find(b[1..], k)
  }

  function Insert(b: Bucket, k: Bytes, v: Bytes): Bucket {
    if b == [] || Less(k, b[0].key) then [Record(k, v)] + b
    else if b[0].key == k then [Record(k, v)] + b[1..]
    else [b[0]] + Insert(b[1..], k, v)
  }

  function Remove(b: Bucket, k: Bytes): Bucket {
    if b == [] then []
    else if b[0].key == k then b[1..]
    else [b[0]] + Remove(b[1..], k)
  }

  /** The position a cursor reaches by seeking: the first key not below `p`. */
  function Seek(b: Bucket, p: Bytes): (i: nat)
    ensures i <= |b|
    ensures forall j | 0 <= j < i :: Less(b[j].key, p)
    ensures i < |b| ==> !Less(b[i].key, p)
  {
    if b == [] || !Less(b[0].key, p) then 0 else 1 + Seek(b[1..], p)
  }

  lemma {:induction false} KeyAt(b: Bucket, i: nat)
    requires i < |b|
    ensures b[i].key in Contents(b)
  {
    if i > 0 {
      KeyAt(b[1..], i - 1);
    }
  }

  lemma {:induction false} PositionOf(b: Bucket, k: Bytes) returns (i: nat)
    requires k in Contents(b)
    ensures i < |b| && b[i].key == k
  {
    if b[0].key == k {
      i := 0;
    } else {
      i := PositionOf(b[1..], k);
      i := i + 1;
    }
  }

  lemma {:induction false} SortedAt(b: Bucket, i: nat, j: nat)
    requires Sorted(b) && i < j < |b|
    ensures Less(b[i].key, b[j].key)
  {
    if i == 0 {
      KeyAt(b[1..], j - 1);
    } else {
      SortedAt(b[1..], i - 1, j - 1);
    }
  }

  lemma {:induction false} ContentsAt(b: Bucket, i: nat)
    requires Sorted(b) && i < |b|
    ensures b[i].key in Contents(b) && Contents(b)[b[i].key] == b[i].val
  {
    if i > 0 {
      ContentsAt(b[1..], i - 1);
      LessIsAsymmetric(b[0].key, b[i].key);
    }
  }

  lemma {:induction false} FindReadsContents(b: Bucket, k: Bytes)
    requires Sorted(b)
    ensures Find(b, k) == if k in Contents(b) then Some(Contents(b)[k]) else None
  {
    if b != [] {
      FindReadsContents(b[1..], k);
    }
  }

  lemma {:induction false} InsertUpdatesContents(b: Bucket, k: Bytes, v: Bytes)
    requires Sorted(b)
    ensures Sorted(Insert(b, k, v))
    ensures Contents(Insert(b, k, v)) == Contents(b)[k := v]
  {
    var c := Insert(b, k, v);
    if b == [] || Less(k, b[0].key) {
      assert c[1..] == b;
      forall x | x in Contents(b) ensures Less(k, x) {
        if x != b[0].key { LessIsTransitive(k, b[0].key, x); }
      }
    } else if b[0].key == k {
      assert c[1..] == b[1..];
    } else {
      InsertUpdatesContents(b[1..], k, v);
      LessIsTotal(k, b[0].key);
      assert c[1..] == Insert(b[1..], k, v);
    }
  }

  lemma {:induction false} RemoveUpdatesContents(b: Bucket, k: Bytes)
    requires Sorted(b)
    ensures Sorted(Remove(b, k))
    ensures Contents(Remove(b, k)) == Contents(b) - {k}
  {
    if b == [] {
    } else if b[0].key == k {
      if k in Contents(b[1..]) {
        LessIsAsymmetric(k, k);
      }
    } else {
      RemoveUpdatesContents(b[1..], k);
      assert Remove(b, k)[1..] == Remove(b[1..], k);
    }
  }

  /** Once a cursor that sought `p` leaves the keys with prefix `p`, none follow. */
  lemma NoneFollow(b: Bucket, p: Bytes, i: nat)
    requires Sorted(b) && Seek(b, p) <= i < |b| && !(p <= b[i].key)
    ensures forall j | i <= j < |b| :: !(p <= b[j].key)
  {
    var s := Seek(b, p);
    if s < i {
      SortedAt(b, s, i);
      if Less(b[i].key, p) {
        LessIsTransitive(b[s].key, b[i].key, p);
      }
    }
    forall j | i < j < |b| ensures !(p <= b[j].key) {
      if p <= b[j].key {
        SortedAt(b, i, j);
        PrefixIsConvex(p, b[i].key, b[j].key);
      }
    }
  }

  /** The keys a cursor loop visits from position `i` while they have prefix `p`. */
  function Scan(b: Bucket, p: Bytes, i: nat): (ks: seq<Bytes>)
    requires i <= |b|
    ensures forall k | k in ks :: p <= k
    decreases |b| - i
  {
    if i < |b| && p <= b[i].key then [b[i].key] + Scan(b, p, i + 1) else []
  }

  /** What the loop yields from position `i` is the run of records that keep the prefix. */
  lemma {:induction false} ScanFrom(b: Bucket, p: Bytes, i: nat) returns (e: nat)
    requires i <= |b|
    ensures i <= e <= |b| && |Scan(b, p, i)| == e - i
    ensures forall j | i <= j < e :: Scan(b, p, i)[j - i] == b[j].key
    ensures e < |b| ==> !(p <= b[e].key)
    decreases |b| - i
  {
    e := i;
    if i < |b| && p <= b[i].key {
      e := ScanFrom(b, p, i + 1);
      forall j | i <= j < e ensures Scan(b, p, i)[j - i] == b[j].key {
        if i < j { assert Scan(b, p, i)[j - i] == Scan(b, p, i + 1)[j - (i + 1)]; }
      }
    }
  }

  lemma ScanIsComplete(b: Bucket, p: Bytes, k: Bytes)
    requires Sorted(b) && k in Contents(b) && p <= k
    ensures k in Scan(b, p, Seek(b, p))
  {
    var s := Seek(b, p);
    var e := ScanFrom(b, p, s);
    var j := PositionOf(b, k);
    if j < s { PrefixIsNotAbove(p, k); }
    if e <= j { NoneFollow(b, p, e); }
    assert Scan(b, p, s)[j - s] == k;
  }

  lemma ScanIsAscending(b: Bucket, p: Bytes, i: nat)
    requires Sorted(b) && i <= |b|
    ensures var ks := Scan(b, p, i);
      && (forall k | k in ks :: k in Contents(b))
      && (forall x, y | 0 <= x < y < |ks| :: Less(ks[x], ks[y]))
  {
    var ks := Scan(b, p, i);
    var e := ScanFrom(b, p, i);
    forall x | 0 <= x < |ks| ensures ks[x] == b[i + x].key && ks[x] in Contents(b) {
      assert ks[i + x - i] == b[i + x].key;
      KeyAt(b, i + x);
    }
    forall x, y | 0 <= x < y < |ks| ensures Less(ks[x], ks[y]) {
      SortedAt(b, i + x, i + y);
    }
  }

  /** Seek-then-advance-while-prefix visits every key with the prefix, once and
      in order, and nothing else. */
  lemma ScanIsExact(b: Bucket, p: Bytes)
    requires Sorted(b)
    ensures var ks := Scan(b, p, Seek(b, p));
      && (forall k :: k in ks <==> k in Contents(b) && p <= k)
      && (forall x, y | 0 <= x < y < |ks| :: Less(ks[x], ks[y]))
  {
    ScanIsAscending(b, p, Seek(b, p));
    forall k | k in Contents(b) && p <= k ensures k in Scan(b, p, Seek(b, p)) {
      ScanIsComplete(b, p, k);
    }
  }

  // ---------- user namespaces inside one bucket ----------

  function Prefix(user: User): Bytes {
    user + [COLON]
  }

  function Key(user: User, id: Id): Bytes {
    user + [COLON] + id
  }

  lemma KeyHasPrefix(user: User, id: Id)
    ensures Prefix(user) <= Key(user, id)
    ensures Key(user, id)[|user| + 1..] == id
  {
  }

  lemma PrefixedIsKey(user: User, k: Bytes)
    requires Prefix(user) <= k
    ensures Key(user, k[|user| + 1..]) == k
  {
  }

  ghost predicate AreIds(ids: set<Id>, m: map<Bytes, Bytes>, user: User) {
    forall id :: id in ids <==> Key(user, id) in m
  }

  lemma IdsExist(m: map<Bytes, Bytes>, user: User)
    ensures exists ids :: AreIds(ids, m, user)
  {
    var ids: set<Id> := set k | k in m && Prefix(user) <= k :: k[|user| + 1..];
    forall id ensures id in ids <==> Key(user, id) in m {
      KeyHasPrefix(user, id);
      if id in ids {
        var k :| k in m && Prefix(user) <= k && k[|user| + 1..] == id;
        PrefixedIsKey(user, k);
      }
    }
    assert AreIds(ids, m, user);
  }

  ghost function Ids(m: map<Bytes, Bytes>, user: User): (ids: set<Id>)
    ensures AreIds(ids, m, user)
  {
    IdsExist(m, user);
    var ids :| AreIds(ids, m, user);
    ids
  }

  /** What one user sees of a bucket. */
  ghost function UserView(m: map<Bytes, Bytes>, user: User): (v: map<Id, Bytes>)
    ensures forall id :: id in v <==> Key(user, id) in m
    ensures forall id | id in v :: v[id] == m[Key(user, id)]
  {
    map id | id in Ids(m, user) :: m[Key(user, id)]
  }

  /** Neither user's key prefix begins with the other's. */
  predicate Separate(u: User, v: User) {
    !(Prefix(u) <= Prefix(v)) && !(Prefix(v) <= Prefix(u))
  }

  lemma SameKeyNestsPrefixes(u: User, i: Id, v: User, j: Id)
    requires Key(u, i) == Key(v, j) && |u| <= |v|
    ensures Prefix(u) <= Prefix(v)
  {
    var k := Key(u, i);
    KeyHasPrefix(u, i);
    KeyHasPrefix(v, j);
    assert Prefix(u) == k[..|u| + 1] == k[..|v| + 1][..|u| + 1];
  }

  lemma NestedPrefixesShareAKey(u: User, v: User)
    requires Prefix(u) <= Prefix(v)
    ensures exists i :: Key(u, i) == Key(v, [])
  {
    PrefixedIsKey(u, Prefix(v));
    assert Key(v, []) == Prefix(v);
    assert Key(u, Prefix(v)[|u| + 1..]) == Key(v, []);
  }

  /** Two users' keys can coincide exactly when they are not separate. */
  lemma KeysCollideIff(u: User, v: User)
    ensures Separate(u, v) <==> forall i, j :: Key(u, i) != Key(v, j)
  {
    forall i, j | Key(u, i) == Key(v, j) ensures !Separate(u, v) {
      if |u| <= |v| {
        SameKeyNestsPrefixes(u, i, v, j);
      } else {
        SameKeyNestsPrefixes(v, j, u, i);
      }
    }
    if Prefix(u) <= Prefix(v) {
      NestedPrefixesShareAKey(u, v);
    } else if Prefix(v) <= Prefix(u) {
      NestedPrefixesShareAKey(v, u);
    }
  }

  lemma NestedPrefixesShowAColon(u: User, v: User)
    requires Prefix(u) <= Prefix(v)
    ensures u == v || COLON in v
  {
    assert u == Prefix(v)[..|u|] == v[..|u|];
    if |u| < |v| {
      assert v[|u|] == Prefix(v)[|u|] == Prefix(u)[|u|] == COLON;
    }
  }

  /** User names without a colon never share a key unless they are the same. */
  lemma ColonFreeUsersAreSeparate(u: User, v: User)
    requires COLON !in u && COLON !in v && u != v
    ensures Separate(u, v)
  {
    if Prefix(u) <= Prefix(v) {
      NestedPrefixesShowAColon(u, v);
      assert false;
    }
    if Prefix(v) <= Prefix(u) {
      NestedPrefixesShowAColon(v, u);
      assert false;
    }
  }

  lemma KeyIsInjective(user: User, i: Id, j: Id)
    ensures Key(user, i) == Key(user, j) <==> i == j
  {
    KeyHasPrefix(user, i);
    KeyHasPrefix(user, j);
  }

  lemma PutUpdatesView(m: map<Bytes, Bytes>, user: User, id: Id, val: Bytes)
    ensures UserView(m[Key(user, id) := val], user) == UserView(m, user)[id := val]
  {
    var k := Key(user, id);
    var v, w := UserView(m[k := val], user), UserView(m, user)[id := val];
    forall i ensures (i in v <==> i in w) && (i in v ==> v[i] == w[i]) {
      KeyIsInjective(user, i, id);
    }
  }

  lemma RemoveUpdatesView(m: map<Bytes, Bytes>, user: User, id: Id)
    ensures UserView(m - {Key(user, id)}, user) == UserView(m, user) - {id}
  {
    var k := Key(user, id);
    var v, w := UserView(m - {k}, user), UserView(m, user) - {id};
    forall i ensures (i in v <==> i in w) && (i in v ==> v[i] == w[i]) {
      KeyIsInjective(user, i, id);
    }
  }

  /** A change under one user's key is invisible to every separate user. */
  lemma OtherViewsKeep(m: map<Bytes, Bytes>, n: map<Bytes, Bytes>, user: User, id: Id, other: User)
    requires Separate(user, other)
    requires m - {Key(user, id)} == n - {Key(user, id)}
    ensures UserView(m, other) == UserView(n, other)
  {
    KeysCollideIff(user, other);
    var v, w := UserView(m, other), UserView(n, other);
    forall i ensures (i in v <==> i in w) && (i in v ==> v[i] == w[i]) {
      var k := Key(other, i);
      assert k != Key(user, id);
      assert k in m <==> k in m - {Key(user, id)};
      assert k in n <==> k in n - {Key(user, id)};
    }
  }

  // ---------- whole runs of bucket operations ----------

  datatype Op = Put(user: User, id: Id, val: Bytes) | Delete(user: User, id: Id)

  function RunFlat(b: Bucket, ops: seq<Op>): Bucket {
    if ops == [] then b else
      var c := RunFlat(b, ops[..|ops| - 1]);
      match ops[|ops| - 1]
      case Put(u, id, val) => Insert(c, Key(u, id), val)
      case Delete(u, id) => Remove(c, Key(u, id))
  }

  /** The same operations on a map from (user, id) pairs. */
  function RunPairs(m: map<(User, Id), Bytes>, ops: seq<Op>): map<(User, Id), Bytes> {
    if ops == [] then m else
      var c := RunPairs(m, ops[..|ops| - 1]);
      match ops[|ops| - 1]
      case Put(u, id, val) => c[(u, id) := val]
      case Delete(u, id) => c - {(u, id)}
  }

  lemma ColonFreeKeysAreInjective(u: User, i: Id, v: User, j: Id)
    requires COLON !in u && COLON !in v
    ensures Key(u, i) == Key(v, j) <==> u == v && i == j
  {
    if u == v {
      KeyHasPrefix(u, i);
      KeyHasPrefix(v, j);
    } else {
      ColonFreeUsersAreSeparate(u, v);
      KeysCollideIff(u, v);
    }
  }

  /** For users without ':', any sequence of store operations on concatenated
      keys reads back like the same sequence on a map of (user, id) pairs. */
  lemma {:induction false} FlatKeysRefinePairs(b: Bucket, m: map<(User, Id), Bytes>, ops: seq<Op>, u: User, id: Id)
    requires Sorted(b) && COLON !in u
    requires forall op | op in ops :: COLON !in op.user
    requires Find(b, Key(u, id)) == if (u, id) in m then Some(m[(u, id)]) else None
    ensures Sorted(RunFlat(b, ops))
    ensures var n := RunPairs(m, ops);
      Find(RunFlat(b, ops), Key(u, id)) == if (u, id) in n then Some(n[(u, id)]) else None
  {
    if ops != [] {
      var front, op := ops[..|ops| - 1], ops[|ops| - 1];
      FlatKeysRefinePairs(b, m, front, u, id);
      var c := RunFlat(b, front);
      var k := Key(op.user, op.id);
      FindReadsContents(c, Key(u, id));
      ColonFreeKeysAreInjective(u, id, op.user, op.id);
      match op {
        case Put(_, _, val) =>
          InsertUpdatesContents(c, k, val);
          FindReadsContents(Insert(c, k, val), Key(u, id));
        case Delete(_, _) =>
          RemoveUpdatesContents(c, k);
          FindReadsContents(Remove(c, k), Key(u, id));
      }
    }
  }
}
