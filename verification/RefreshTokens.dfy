/** Refresh tokens: a table with a uniqueness constraint, a clock whose seconds
    show in the tokens, and rotation in a transaction. Signing and hashing are
    injective. */
module RefreshTokens {
  import opened RateLimiting

  type User = string

  // times are in nanoseconds
  const SECOND: int := 1_000_000_000
  const HOUR: int := 3600 * SECOND

  /** The claims of a token; exp and iat are whole seconds (sections 4.1.4 and
      4.1.6 of RFC 7519). */
  datatype Claims = Claims(sub: User, exp: int, iat: int)

  /** A signed token, or any other text a caller may present. */
  datatype Token = Signed(claims: Claims) | Foreign(text: string)

  datatype Digest = Digest(token: Token)

  datatype TokenRow = TokenRow(user: User, expiresAt: int)

  /** Rows by token hash, which is unique. */
  type Tokens = map<Digest, TokenRow>

  /** The clock readings of one call, in the order it takes them. */
  datatype Reads = Reads(allow: int, select: int, exp: int, iat: int, store: int)

  predicate Orderly(r: Reads) {
    r.allow <= r.select <= r.exp <= r.iat <= r.store
  }

  /** Where the database fails a call, if it does. With `AckLost` the write (for
      a rotation, the commit) has happened and only its acknowledgement is lost. */
  datatype DbFault = NoFault | AtSelect | AtWrite | AckLost

  /** What a call answers; `NoToken` stands for the answer to a registration. */
  datatype Reply = Ok(token: Token) | ResourceExhausted | Unauthenticated | Internal | NoToken

  function Issue(user: User, ttl: int, r: Reads): Token {
    Signed(Claims(user, (r.exp + ttl) / SECOND, r.iat / SECOND))
  }

  function Inserted(ts: Tokens, user: User, ttl: int, r: Reads): Tokens {
    ts[Digest(Issue(user, ttl, r)) := TokenRow(user, r.store + 72 * HOUR)]
  }

  /** One login: the table after it and the reply. */
  function LoggedIn(users: map<string, User>, ts: Tokens, login: string, allowed: bool, ttl: int, r: Reads,
                    fault: DbFault): (Tokens, Reply)
  {
    if !allowed then (ts, ResourceExhausted)
    else if login !in users || fault == AtSelect then (ts, Unauthenticated)
    else
      var token := Issue(users[login], ttl, r);
      if Digest(token) in ts || fault == AtWrite then (ts, Internal)
      else (Inserted(ts, users[login], ttl, r), if fault == AckLost then Internal else Ok(token))
  }

  predicate Redeemable(ts: Tokens, token: Token, now: int) {
    Digest(token) in ts && ts[Digest(token)].expiresAt > now
  }

  /** One rotation: the table after it and the reply. */
  function Rotated(ts: Tokens, token: Token, ttl: int, r: Reads, fault: DbFault): (Tokens, Reply) {
    if !Redeemable(ts, token, r.select) || fault == AtSelect then (ts, Unauthenticated)
    else
      var user := ts[Digest(token)].user;
      var rest := ts - {Digest(token)};
      var renewed := Issue(user, ttl, r);
      if Digest(renewed) in rest || fault == AtWrite then (ts, Internal)
      else (Inserted(rest, user, ttl, r), if fault == AckLost then Internal else Ok(renewed))
  }

  class AuthService {
    const limiter: RateLimiter
    const ttl: int
    var users: map<string, User>
    var tokens: Tokens

    constructor (limiter: RateLimiter, ttl: int)
      ensures this.limiter == limiter && this.ttl == ttl && tokens == map[]
    {
      this.limiter := limiter;
      this.ttl := ttl;
      users, tokens := map[], map[];
    }

    /** The insert: a duplicate hash violates the uniqueness constraint. */
    method InsertToken(token: Token, user: User, r: Reads, fault: DbFault) returns (ok: bool)
      modifies this`tokens
      ensures ok <==> Digest(token) !in old(tokens) && fault != AtWrite && fault != AckLost
      ensures tokens ==
        if Digest(token) in old(tokens) || fault == AtWrite then old(tokens)
        else old(tokens)[Digest(token) := TokenRow(user, r.store + 72 * HOUR)]
    {
      if Digest(token) in tokens || fault == AtWrite {
        return false;
      }
      tokens := tokens[Digest(token) := TokenRow(user, r.store + 72 * HOUR)];
      return fault != AckLost;
    }

    method Login(login: string, r: Reads, fault: DbFault) returns (reply: Reply)
      modifies this`tokens, limiter
      ensures var allowed := Ask(limiter.lim, SlotOf(old(limiter.attempts), login), r.allow).1;
        && (tokens, reply) == LoggedIn(users, old(tokens), login, allowed, ttl, r, fault)
        && (!allowed ==> reply == ResourceExhausted && tokens == old(tokens))
      ensures limiter.attempts ==
        old(limiter.attempts)[login := Ask(limiter.lim, SlotOf(old(limiter.attempts), login), r.allow).0]
    {
      var allowed := limiter.Allow(login, r.allow);
      if !allowed {
        return ResourceExhausted;
      }
      if login !in users || fault == AtSelect {
        return Unauthenticated;
      }
      var refresh := Issue(users[login], ttl, r);
      var saved := InsertToken(refresh, users[login], r, fault);
      if !saved {
        return Internal;
      }
      return Ok(refresh);
    }

    /** Rotation in a transaction: the delete is rolled back when the insert
        fails, so a failed rotation leaves the table as it was, unless all that
        failed is the acknowledgement of its commit. */
    method RefreshToken(token: Token, r: Reads, fault: DbFault) returns (reply: Reply)
      modifies this`tokens
      ensures (tokens, reply) == Rotated(old(tokens), token, ttl, r, fault)
      ensures !reply.Ok? && fault != AckLost ==> tokens == old(tokens)
    {
      var oldHash := Digest(token);
      if oldHash !in tokens || tokens[oldHash].expiresAt <= r.select || fault == AtSelect {
        return Unauthenticated;
      }
      var user := tokens[oldHash].user;
      var renewed := Issue(user, ttl, r);
      var begun := tokens;
      tokens := tokens - {oldHash};
      var saved := InsertToken(renewed, user, r, if fault == AckLost then NoFault else fault);
      if !saved {
        tokens := begun;
        return Internal;
      }
      if fault == AckLost {
        return Internal;
      }
      return Ok(renewed);
    }
  }

  // ---------- runs ----------

  datatype Event =
    | Register(login: string, user: User)
    | Login(login: string, allowed: bool, r: Reads, fault: DbFault)
    | Refresh(token: Token, r: Reads, fault: DbFault)

  /** A login and the tokens it has been rotated through, the current one last. */
  datatype Chain = Chain(user: User, tokens: seq<Token>)

  datatype State = State(users: map<string, User>, tokens: Tokens, chains: seq<Chain>)

  function ReplyTo(s: State, ttl: int, e: Event): Reply {
    match e
    case Register(_, _) => NoToken
    case Login(login, allowed, r, fault) => LoggedIn(s.users, s.tokens, login, allowed, ttl, r, fault).1
    case Refresh(token, r, fault) => Rotated(s.tokens, token, ttl, r, fault).1
  }

  /** The call as it would be answered if no acknowledgement were lost. */
  function Sure(e: Event): Event {
    match e
    case Register(_, _) => e
    case Login(login, allowed, r, fault) => Login(login, allowed, r, if fault == AckLost then NoFault else fault)
    case Refresh(token, r, fault) => Refresh(token, r, if fault == AckLost then NoFault else fault)
  }

  /** What a call does to the table: `Ok(token)` when it stores `token`, whether
      or not the caller learns of it. */
  function Effect(s: State, ttl: int, e: Event): Reply {
    ReplyTo(s, ttl, Sure(e))
  }

  function Head(c: Chain): Token {
    if c.tokens == [] then Foreign("") else c.tokens[|c.tokens| - 1]
  }

  /** The first chain whose head is `token` goes on with `renewed`. */
  function Advance(chains: seq<Chain>, token: Token, renewed: Token): (cs: seq<Chain>)
    ensures |cs| == |chains|
  {
    if chains == [] then []
    else if Head(chains[0]) == token then [chains[0].(tokens := chains[0].tokens + [renewed])] + chains[1..]
    else [chains[0]] + Advance(chains[1..], token, renewed)
  }

  function Step(s: State, ttl: int, e: Event): State {
    var effect := Effect(s, ttl, e);
    match e
    case Register(login, user) => if login in s.users then s else s.(users := s.users[login := user])
    case Login(login, allowed, r, fault) =>
      var ts := LoggedIn(s.users, s.tokens, login, allowed, ttl, r, fault).0;
      if effect.Ok? && login in s.users
      then s.(tokens := ts, chains := s.chains + [Chain(s.users[login], [effect.token])])
      else s.(tokens := ts)
    case Refresh(token, r, fault) =>
      var ts := Rotated(s.tokens, token, ttl, r, fault).0;
      if effect.Ok? then s.(tokens := ts, chains := Advance(s.chains, token, effect.token))
      else s.(tokens := ts)
  }

  function Run(s: State, ttl: int, es: seq<Event>): State {
    if es == [] then s else Step(Run(s, ttl, es[..|es| - 1]), ttl, es[|es| - 1])
  }

  /** Logins of a user that took effect during a run. */
  function Logins(s: State, ttl: int, es: seq<Event>, user: User): nat {
    if es == [] then 0 else
      var front, e := es[..|es| - 1], es[|es| - 1];
      var t := Run(s, ttl, front);
      Logins(s, ttl, front, user)
      + if e.Login? && Effect(t, ttl, e).Ok? && e.login in t.users && t.users[e.login] == user then 1 else 0
  }

  // ---------- conservation ----------

  function RowsOf(ts: Tokens, user: User): set<Digest> {
    set d | d in ts && ts[d].user == user
  }

  lemma InsertAddsOne(ts: Tokens, user: User, ttl: int, r: Reads, u: User)
    requires Digest(Issue(user, ttl, r)) !in ts
    ensures |RowsOf(Inserted(ts, user, ttl, r), u)| == |RowsOf(ts, u)| + if u == user then 1 else 0
  {
    var d := Digest(Issue(user, ttl, r));
    assert RowsOf(Inserted(ts, user, ttl, r), u) == RowsOf(ts, u) + if u == user then {d} else {};
  }

  lemma RemoveTakesOne(ts: Tokens, d: Digest, u: User)
    requires d in ts
    ensures |RowsOf(ts, u)| == |RowsOf(ts - {d}, u)| + if u == ts[d].user then 1 else 0
  {
    assert RowsOf(ts, u) == RowsOf(ts - {d}, u) + if u == ts[d].user then {d} else {};
  }

  lemma StepConserves(s: State, ttl: int, e: Event, u: User)
    ensures |RowsOf(Step(s, ttl, e).tokens, u)| == |RowsOf(s.tokens, u)| +
      if e.Login? && Effect(s, ttl, e).Ok? && e.login in s.users && s.users[e.login] == u then 1 else 0
  {
    match e {
      case Register(_, _) =>
      case Login(login, allowed, r, fault) =>
        if Effect(s, ttl, e).Ok? { InsertAddsOne(s.tokens, s.users[login], ttl, r, u); }
      case Refresh(token, r, fault) =>
        if Effect(s, ttl, e).Ok? {
          var d := Digest(token);
          RemoveTakesOne(s.tokens, d, u);
          InsertAddsOne(s.tokens - {d}, s.tokens[d].user, ttl, r, u);
        }
    }
  }

  /** A user's rows are the rows at the start plus that user's logins that took
      effect: rotation never changes the number. */
  lemma {:induction false} RowsCountLogins(s: State, ttl: int, es: seq<Event>, u: User)
    ensures |RowsOf(Run(s, ttl, es).tokens, u)| == |RowsOf(s.tokens, u)| + Logins(s, ttl, es, u)
  {
    if es != [] {
      RowsCountLogins(s, ttl, es[..|es| - 1], u);
      StepConserves(Run(s, ttl, es[..|es| - 1]), ttl, es[|es| - 1], u);
    }
  }

  // ---------- one head per chain ----------

  ghost predicate HeadsAreRows(ts: Tokens, cs: seq<Chain>) {
    forall i | 0 <= i < |cs| ::
      cs[i].tokens != [] && Digest(Head(cs[i])) in ts && ts[Digest(Head(cs[i]))].user == cs[i].user
  }

  ghost predicate RowsAreHeads(ts: Tokens, cs: seq<Chain>) {
    forall d | d in ts :: exists i :: 0 <= i < |cs| && Digest(Head(cs[i])) == d
  }

  ghost predicate HeadsDiffer(cs: seq<Chain>) {
    forall i, j | 0 <= i < j < |cs| :: Head(cs[i]) != Head(cs[j])
  }

  ghost predicate HeadsAreTheTable(ts: Tokens, cs: seq<Chain>) {
    HeadsAreRows(ts, cs) && RowsAreHeads(ts, cs) && HeadsDiffer(cs)
  }

  lemma {:induction false} AdvanceMovesOneHead(chains: seq<Chain>, token: Token, renewed: Token, k: nat)
    requires k < |chains| && Head(chains[k]) == token
    requires forall i | 0 <= i < k :: Head(chains[i]) != token
    ensures Advance(chains, token, renewed) == chains[k := chains[k].(tokens := chains[k].tokens + [renewed])]
  {
    if k > 0 {
      forall i | 0 <= i < k - 1 ensures Head(chains[1..][i]) != token {
        assert chains[1..][i] == chains[i + 1];
      }
      AdvanceMovesOneHead(chains[1..], token, renewed, k - 1);
    }
  }

  lemma NewChainKeepsHeads(ts: Tokens, cs: seq<Chain>, token: Token, row: TokenRow)
    requires HeadsAreTheTable(ts, cs) && Digest(token) !in ts
    ensures HeadsAreTheTable(ts[Digest(token) := row], cs + [Chain(row.user, [token])])
  {
    var us, ds := ts[Digest(token) := row], cs + [Chain(row.user, [token])];
    forall d | d in us ensures exists i :: 0 <= i < |ds| && Digest(Head(ds[i])) == d {
      if d == Digest(token) {
        assert Digest(Head(ds[|cs|])) == d;
      } else {
        var i :| 0 <= i < |cs| && Digest(Head(cs[i])) == d;
        assert ds[i] == cs[i];
      }
    }
  }

  function Moved(ts: Tokens, token: Token, renewed: Token, row: TokenRow): Tokens {
    (ts - {Digest(token)})[Digest(renewed) := row]
  }

  function Extended(cs: seq<Chain>, k: nat, renewed: Token): seq<Chain>
    requires k < |cs|
  {
    cs[k := cs[k].(tokens := cs[k].tokens + [renewed])]
  }

  lemma OtherHeadsStay(ts: Tokens, cs: seq<Chain>, k: nat, renewed: Token)
    requires HeadsAreTheTable(ts, cs) && k < |cs|
    requires Digest(renewed) !in ts - {Digest(Head(cs[k]))}
    ensures forall i | 0 <= i < |cs| && i != k :: Head(cs[i]) != Head(cs[k]) && Head(cs[i]) != renewed
  {
  }

  lemma MovedRowsAreHeads(ts: Tokens, cs: seq<Chain>, k: nat, renewed: Token, row: TokenRow)
    requires RowsAreHeads(ts, cs) && k < |cs|
    ensures RowsAreHeads(Moved(ts, Head(cs[k]), renewed, row), Extended(cs, k, renewed))
  {
    var us, ds := Moved(ts, Head(cs[k]), renewed, row), Extended(cs, k, renewed);
    forall d | d in us ensures exists i :: 0 <= i < |ds| && Digest(Head(ds[i])) == d {
      if d == Digest(renewed) {
        assert Digest(Head(ds[k])) == d;
      } else {
        var i :| 0 <= i < |cs| && Digest(Head(cs[i])) == d;
        assert ds[i] == cs[i];
      }
    }
  }

  lemma MovedHeadsDiffer(ts: Tokens, cs: seq<Chain>, k: nat, renewed: Token)
    requires HeadsAreTheTable(ts, cs) && k < |cs|
    requires Digest(renewed) !in ts - {Digest(Head(cs[k]))}
    ensures HeadsDiffer(Extended(cs, k, renewed))
  {
  }

  lemma MovedHeadsAreRows(ts: Tokens, cs: seq<Chain>, k: nat, renewed: Token, row: TokenRow)
    requires HeadsAreTheTable(ts, cs) && k < |cs| && row.user == cs[k].user
    requires Digest(renewed) !in ts - {Digest(Head(cs[k]))}
    ensures HeadsAreRows(Moved(ts, Head(cs[k]), renewed, row), Extended(cs, k, renewed))
  {
  }

  lemma RotationKeepsHeads(ts: Tokens, cs: seq<Chain>, token: Token, renewed: Token, row: TokenRow)
    requires HeadsAreTheTable(ts, cs) && Digest(token) in ts
    requires Digest(renewed) !in ts - {Digest(token)} && row.user == ts[Digest(token)].user
    ensures HeadsAreTheTable(Moved(ts, token, renewed, row), Advance(cs, token, renewed))
  {
    var k :| 0 <= k < |cs| && Digest(Head(cs[k])) == Digest(token);
    assert ts[Digest(Head(cs[k]))].user == cs[k].user;
    OtherHeadsStay(ts, cs, k, renewed);
    AdvanceMovesOneHead(cs, token, renewed, k);
    MovedHeadsAreRows(ts, cs, k, renewed, row);
    MovedRowsAreHeads(ts, cs, k, renewed, row);
    MovedHeadsDiffer(ts, cs, k, renewed);
  }

  lemma LoginStores(s: State, ttl: int, e: Event, user: User)
    requires e.Login? && Effect(s, ttl, e).Ok? && user == s.users[e.login]
    ensures var token, t := Issue(user, ttl, e.r), Step(s, ttl, e);
      && Digest(token) !in s.tokens
      && t.tokens == s.tokens[Digest(token) := TokenRow(user, e.r.store + 72 * HOUR)]
      && t.chains == s.chains + [Chain(user, [token])]
  {
  }

  lemma RefreshMoves(s: State, ttl: int, e: Event)
    requires e.Refresh? && Effect(s, ttl, e).Ok?
    ensures Digest(e.token) in s.tokens
    ensures var user, t := s.tokens[Digest(e.token)].user, Step(s, ttl, e);
      var renewed := Issue(user, ttl, e.r);
      && Digest(renewed) !in s.tokens - {Digest(e.token)}
      && t.tokens == Moved(s.tokens, e.token, renewed, TokenRow(user, e.r.store + 72 * HOUR))
      && t.chains == Advance(s.chains, e.token, renewed)
  {
  }

  lemma NothingMoves(s: State, ttl: int, e: Event)
    requires !Effect(s, ttl, e).Ok?
    ensures Step(s, ttl, e).tokens == s.tokens && Step(s, ttl, e).chains == s.chains
  {
  }

  lemma StepKeepsHeads(s: State, ttl: int, e: Event)
    requires HeadsAreTheTable(s.tokens, s.chains)
    ensures HeadsAreTheTable(Step(s, ttl, e).tokens, Step(s, ttl, e).chains)
  {
    if !Effect(s, ttl, e).Ok? {
      NothingMoves(s, ttl, e);
    } else if e.Login? {
      var user := s.users[e.login];
      LoginStores(s, ttl, e, user);
      NewChainKeepsHeads(s.tokens, s.chains, Issue(user, ttl, e.r), TokenRow(user, e.r.store + 72 * HOUR));
    } else if e.Refresh? {
      RefreshMoves(s, ttl, e);
      var user := s.tokens[Digest(e.token)].user;
      RotationKeepsHeads(s.tokens, s.chains, e.token, Issue(user, ttl, e.r), TokenRow(user, e.r.store + 72 * HOUR));
    }
  }

  /** In any run from an empty table, the table is exactly the current heads of
      the login chains, one row each and no two alike. */
  lemma {:induction false} EachLoginHasOneHead(users: map<string, User>, ttl: int, es: seq<Event>)
    ensures var s := Run(State(users, map[], []), ttl, es); HeadsAreTheTable(s.tokens, s.chains)
  {
    if es != [] {
      EachLoginHasOneHead(users, ttl, es[..|es| - 1]);
      StepKeepsHeads(Run(State(users, map[], []), ttl, es[..|es| - 1]), ttl, es[|es| - 1]);
    }
  }

  // ---------- single use ----------

  /** The call took its readings in order and none before `now`. */
  ghost predicate NotBefore(e: Event, now: int) {
    !e.Register? ==> Orderly(e.r) && now <= e.r.allow
  }

  /** The call took its readings in order and none after `now`. */
  ghost predicate NotAfter(e: Event, now: int) {
    !e.Register? ==> Orderly(e.r) && e.r.store <= now
  }

  /** Calls one after another on one clock that shows `now` before the first. */
  ghost predicate Paced(es: seq<Event>, now: int) {
    && (forall e | e in es :: NotBefore(e, now))
    && (forall i, j | 0 <= i < j < |es| && !es[i].Register? && !es[j].Register? :: es[i].r.store <= es[j].r.allow)
  }

  /** Every row is for a token of its user, issued at readings no later than `now`. */
  ghost predicate IssuedBy(ts: Tokens, ttl: int, now: int) {
    forall d | d in ts ::
      && d.token.Signed? && d.token.claims.sub == ts[d].user
      && d.token.claims.exp <= (now + ttl) / SECOND && d.token.claims.iat <= now / SECOND
  }

  lemma StepIssuesBy(s: State, ttl: int, e: Event, now: int)
    requires IssuedBy(s.tokens, ttl, now) && NotAfter(e, now)
    ensures IssuedBy(Step(s, ttl, e).tokens, ttl, now)
  {
    if !e.Register? {
      assert (e.r.exp + ttl) / SECOND <= (now + ttl) / SECOND && e.r.iat / SECOND <= now / SECOND;
    }
  }

  lemma {:induction false} RunsIssueBy(users: map<string, User>, ttl: int, es: seq<Event>, now: int)
    requires forall e | e in es :: NotAfter(e, now)
    ensures IssuedBy(Run(State(users, map[], []), ttl, es).tokens, ttl, now)
  {
    if es != [] {
      RunsIssueBy(users, ttl, es[..|es| - 1], now);
      StepIssuesBy(Run(State(users, map[], []), ttl, es[..|es| - 1]), ttl, es[|es| - 1], now);
    }
  }

  /** No rotation with readings from `r` on issues the token again. */
  predicate Outdated(token: Token, ttl: int, r: Reads) {
    token.Signed? ==> token.claims.exp < (r.exp + ttl) / SECOND || token.claims.iat < r.iat / SECOND
  }

  /** An outdated token that is not in the table never comes back. */
  lemma {:induction false} OldTokensStayOut(s: State, ttl: int, es: seq<Event>, token: Token, r: Reads)
    requires Digest(token) !in s.tokens && Outdated(token, ttl, r) && Orderly(r)
    requires forall e | e in es :: NotBefore(e, r.store)
    ensures Digest(token) !in Run(s, ttl, es).tokens
  {
    if es != [] {
      OldTokensStayOut(s, ttl, es[..|es| - 1], token, r);
      var e := es[|es| - 1];
      assert NotBefore(e, r.store);
      if !e.Register? {
        assert (r.exp + ttl) / SECOND <= (e.r.exp + ttl) / SECOND && r.iat / SECOND <= e.r.iat / SECOND;
      }
    }
  }

  /** From any state: an outdated token, once redeemed, is never accepted again,
      whatever calls follow. */
  lemma RedeemedOnce(s: State, ttl: int, token: Token, r: Reads, fault: DbFault, es: seq<Event>, again: Reads,
                     late: DbFault)
    requires Effect(s, ttl, Refresh(token, r, fault)).Ok?
    requires Orderly(r) && Outdated(token, ttl, r)
    requires forall e | e in es :: NotBefore(e, r.store)
    ensures var t := Run(Step(s, ttl, Refresh(token, r, fault)), ttl, es);
      ReplyTo(t, ttl, Refresh(token, again, late)) == Unauthenticated
  {
    OldTokensStayOut(Step(s, ttl, Refresh(token, r, fault)), ttl, es, token, r);
  }

  /** No later call accepts the token, whatever calls come between. */
  ghost predicate NeverAgain(s: State, ttl: int, token: Token, now: int) {
    forall es: seq<Event>, r: Reads, fault: DbFault | Paced(es + [Refresh(token, r, fault)], now) ::
      ReplyTo(Run(s, ttl, es), ttl, Refresh(token, r, fault)) == Unauthenticated
  }

  /** Some later call redeems the token. */
  ghost predicate AcceptedLater(s: State, ttl: int, token: Token, now: int) {
    exists es: seq<Event>, r: Reads, fault: DbFault ::
      && Paced(es + [Refresh(token, r, fault)], now)
      && ReplyTo(Run(s, ttl, es), ttl, Refresh(token, r, fault)).Ok?
  }

  /** A second after everything in the table was issued, a token whose row has
      not expired is redeemed. */
  lemma FreshRotationSucceeds(s: State, ttl: int, token: Token, now: int)
    requires IssuedBy(s.tokens, ttl, now) && Redeemable(s.tokens, token, now + SECOND)
    ensures AcceptedLater(s, ttl, token, now)
  {
    var later := now + SECOND;
    var e := Refresh(token, Reads(later, later, later, later, later), NoFault);
    assert later / SECOND == now / SECOND + 1;
    assert Paced([] + [e], now);
    assert ReplyTo(Run(s, ttl, []), ttl, e).Ok?;
  }

  lemma RotationIsIssuedBy(ts: Tokens, token: Token, ttl: int, r: Reads, fault: DbFault)
    requires IssuedBy(ts, ttl, r.allow) && Orderly(r)
    ensures IssuedBy(Rotated(ts, token, ttl, r, fault).0, ttl, r.store)
  {
    assert (r.allow + ttl) / SECOND <= (r.store + ttl) / SECOND && (r.exp + ttl) / SECOND <= (r.store + ttl) / SECOND;
    assert r.allow / SECOND <= r.iat / SECOND <= r.store / SECOND;
  }

  lemma ReissuedIsTheToken(ts: Tokens, token: Token, ttl: int, r: Reads)
    requires IssuedBy(ts, ttl, r.allow) && Orderly(r) && Digest(token) in ts && !Outdated(token, ttl, r)
    ensures token == Issue(ts[Digest(token)].user, ttl, r)
  {
    assert (r.allow + ttl) / SECOND <= (r.exp + ttl) / SECOND && r.allow / SECOND <= r.iat / SECOND;
  }

  /** When single use holds. In any run from the empty table on one clock, a token
      whose rotation takes effect is refused by every later call if and only if
      its exp or its iat lies in an earlier second than the rotation reads for
      its own; otherwise the rotation stores the same token again, and some later
      call redeems it a second time. */
  lemma SingleUseIff(users: map<string, User>, ttl: int, es: seq<Event>, token: Token, r: Reads, fault: DbFault,
                     now: int)
    requires Paced(es + [Refresh(token, r, fault)], now)
    requires Effect(Run(State(users, map[], []), ttl, es), ttl, Refresh(token, r, fault)).Ok?
    ensures var s := Run(State(users, map[], []), ttl, es);
      && token.Signed?
      && var t := Step(s, ttl, Refresh(token, r, fault));
         var older := token.claims.exp < (r.exp + ttl) / SECOND || token.claims.iat < r.iat / SECOND;
         && (NeverAgain(t, ttl, token, r.store) <==> older)
         && (AcceptedLater(t, ttl, token, r.store) <==> !older)
  {
    var s, all := Run(State(users, map[], []), ttl, es), es + [Refresh(token, r, fault)];
    var t := Step(s, ttl, Refresh(token, r, fault));
    assert all[|es|] in all && NotBefore(all[|es|], now);
    forall e | e in es ensures NotAfter(e, r.allow) {
      var i :| 0 <= i < |es| && es[i] == e;
      assert all[i] == e && all[i] in all && NotBefore(e, now);
    }
    RunsIssueBy(users, ttl, es, r.allow);
    if Outdated(token, ttl, r) {
      forall more: seq<Event>, again: Reads, late: DbFault | Paced(more + [Refresh(token, again, late)], r.store)
        ensures ReplyTo(Run(t, ttl, more), ttl, Refresh(token, again, late)) == Unauthenticated
      {
        assert forall e | e in more :: e in more + [Refresh(token, again, late)];
        RedeemedOnce(s, ttl, token, r, fault, more, again, late);
      }
    } else {
      ReissuedIsTheToken(s.tokens, token, ttl, r);
      RotationIsIssuedBy(s.tokens, token, ttl, r, fault);
      FreshRotationSucceeds(t, ttl, token, r.store);
    }
  }

  /** It does fail: a token issued, and redeemed within the same second, is
      accepted again. */
  lemma SameSecondIsAcceptedTwice(ttl: int)
    ensures var r := Reads(0, 0, 0, 0, 0);
      var s := Run(State(map[], map[], []), ttl, [Register("ann", "u"), Login("ann", true, r, NoFault)]);
      var token := Issue("u", ttl, r);
      var e := Refresh(token, r, NoFault);
      && ReplyTo(s, ttl, e) == Ok(token)
      && ReplyTo(Step(s, ttl, e), ttl, e) == Ok(token)
  {
    var r := Reads(0, 0, 0, 0, 0);
    var start, one, two := State(map[], map[], []), Register("ann", "u"), Login("ann", true, r, NoFault);
    assert [one, two][..1] == [one] && [one][..0] == [];
    assert Run(start, ttl, [one]) == Step(start, ttl, one);
    assert Run(start, ttl, [one, two]) == Step(Step(start, ttl, one), ttl, two);
  }

  // ---------- what is accepted, and for how long ----------

  /** Some call of the run redeems the token. */
  predicate Redeemed(s: State, ttl: int, es: seq<Event>, token: Token) {
    es != []
    && var front, e := es[..|es| - 1], es[|es| - 1];
       Redeemed(s, ttl, front, token)
       || (e.Refresh? && e.token == token && Effect(Run(s, ttl, front), ttl, e).Ok?)
  }

  lemma RowKept(s: State, ttl: int, e: Event, token: Token)
    requires Digest(token) in s.tokens
    requires !(e.Refresh? && e.token == token && Effect(s, ttl, e).Ok?)
    ensures var ts := Step(s, ttl, e).tokens; Digest(token) in ts && ts[Digest(token)] == s.tokens[Digest(token)]
  {
  }

  /** Until it is redeemed, nothing touches a token's row. */
  lemma {:induction false} RowStays(s: State, ttl: int, es: seq<Event>, token: Token)
    requires Digest(token) in s.tokens && !Redeemed(s, ttl, es, token)
    ensures var ts := Run(s, ttl, es).tokens; Digest(token) in ts && ts[Digest(token)] == s.tokens[Digest(token)]
  {
    if es != [] {
      RowStays(s, ttl, es[..|es| - 1], token);
      RowKept(Run(s, ttl, es[..|es| - 1]), ttl, es[|es| - 1], token);
    }
  }

  /** A token that a login or a rotation has stored is accepted, as long as no
      call redeems it, until 72 hours after it was stored, and not from then on,
      however many calls go between and whatever the clock shows them: its refresh
      is refused exactly from then on, and succeeds exactly when, besides, the
      token it is to be renewed by is not another live row. */
  lemma IssuedIsRedeemable(s: State, ttl: int, e: Event, es: seq<Event>, r: Reads)
    requires Effect(s, ttl, e).Ok?
    requires !Redeemed(Step(s, ttl, e), ttl, es, Effect(s, ttl, e).token)
    ensures Effect(s, ttl, e).token.Signed?
    ensures var token, t := Effect(s, ttl, e).token, Run(Step(s, ttl, e), ttl, es);
      var renewed := Signed(Claims(token.claims.sub, (r.exp + ttl) / SECOND, r.iat / SECOND));
      var reply := ReplyTo(t, ttl, Refresh(token, r, NoFault));
      && (Redeemable(t.tokens, token, r.select) <==> r.select < e.r.store + 72 * HOUR)
      && (reply == Unauthenticated <==> e.r.store + 72 * HOUR <= r.select)
      && (reply.Ok? <==> r.select < e.r.store + 72 * HOUR && Digest(renewed) !in t.tokens - {Digest(token)})
      && (reply.Ok? ==> reply.token == renewed)
  {
    RowStays(Step(s, ttl, e), ttl, es, Effect(s, ttl, e).token);
  }

  // ---------- what a login answers ----------

  /** A login the limiter refuses is answered so and changes nothing; an unknown
      name is refused; any other login succeeds exactly when the database does not
      fail and its token is fresh, and then stores that token for its user. */
  lemma LoginAnswers(s: State, ttl: int, login: string, allowed: bool, r: Reads, fault: DbFault)
    ensures var e := Login(login, allowed, r, fault);
      var reply, t := ReplyTo(s, ttl, e), Step(s, ttl, e);
      && (!allowed ==> reply == ResourceExhausted && t == s)
      && (allowed && login !in s.users ==> reply == Unauthenticated && t == s)
      && (allowed && login in s.users ==>
            var token := Signed(Claims(s.users[login], (r.exp + ttl) / SECOND, r.iat / SECOND));
            && (reply.Ok? <==> fault == NoFault && Digest(token) !in s.tokens)
            && (fault == AtSelect ==> reply == Unauthenticated)
            && (fault != AtSelect && !reply.Ok? ==> reply == Internal)
            && (reply.Ok? ==> reply.token == token)
            && (reply.Ok? ==> t.tokens == s.tokens[Digest(token) := TokenRow(s.users[login], r.store + 72 * HOUR)]))
  {
  }

  /** Whatever the call: a database fault never lets it succeed, and a call that
      fails changes the table only if all that was lost is an acknowledgement. */
  lemma FailuresChangeNothing(s: State, ttl: int, e: Event)
    requires e.Login? || e.Refresh?
    ensures e.fault != NoFault ==> !ReplyTo(s, ttl, e).Ok?
    ensures e.fault == AtSelect && ReplyTo(s, ttl, e) != ResourceExhausted ==> ReplyTo(s, ttl, e) == Unauthenticated
    ensures !ReplyTo(s, ttl, e).Ok? && e.fault != AckLost ==> Step(s, ttl, e) == s
    ensures e.Refresh? && e.fault != AtSelect && Redeemable(s.tokens, e.token, e.r.select) ==>
      ReplyTo(s, ttl, e).Ok? || ReplyTo(s, ttl, e) == Internal
  {
  }

  /** A registered name keeps its user through any run, and a new one gets its own. */
  lemma {:induction false} NamesAreKept(s: State, ttl: int, es: seq<Event>, login: string, user: User)
    requires login in s.users
    ensures var t := Run(s, ttl, es); login in t.users && t.users[login] == s.users[login]
    ensures var u := Step(Run(s, ttl, es), ttl, Register(login, user)); u == Run(s, ttl, es)
  {
    if es != [] { NamesAreKept(s, ttl, es[..|es| - 1], login, user); }
  }

  // ---------- logins behind the limiter ----------

  /** What the limiter is asked during a run. */
  function Asked(es: seq<Event>): seq<RateLimiting.Event> {
    if es == [] then [] else
      var e := es[|es| - 1];
      Asked(es[..|es| - 1]) + if e.Login? then [Call(e.login, e.r.allow)] else []
  }

  /** The limiter's own history at a login: what it was asked, with any sweeps between. */
  ghost predicate History(h: seq<RateLimiting.Event>, asked: seq<RateLimiting.Event>, login: string, now: int) {
    Calls(h) == asked && InOrder(h + [Call(login, now)])
  }

  ghost predicate AnsweredBy(lim: Limit, h: seq<RateLimiting.Event>, e: Event)
    requires e.Login?
  {
    e.allowed == Answer(lim, RateLimiting.Run(lim, map[], h), e.login, e.r.allow)
  }

  /** Every login of the run was answered by the limiter. */
  ghost predicate Gated(lim: Limit, es: seq<Event>) {
    es != [] ==>
      && var front, e := es[..|es| - 1], es[|es| - 1];
      && Gated(lim, front)
      && (e.Login? ==> exists h :: History(h, Asked(front), e.login, e.r.allow) && AnsweredBy(lim, h, e))
  }

  /** Logins under one name, let in at times in [a, b], that took effect. */
  function LoginsWithin(s: State, ttl: int, es: seq<Event>, login: string, a: int, b: int): nat {
    if es == [] then 0 else
      var front, e := es[..|es| - 1], es[|es| - 1];
      LoginsWithin(s, ttl, front, login, a, b)
      + if e.Login? && e.login == login && a <= e.r.allow <= b && Effect(Run(s, ttl, front), ttl, e).Ok? then 1 else 0
  }

  lemma GateAnswers(lim: Limit, es: seq<Event>)
    requires es != [] && Gated(lim, es) && es[|es| - 1].Login?
    ensures var front, e := es[..|es| - 1], es[|es| - 1];
      AnsweredBy(lim, Asked(front), e)
  {
    var front, e := es[..|es| - 1], es[|es| - 1];
    var h :| History(h, Asked(front), e.login, e.r.allow) && AnsweredBy(lim, h, e);
    SweepsAreInvisible(lim, map[], h, e.login, e.r.allow);
  }

  lemma {:induction false} LoginsWereAdmitted(lim: Limit, s: State, ttl: int, es: seq<Event>, login: string,
                                              a: int, b: int)
    requires Gated(lim, es)
    ensures LoginsWithin(s, ttl, es, login, a, b) <= CountRun(lim, Asked(es), login, a, b)
  {
    if es != [] {
      var front, e := es[..|es| - 1], es[|es| - 1];
      LoginsWereAdmitted(lim, s, ttl, front, login, a, b);
      if e.Login? {
        GateAnswers(lim, es);
        LoginAnswers(Run(s, ttl, front), ttl, e.login, e.allowed, e.r, Sure(e).fault);
        assert Asked(es)[..|Asked(es)| - 1] == Asked(front);
      } else {
        assert Asked(es) == Asked(front);
      }
    }
  }

  lemma {:induction false} AskedInOrder(es: seq<Event>, now: int, last: int)
    requires Paced(es, now) && forall e | e in es :: NotAfter(e, last)
    ensures InOrder(Asked(es)) && forall i | 0 <= i < |Asked(es)| :: Asked(es)[i].now <= last
  {
    if es != [] {
      var front, e := es[..|es| - 1], es[|es| - 1];
      assert e in es && NotAfter(e, last) && NotBefore(e, now);
      if e.Login? {
        forall x | x in front ensures NotAfter(x, e.r.allow) {
          var i :| 0 <= i < |front| && front[i] == x;
          assert es[i] == x && x in es && NotBefore(x, now);
        }
        AskedInOrder(front, now, e.r.allow);
      } else {
        AskedInOrder(front, now, last);
      }
    }
  }

  /** The limiter's bound reaches the table: in any run on one clock whose logins
      it answers, with sweeps at any moments, the logins under one name that take
      effect in a closed interval are at most its maximum for that length. */
  lemma LoginRate(lim: Limit, s: State, ttl: int, es: seq<Event>, login: string, a: int, span: nat, now: int, last: int)
    requires Gated(lim, es) && Paced(es, now) && forall e | e in es :: NotAfter(e, last)
    ensures LoginsWithin(s, ttl, es, login, a, a + span) <= Most(lim, span)
  {
    LoginsWereAdmitted(lim, s, ttl, es, login, a, a + span);
    AskedInOrder(es, now, last);
    RunRateBound(lim, Asked(es), login, a, span);
  }

  // ---------- idle sessions ----------

  ghost predicate StoredBy(ts: Tokens, last: int) {
    forall d | d in ts :: ts[d].expiresAt <= last + 72 * HOUR
  }

  lemma StepIsStoredBy(s: State, ttl: int, e: Event, last: int)
    requires StoredBy(s.tokens, last) && (!e.Register? ==> e.r.store <= last)
    ensures StoredBy(Step(s, ttl, e).tokens, last)
  {
  }

  lemma {:induction false} RunsAreStoredBy(s: State, ttl: int, es: seq<Event>, last: int)
    requires StoredBy(s.tokens, last)
    requires forall e | e in es && !e.Register? :: e.r.store <= last
    ensures StoredBy(Run(s, ttl, es).tokens, last)
  {
    if es != [] {
      RunsAreStoredBy(s, ttl, es[..|es| - 1], last);
      StepIsStoredBy(Run(s, ttl, es[..|es| - 1]), ttl, es[|es| - 1], last);
    }
  }

  /** 72 hours after the last call that could store a row, no token whatever is
      accepted, however the rotations before went. */
  lemma {:induction false} IdleSessionsExpire(users: map<string, User>, ttl: int, es: seq<Event>, last: int,
                                              token: Token, r: Reads, fault: DbFault)
    requires forall e | e in es && !e.Register? :: e.r.store <= last
    requires r.select >= last + 72 * HOUR
    ensures ReplyTo(Run(State(users, map[], []), ttl, es), ttl, Refresh(token, r, fault)) == Unauthenticated
  {
    RunsAreStoredBy(State(users, map[], []), ttl, es, last);
  }
}
