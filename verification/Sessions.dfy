/** The login session store of app/core/security/session.py: sessions by token, and two indexes
    that must keep covering them, one per account and one global.

    Redis keys are maps and sets.  A session may expire at any moment (`Expire`); each operation
    of the store is one step.  The idle timeout is off, its default. */
module Sessions {
  import opened Sequences
  import opened Wrappers

  type Token = string

  datatype Account = Account(kind: string, id: string)

  /** `loginAt` counts from the earliest time there is, and is None when it is missing or
      unparsable; `rest` stands for the grants. */
  datatype Session = Session(token: Token, account: Account, loginAt: Option<nat>, lastActiveAt: real, rest: string)

  datatype Store = Store(sessions: map<Token, Session>, accounts: map<Account, set<Token>>, tokens: set<Token>) {
    function TokensOf(a: Account): set<Token> {
      if a in accounts then accounts[a] else {}
    }

    /** The account's index has the token. */
    ghost predicate Has(a: Account, t: Token) {
      a in accounts && t in accounts[a]
    }
  }

  /** Every live session is stored under its own token and found by both indexes. */
  ghost predicate Covered(s: Store) {
    forall t :: t in s.sessions ==>
      s.sessions[t].token == t && t in s.tokens && t in s.TokensOf(s.sessions[t].account)
  }

  // ---- The operations on values ----

  function Put(s: Store, token: Token, p: Session): Store {
    Store(s.sessions[token := p], s.accounts[p.account := s.TokensOf(p.account) + {token}], s.tokens + {token})
  }

  function Touched(s: Store, token: Token, at: real): Store {
    if token in s.sessions then s.(sessions := s.sessions[token := s.sessions[token].(lastActiveAt := at)]) else s
  }

  /** Without a live session only the global index is cleaned: the account is unknown. */
  function Deleted(s: Store, token: Token): Store {
    if token !in s.sessions then s.(tokens := s.tokens - {token})
    else
      var a := s.sessions[token].account;
      Store(s.sessions - {token}, s.accounts[a := s.TokensOf(a) - {token}], s.tokens - {token})
  }

  function DeletedAll(s: Store, tokens: seq<Token>): Store {
    if tokens == [] then s else Deleted(DeletedAll(s, tokens[..|tokens| - 1]), tokens[|tokens| - 1])
  }

  /** Listing drops the expired tokens it meets from the global index. */
  function Swept(s: Store, listed: seq<Token>): Store {
    s.(tokens := s.tokens - (set t | t in listed && t !in s.sessions))
  }

  /** Exactly the listed tokens without a session leave the global index, and nothing else changes. */
  ghost predicate DeadLeave(s: Store, listed: seq<Token>, s': Store) {
    && s'.sessions == s.sessions && s'.accounts == s.accounts
    && forall t :: t in s'.tokens <==> t in s.tokens && !(t in listed && t !in s.sessions)
  }

  function Live(s: Store, listed: seq<Token>): seq<Session> {
    if listed == [] then []
    else
      var t := listed[|listed| - 1];
      Live(s, listed[..|listed| - 1]) + (if t in s.sessions then [s.sessions[t]] else [])
  }

  /** A missing login time counts as the earliest one. */
  function LoginKey(): Session -> real {
    (p: Session) => match p.loginAt case None => 0.0 case Some(at) => at as real
  }

  /** One login is not later than another; a missing login time is the earliest there is. */
  ghost predicate NoLater(a: Option<nat>, b: Option<nat>) {
    a.None? || a.value == 0 || (b.Some? && a.value <= b.value)
  }

  function Listed(s: Store, order: seq<Token>): seq<Session> {
    SortBy(Live(s, order), LoginKey())
  }

  function Names(sessions: seq<Session>): seq<Token> {
    seq(|sessions|, i requires 0 <= i < |sessions| => sessions[i].token)
  }

  /** The sessions that pruning removes: the oldest ones beyond the limit. */
  function Excess(s: Store, order: seq<Token>, maxSessions: int): seq<Session> {
    var all := Listed(s, order);
    if maxSessions <= 0 || |all| <= maxSessions then [] else all[..|all| - maxSessions]
  }

  function Pruned(s: Store, order: seq<Token>, maxSessions: int): Store {
    if maxSessions <= 0 then s else DeletedAll(Swept(s, order), Names(Excess(s, order, maxSessions)))
  }

  datatype Update = Update(token: Token, session: Session)

  function Refreshed(s: Store, updates: seq<Update>): Store {
    if updates == [] then s
    else
      var u := updates[|updates| - 1];
      Put(Refreshed(s, updates[..|updates| - 1]), u.token, u.session)
  }

  function AllTokens(s: Store, targets: seq<Account>): set<Token> {
    set a, t | a in targets && t in s.TokensOf(a) :: t
  }

  function AccountsDeleted(s: Store, targets: seq<Account>): Store {
    var gone := AllTokens(s, targets);
    Store(s.sessions - gone, s.accounts - (set a | a in targets), s.tokens - gone)
  }

  function Expired(s: Store, token: Token): Store {
    s.(sessions := s.sessions - {token})
  }

  /** `order` is some order of the members of `tokens`, as SMEMBERS returns them. */
  ghost predicate Enumerates(order: seq<Token>, tokens: set<Token>) {
    Distinct(order) && forall t :: t in order <==> t in tokens
  }

  // ---- Runs ----

  datatype Op =
    | Set(session: Session)
    | Touch(token: Token, at: real)
    | Delete(token: Token)
    | List(order: seq<Token>)
    | Prune(order: seq<Token>, maxSessions: int)
    | Refresh(updates: seq<Update>)
    | DeleteAccounts(targets: seq<Account>)
    | Expire(token: Token)

  function Apply(s: Store, op: Op): Store {
    match op
    case Set(p) => Put(s, p.token, p)
    case Touch(t, at) => Touched(s, t, at)
    case Delete(t) => Deleted(s, t)
    case List(order) => Swept(s, order)
    case Prune(order, n) => Pruned(s, order, n)
    case Refresh(updates) => Refreshed(s, updates)
    case DeleteAccounts(targets) => AccountsDeleted(s, targets)
    case Expire(t) => Expired(s, t)
  }

  /** Refreshing keeps tokens, as its documentation promises of the payload factories. */
  ghost predicate KeepsTokens(op: Op) {
    op.Refresh? ==> forall u :: u in op.updates ==> u.session.token == u.token
  }

  function ApplyAll(s: Store, ops: seq<Op>): Store {
    if ops == [] then s else Apply(ApplyAll(s, ops[..|ops| - 1]), ops[|ops| - 1])
  }

  lemma {:induction false} DeletedKeepsCovered(s: Store, token: Token)
    requires Covered(s)
    ensures Covered(Deleted(s, token))
  {
  }

  lemma {:induction false} DeletedAllKeepsCovered(s: Store, tokens: seq<Token>)
    requires Covered(s)
    ensures Covered(DeletedAll(s, tokens))
  {
    if tokens != [] {
      DeletedAllKeepsCovered(s, tokens[..|tokens| - 1]);
      DeletedKeepsCovered(DeletedAll(s, tokens[..|tokens| - 1]), tokens[|tokens| - 1]);
    }
  }

  lemma {:induction false} RefreshedKeepsCovered(s: Store, updates: seq<Update>)
    requires Covered(s) && forall u :: u in updates ==> u.session.token == u.token
    ensures Covered(Refreshed(s, updates))
  {
    if updates != [] {
      RefreshedKeepsCovered(s, updates[..|updates| - 1]);
    }
  }

  lemma {:induction false} ApplyKeepsCovered(s: Store, op: Op)
    requires Covered(s) && KeepsTokens(op)
    ensures Covered(Apply(s, op))
  {
    match op
    case Prune(order, n) => DeletedAllKeepsCovered(Swept(s, order), Names(Excess(s, order, n)));
    case Refresh(updates) => RefreshedKeepsCovered(s, updates);
    case _ =>
  }

  /** Whatever is done to an empty store, and whenever sessions expire, both indexes cover every
      live session. */
  lemma {:induction false} IndexesCover(ops: seq<Op>)
    requires forall op :: op in ops ==> KeepsTokens(op)
    ensures Covered(ApplyAll(Store(map[], map[], {}), ops))
  {
    if ops != [] {
      IndexesCover(ops[..|ops| - 1]);
      ApplyKeepsCovered(ApplyAll(Store(map[], map[], {}), ops[..|ops| - 1]), ops[|ops| - 1]);
    }
  }

  // ---- Refreshing ----

  ghost predicate HasUpdate(updates: seq<Update>, t: Token) {
    exists u :: u in updates && u.token == t
  }

  ghost predicate HasEntry(updates: seq<Update>, a: Account, t: Token) {
    exists u :: u in updates && u.token == t && u.session.account == a
  }

  /** Each updated token holds the session of an update for it and all others are as they were. */
  ghost predicate SessionsRewritten(s: Store, updates: seq<Update>, s': Store) {
    && (forall t :: t in s'.sessions <==> t in s.sessions || HasUpdate(updates, t))
    && (forall t :: HasUpdate(updates, t) ==> t in s'.sessions && Update(t, s'.sessions[t]) in updates)
    && (forall t :: t in s.sessions && !HasUpdate(updates, t) ==> t in s'.sessions && s'.sessions[t] == s.sessions[t])
  }

  /** Both indexes gain what was updated and lose nothing. */
  ghost predicate IndexesRewritten(s: Store, updates: seq<Update>, s': Store) {
    && (forall t :: t in s'.tokens <==> t in s.tokens || HasUpdate(updates, t))
    && (forall a, t :: s'.Has(a, t) <==> s.Has(a, t) || HasEntry(updates, a, t))
  }

  ghost predicate RewrittenBy(s: Store, updates: seq<Update>, s': Store) {
    SessionsRewritten(s, updates, s') && IndexesRewritten(s, updates, s')
  }

  lemma {:induction false} OneMoreUpdate(updates: seq<Update>, u: Update, a: Account, t: Token)
    ensures HasUpdate(updates + [u], t) <==> HasUpdate(updates, t) || u.token == t
    ensures HasEntry(updates + [u], a, t) <==> HasEntry(updates, a, t) || (u.token == t && u.session.account == a)
  {
    assert u in updates + [u];
    if v :| v in updates && v.token == t {
      assert v in updates + [u];
    }
    if v :| v in updates && v.token == t && v.session.account == a {
      assert v in updates + [u];
    }
  }

  lemma {:induction false} RewriteNext(s: Store, updates: seq<Update>, u: Update, s': Store)
    requires RewrittenBy(s, updates, s')
    ensures RewrittenBy(s, updates + [u], Put(s', u.token, u.session))
  {
    var s'' := Put(s', u.token, u.session);
    forall a, t
      ensures HasUpdate(updates + [u], t) <==> HasUpdate(updates, t) || u.token == t
      ensures s''.Has(a, t) <==> s.Has(a, t) || HasEntry(updates + [u], a, t)
    {
      OneMoreUpdate(updates, u, a, t);
      assert s''.Has(a, t) <==> s'.Has(a, t) || (t == u.token && a == u.session.account);
    }
  }

  /** Refreshing rewrites exactly the tokens that have an update. */
  lemma {:induction false} RefreshRewrites(s: Store, updates: seq<Update>)
    ensures RewrittenBy(s, updates, Refreshed(s, updates))
  {
    if updates != [] {
      var n := |updates| - 1;
      RefreshRewrites(s, updates[..n]);
      RewriteNext(s, updates[..n], updates[n], Refreshed(s, updates[..n]));
      assert updates == updates[..n] + [updates[n]];
    }
  }

  // ---- Pruning ----

  lemma {:induction false} DeletedAllSessions(s: Store, tokens: seq<Token>)
    ensures DeletedAll(s, tokens).sessions == s.sessions - (set t | t in tokens)
  {
    if tokens != [] {
      DeletedAllSessions(s, tokens[..|tokens| - 1]);
      assert tokens == tokens[..|tokens| - 1] + [tokens[|tokens| - 1]];
    }
  }

  /** The sessions a listing shows. */
  ghost predicate Shows(s: Store, order: seq<Token>, listed: seq<Session>) {
    && Distinct(listed)
    && forall p :: p in listed <==> p.token in order && p.token in s.sessions && s.sessions[p.token] == p
  }

  lemma {:induction false} LiveShows(s: Store, order: seq<Token>)
    requires Covered(s) && Distinct(order)
    ensures Shows(s, order, Live(s, order))
  {
    if order != [] {
      var init, t := order[..|order| - 1], order[|order| - 1];
      LiveShows(s, init);
      assert order == init + [t] && t !in init;
    }
  }

  /** Reading sessions keeps the order of their tokens. */
  lemma {:induction false} LiveInOrder(s: Store, order: seq<Token>, p: nat, q: nat) returns (i: nat, j: nat)
    requires p < q < |Live(s, order)|
    ensures i < j < |order| && order[i] in s.sessions && order[j] in s.sessions
    ensures Live(s, order)[p] == s.sessions[order[i]] && Live(s, order)[q] == s.sessions[order[j]]
  {
    var init := order[..|order| - 1];
    if q < |Live(s, init)| {
      i, j := LiveInOrder(s, init, p, q);
    } else {
      i, j := LivePlace(s, init, p), |order| - 1;
    }
  }

  ghost function LivePlace(s: Store, order: seq<Token>, p: nat): (i: nat)
    requires p < |Live(s, order)|
    ensures i < |order| && order[i] in s.sessions && Live(s, order)[p] == s.sessions[order[i]]
  {
    var init := order[..|order| - 1];
    if p < |Live(s, init)| then LivePlace(s, init, p) else |order| - 1
  }

  lemma {:induction false} ListedShows(s: Store, order: seq<Token>)
    requires Covered(s) && Distinct(order)
    ensures Shows(s, order, Listed(s, order)) && SortedBy(Listed(s, order), LoginKey())
    ensures OldestFirst(Listed(s, order))
  {
    var live := Live(s, order);
    LiveShows(s, order);
    SortByCounts(live, LoginKey());
    SortBySorts(live, LoginKey());
    SameMultiset(live, Listed(s, order));
    PermutedDistinct(live, Listed(s, order));
    SortedIsOldestFirst(Listed(s, order));
  }

  ghost predicate OldestFirst(listed: seq<Session>) {
    forall i, j :: 0 <= i < j < |listed| ==> NoLater(listed[i].loginAt, listed[j].loginAt)
  }

  lemma {:induction false} SortedIsOldestFirst(listed: seq<Session>)
    requires SortedBy(listed, LoginKey())
    ensures OldestFirst(listed)
  {
    forall i, j | 0 <= i < j < |listed|
      ensures NoLater(listed[i].loginAt, listed[j].loginAt)
    {
      assert LoginKey()(listed[i]) <= LoginKey()(listed[j]);
    }
  }

  ghost function LiveTokens(s: Store, tokens: set<Token>): set<Token> {
    set t | t in tokens && t in s.sessions
  }

  /** A listing has one session for each live token of the account's index. */
  lemma {:induction false} ListingCounts(s: Store, order: seq<Token>, tokens: set<Token>, listed: seq<Session>)
    requires Covered(s) && Enumerates(order, tokens) && Shows(s, order, listed)
    ensures Distinct(Names(listed)) && |listed| == |LiveTokens(s, tokens)|
    ensures forall t :: t in Names(listed) <==> t in LiveTokens(s, tokens)
  {
    var names, live := Names(listed), LiveTokens(s, tokens);
    forall t
      ensures t in names <==> t in live
    {
      if t in live {
        SessionListed(s, order, listed, t);
      }
      if i :| 0 <= i < |names| && names[i] == t {
        assert listed[i] in listed;
      }
    }
    forall i, j | 0 <= i < j < |names|
      ensures names[i] != names[j]
    {
      assert listed[i] in listed && listed[j] in listed;
    }
    DistinctFits(names, live);
    CoverFits(names, live);
  }

  lemma {:induction false} SessionListed(s: Store, order: seq<Token>, listed: seq<Session>, t: Token)
    requires Shows(s, order, listed) && t in order && t in s.sessions && s.sessions[t].token == t
    ensures t in Names(listed)
  {
    assert s.sessions[t] in listed;
    var i :| 0 <= i < |listed| && listed[i] == s.sessions[t];
    assert Names(listed)[i] == t;
  }

  /** The live sessions of an account. */
  ghost function SessionsOf(s: Store, a: Account): set<Token> {
    set t | t in s.sessions && s.sessions[t].account == a
  }

  /** Sessions go only from behind the account's index, and only when it has more live ones than
      allowed; the others are as they were. */
  ghost predicate OnlyExcessGoes(s: Store, a: Account, maxSessions: int, s': Store) {
    && (forall t :: t in s'.sessions ==> t in s.sessions && s'.sessions[t] == s.sessions[t])
    && (forall t :: t in s.sessions && t !in s'.sessions ==>
          s.Has(a, t) && |LiveTokens(s, s.TokensOf(a))| > maxSessions)
  }

  /** As many are left as allowed, or all. */
  ghost predicate LimitKept(s: Store, a: Account, maxSessions: int, s': Store) {
    var before, after := |LiveTokens(s, s.TokensOf(a))|, |LiveTokens(s', s.TokensOf(a))|;
    after == (if before <= maxSessions then before else maxSessions) && |SessionsOf(s', a)| <= maxSessions
  }

  /** None that goes has a later login than one that stays. */
  ghost predicate OldestGo(s: Store, a: Account, s': Store) {
    forall t, u :: t in s.sessions && t !in s'.sessions && u in s'.sessions && u in s.sessions && s.Has(a, u) ==>
      NoLater(s.sessions[t].loginAt, s.sessions[u].loginAt)
  }

  /** Pruning leaves at most the allowed number of live sessions behind the account's index, and
      so of the account; it removes no more than that takes; and none it removes has a later
      login than one it leaves. */
  lemma {:induction false} PruneBounds(s: Store, a: Account, order: seq<Token>, maxSessions: int, s': Store)
    requires Covered(s) && Enumerates(order, s.TokensOf(a)) && maxSessions > 0
    requires s' == Pruned(s, order, maxSessions)
    ensures OnlyExcessGoes(s, a, maxSessions, s') && LimitKept(s, a, maxSessions, s') && OldestGo(s, a, s')
  {
    PruneSplits(s, a, order, maxSessions, s');
    var n := |Excess(s, order, maxSessions)|;
    PruneLimits(s, a, Listed(s, order), n, maxSessions, s');
    ListedShows(s, order);
    PruneOrder(s, a, order, Listed(s, order), n, s');
  }

  /** The head of the listing goes and its tail stays. */
  ghost predicate Splits(s: Store, tokens: set<Token>, names: seq<Token>, n: nat, s': Store) {
    && n <= |names| == |LiveTokens(s, tokens)|
    && s'.sessions == s.sessions - (set t | t in names[..n])
    && (forall t :: t in names ==> t in LiveTokens(s, tokens))
    && (forall t :: t in s.sessions && t !in s'.sessions <==> t in names[..n])
    && (forall t :: t in LiveTokens(s', tokens) <==> t in names[n..])
    && |LiveTokens(s', tokens)| == |names| - n
  }

  lemma {:induction false} PruneSplits(s: Store, a: Account, order: seq<Token>, maxSessions: int, s': Store)
    requires Covered(s) && Enumerates(order, s.TokensOf(a)) && maxSessions > 0
    requires s' == Pruned(s, order, maxSessions)
    ensures var names, n := Names(Listed(s, order)), |Excess(s, order, maxSessions)|;
            && Splits(s, s.TokensOf(a), names, n, s')
            && n == (if |names| <= maxSessions then 0 else |names| - maxSessions)
  {
    var all, n := Listed(s, order), |Excess(s, order, maxSessions)|;
    ListedShows(s, order);
    ListingCounts(s, order, s.TokensOf(a), all);
    PrunedSessions(s, order, maxSessions);
    HeadAndTail(s, s', s.TokensOf(a), all, n);
  }

  lemma {:induction false} PruneLimits(s: Store, a: Account, all: seq<Session>, n: nat, maxSessions: int, s': Store)
    requires Covered(s) && maxSessions > 0 && Splits(s, s.TokensOf(a), Names(all), n, s')
    requires n == (if |all| <= maxSessions then 0 else |all| - maxSessions)
    ensures OnlyExcessGoes(s, a, maxSessions, s') && LimitKept(s, a, maxSessions, s')
  {
    var names := Names(all);
    forall t | t in names[..n]
      ensures t in LiveTokens(s, s.TokensOf(a))
    {
      assert t in names;
    }
    assert SessionsOf(s', a) <= LiveTokens(s', s.TokensOf(a));
    SubsetSize(SessionsOf(s', a), LiveTokens(s', s.TokensOf(a)));
  }

  lemma {:induction false} PruneOrder(s: Store, a: Account, order: seq<Token>, all: seq<Session>, n: nat, s': Store)
    requires n <= |all| && Shows(s, order, all) && OldestFirst(all) && Splits(s, s.TokensOf(a), Names(all), n, s')
    ensures OldestGo(s, a, s')
  {
    HeadBeforeTail(s, order, all, n);
    forall t, u | t in s.sessions && t !in s'.sessions && u in s'.sessions && u in s.sessions && s.Has(a, u)
      ensures NoLater(s.sessions[t].loginAt, s.sessions[u].loginAt)
    {
      assert u in LiveTokens(s', s.TokensOf(a));
    }
  }

  lemma {:induction false} PrunedSessions(s: Store, order: seq<Token>, maxSessions: int)
    requires maxSessions > 0
    ensures var names, n := Names(Listed(s, order)), |Excess(s, order, maxSessions)|;
            && n == (if |names| <= maxSessions then 0 else |names| - maxSessions)
            && Pruned(s, order, maxSessions).sessions == s.sessions - (set t | t in names[..n])
  {
    var names, excess := Names(Listed(s, order)), Excess(s, order, maxSessions);
    assert Names(excess) == names[..|excess|];
    DeletedAllSessions(Swept(s, order), Names(excess));
  }

  /** Removing the head of a listing leaves its tail. */
  lemma {:induction false} HeadAndTail(s: Store, s': Store, tokens: set<Token>, all: seq<Session>, n: nat)
    requires Distinct(Names(all)) && n <= |all| && forall t :: t in Names(all) <==> t in LiveTokens(s, tokens)
    requires s'.sessions == s.sessions - (set t | t in Names(all)[..n])
    ensures forall t :: t in LiveTokens(s', tokens) <==> t in Names(all)[n..]
    ensures forall t :: t in s.sessions && t !in s'.sessions <==> t in Names(all)[..n]
    ensures |LiveTokens(s', tokens)| == |all| - n
  {
    var names, kept := Names(all), LiveTokens(s', tokens);
    assert names == names[..n] + names[n..];
    forall t
      ensures t in kept <==> t in names[n..]
      ensures t in s.sessions && t !in s'.sessions <==> t in names[..n]
    {
      assert t in names <==> t in names[..n] || t in names[n..];
      if t in names[..n] {
        SplitDistinct(names, n, t);
      }
    }
    DistinctFits(names[n..], kept);
    CoverFits(names[n..], kept);
  }

  /** A listing is in login order. */
  lemma {:induction false} HeadBeforeTail(s: Store, order: seq<Token>, all: seq<Session>, n: nat)
    requires n <= |all| && Shows(s, order, all) && OldestFirst(all)
    ensures forall t, u :: t in Names(all)[..n] && u in Names(all)[n..] ==>
              t in s.sessions && u in s.sessions && NoLater(s.sessions[t].loginAt, s.sessions[u].loginAt)
  {
  }

  lemma {:induction false} SplitDistinct(names: seq<Token>, n: nat, t: Token)
    requires Distinct(names) && n <= |names| && t in names[..n]
    ensures t !in names[n..]
  {
  }
}
