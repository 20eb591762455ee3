/** The session store as the source writes it: methods that update Redis keys.  Each one moves
    the store exactly as the operation of Sessions it stands for, so the run and pruning theorems
    there are about this class. */
module SessionStore {
  import opened Sequences
  import opened Sessions
  import opened Wrappers

  /** First occurrences, in order: `list(dict.fromkeys(...))`. */
  function Unique<T(==)>(s: seq<T>): seq<T> {
    if s == [] then []
    else
      var init := Unique(s[..|s| - 1]);
      if s[|s| - 1] in init then init else init + [s[|s| - 1]]
  }

  lemma {:induction false} UniqueElements<T>(s: seq<T>)
    ensures Distinct(Unique(s)) && forall x :: x in Unique(s) <==> x in s
  {
    if s != [] {
      UniqueElements(s[..|s| - 1]);
      assert s == s[..|s| - 1] + [s[|s| - 1]];
    }
  }

  /** What is left stands in the order of the first occurrences. */
  lemma {:induction false} UniqueInOrder<T>(s: seq<T>, p: nat, q: nat) returns (i: nat, j: nat)
    requires p < q < |Unique(s)|
    ensures i < j < |s| && s[i] == Unique(s)[p] && s[j] == Unique(s)[q]
    ensures s[i] !in s[..i] && s[j] !in s[..j]
  {
    var init := s[..|s| - 1];
    if q < |Unique(init)| {
      i, j := UniqueInOrder(init, p, q);
      assert init[..i] == s[..i] && init[..j] == s[..j];
    } else {
      UniqueElements(init);
      i, j := FirstPlace(init, Unique(init)[p]), |s| - 1;
      assert init[..i] == s[..i] && init == s[..j];
    }
  }

  ghost function FirstPlace<T>(s: seq<T>, x: T): (i: nat)
    requires x in s
    ensures i < |s| && s[i] == x && x !in s[..i]
  {
    var init := s[..|s| - 1];
    assert s == init + [s[|s| - 1]];
    if x in init then var i := FirstPlace(init, x); assert init[..i] == s[..i]; i else |s| - 1
  }

  lemma {:induction false} UniqueOfDistinct<T>(s: seq<T>)
    requires Distinct(s)
    ensures Unique(s) == s
  {
    if s != [] {
      UniqueOfDistinct(s[..|s| - 1]);
      assert s == s[..|s| - 1] + [s[|s| - 1]];
    }
  }

  class SessionStore {
    var sessions: map<Token, Session>
    var accounts: map<Account, set<Token>>
    var tokens: set<Token>

    function State(): Store
      reads this
    {
      Store(sessions, accounts, tokens)
    }

    ghost predicate Valid()
      reads this
    {
      Covered(State())
    }

    /** The account's index has the token. */
    ghost predicate Indexed(a: Account, t: Token)
      reads this`accounts
    {
      a in accounts && t in accounts[a]
    }

    constructor ()
      ensures Valid() && State() == Store(map[], map[], {})
    {
      sessions, accounts, tokens := map[], map[], {};
    }

    method Set(p: Session)
      requires Valid()
      modifies this
      ensures Valid() && State() == Apply(old(State()), Op.Set(p))
      ensures sessions == old(sessions)[p.token := p] && tokens == old(tokens) + {p.token}
      ensures forall a, t :: Indexed(a, t) <==> old(Indexed(a, t)) || (a == p.account && t == p.token)
    {
      SetKeys(p.token, p);
    }

    /** SETEX of the session and SADD to both indexes. */
    method SetKeys(token: Token, p: Session)
      modifies this
      ensures State() == Put(old(State()), token, p)
      ensures sessions == old(sessions)[token := p] && tokens == old(tokens) + {token}
      ensures forall a, t :: Indexed(a, t) <==> old(Indexed(a, t)) || (a == p.account && t == token)
    {
      sessions := sessions[token := p];
      accounts := accounts[p.account := (if p.account in accounts then accounts[p.account] else {}) + {token}];
      tokens := tokens + {token};
    }

    method Get(token: Token) returns (session: Option<Session>)
      ensures session == if token in sessions then Some(sessions[token]) else None
    {
      session := if token in sessions then Some(sessions[token]) else None;
    }

    method Touch(token: Token, at: real)
      requires Valid()
      modifies this`sessions
      ensures Valid() && State() == Apply(old(State()), Op.Touch(token, at))
      ensures sessions == if token in old(sessions)
                          then old(sessions)[token := old(sessions)[token].(lastActiveAt := at)] else old(sessions)
    {
      if token !in sessions {
        return;
      }
      sessions := sessions[token := sessions[token].(lastActiveAt := at)];
    }

    method Delete(token: Token)
      requires Valid()
      modifies this
      ensures Valid() && State() == Apply(old(State()), Op.Delete(token))
      ensures sessions == old(sessions) - {token} && tokens == old(tokens) - {token}
      ensures forall a, t :: Indexed(a, t) <==>
                old(Indexed(a, t)) && !(t == token && t in old(sessions) && old(sessions)[t].account == a)
    {
      DeletedKeepsCovered(State(), token);
      var payload := Get(token);
      sessions := sessions - {token};
      tokens := tokens - {token};
      if payload.Some? {
        var a := payload.value.account;
        accounts := accounts[a := (if a in accounts then accounts[a] else {}) - {token}];
      }
    }

    /** The environment: a session's TTL runs out. */
    method Expire(token: Token)
      requires Valid()
      modifies this`sessions
      ensures Valid() && State() == Apply(old(State()), Op.Expire(token))
      ensures sessions == old(sessions) - {token}
    {
      sessions := sessions - {token};
    }

    /** SMEMBERS, in whatever order it returns them. */
    method GetAccountTokens(a: Account) returns (order: seq<Token>)
      ensures Enumerates(order, State().TokensOf(a))
    {
      order := [];
      var rest := if a in accounts then accounts[a] else {};
      while rest != {}
        invariant Distinct(order) && rest <= State().TokensOf(a)
        invariant forall t :: t in order <==> t in State().TokensOf(a) && t !in rest
        decreases |rest|
      {
        var t :| t in rest;
        rest := rest - {t};
        order := order + [t];
      }
    }

    method ListSessionsByTokens(listed: seq<Token>) returns (found: seq<Session>)
      requires Valid()
      modifies this`tokens
      ensures Valid() && State() == Apply(old(State()), Op.List(listed))
      ensures DeadLeave(old(State()), listed, State())
      ensures found == Live(old(State()), Unique(listed))
    {
      UniqueElements(listed);
      var unique := Unique(listed);
      var stale;
      found, stale := ReadSessions(unique);
      tokens := tokens - stale;
      assert stale == set t | t in listed && t !in sessions;
    }

    /** The loop over the tokens: the live sessions in order, and the tokens without one. */
    method ReadSessions(unique: seq<Token>) returns (found: seq<Session>, stale: set<Token>)
      ensures found == Live(State(), unique)
      ensures forall t :: t in stale <==> t in unique && t !in sessions
    {
      found, stale := [], {};
      for k := 0 to |unique|
        invariant found == Live(State(), unique[..k])
        invariant forall t :: t in stale <==> t in unique[..k] && t !in sessions
      {
        assert unique[..k + 1][..k] == unique[..k] && unique[..k + 1] == unique[..k] + [unique[k]];
        var session := Get(unique[k]);
        if session.Some? {
          found := found + [session.value];
        } else {
          stale := stale + {unique[k]};
        }
      }
      assert unique[..|unique|] == unique;
    }

    method ListAccountSessions(a: Account) returns (found: seq<Session>, ghost order: seq<Token>)
      requires Valid()
      modifies this`tokens
      ensures Valid() && State() == Apply(old(State()), Op.List(order))
      ensures DeadLeave(old(State()), order, State())
      ensures Enumerates(order, old(State()).TokensOf(a)) && found == Listed(old(State()), order)
    {
      var listed := GetAccountTokens(a);
      order := listed;
      UniqueOfDistinct(listed);
      found := ListSessionsByTokens(listed);
      found := SortBy(found, LoginKey());
    }

    /** At most `maxSessions` live sessions of the account are left, the latest ones. */
    method PruneExcessSessions(a: Account, maxSessions: int) returns (ghost order: seq<Token>)
      requires Valid()
      modifies this
      ensures Valid() && Enumerates(order, old(State()).TokensOf(a))
      ensures State() == Apply(old(State()), Op.Prune(order, maxSessions))
      ensures if maxSessions <= 0 then State() == old(State())
              else
                && OnlyExcessGoes(old(State()), a, maxSessions, State())
                && LimitKept(old(State()), a, maxSessions, State()) && OldestGo(old(State()), a, State())
    {
      if maxSessions <= 0 {
        order := GetAccountTokens(a);
        return;
      }
      order := DeleteOldest(a, maxSessions);
      PruneBounds(old(State()), a, order, maxSessions, State());
    }

    method DeleteOldest(a: Account, maxSessions: int) returns (ghost order: seq<Token>)
      requires Valid() && maxSessions > 0
      modifies this
      ensures Valid() && Enumerates(order, old(State()).TokensOf(a))
      ensures State() == Pruned(old(State()), order, maxSessions)
    {
      var found;
      found, order := ListAccountSessions(a);
      if |found| <= maxSessions {
        return;
      }
      DeleteEach(found[..|found| - maxSessions]);
    }

    method DeleteEach(excess: seq<Session>)
      requires Valid()
      modifies this
      ensures Valid() && State() == DeletedAll(old(State()), Names(excess))
    {
      for k := 0 to |excess|
        invariant Valid() && State() == DeletedAll(old(State()), Names(excess)[..k])
      {
        assert Names(excess)[..k + 1][..k] == Names(excess)[..k];
        Delete(excess[k].token);
      }
      assert Names(excess)[..|excess|] == Names(excess);
    }

    /** Rewrites the live sessions of the targets that have a payload factory. */
    method RefreshAccountsSessions(targets: seq<Account>, factories: map<Account, Token -> Session>)
      returns (updates: seq<Update>)
      requires Valid()
      requires forall a, t :: a in factories ==> factories[a](t).token == t
      modifies this
      ensures Valid() && State() == Apply(old(State()), Op.Refresh(updates))
      ensures RewrittenBy(old(State()), updates, State())
      ensures forall u :: u in updates <==>
                exists a :: a in targets && a in factories && u.token in old(State()).TokensOf(a)
                  && u.token in old(sessions) && u.session == factories[a](u.token)
    {
      updates := CollectUpdates(targets, factories);
      RefreshedKeepsCovered(State(), updates);
      RefreshRewrites(State(), updates);
      WriteUpdates(updates);
    }

    method WriteUpdates(updates: seq<Update>)
      modifies this
      ensures State() == Refreshed(old(State()), updates)
    {
      for k := 0 to |updates|
        invariant State() == Refreshed(old(State()), updates[..k])
      {
        assert updates[..k + 1][..k] == updates[..k];
        SetKeys(updates[k].token, updates[k].session);
      }
      assert updates[..|updates|] == updates;
    }

    ghost predicate UpdateFor(a: Account, factories: map<Account, Token -> Session>, u: Update)
      reads this
    {
      a in factories && u.token in State().TokensOf(a) && u.token in sessions && u.session == factories[a](u.token)
    }

    method CollectUpdates(targets: seq<Account>, factories: map<Account, Token -> Session>)
      returns (updates: seq<Update>)
      ensures forall u :: u in updates <==> exists a :: a in targets && UpdateFor(a, factories, u)
    {
      UniqueElements(targets);
      var unique := Unique(targets);
      updates := [];
      for k := 0 to |unique|
        invariant forall u :: u in updates <==> AmongFirst(unique, k, factories, u)
      {
        ghost var before := updates;
        if unique[k] in factories {
          var more := UpdatesOf(unique[k], factories);
          updates := updates + more;
        }
        forall u
          ensures u in updates <==> AmongFirst(unique, k + 1, factories, u)
        {
          AmongNext(unique, k, factories, u);
          assert u in before <==> AmongFirst(unique, k, factories, u);
        }
      }
      forall u
        ensures u in updates <==> exists a :: a in targets && UpdateFor(a, factories, u)
      {
        AmongAll(targets, unique, factories, u);
      }
    }

    ghost predicate AmongFirst(accounts: seq<Account>, k: nat, factories: map<Account, Token -> Session>, u: Update)
      requires k <= |accounts|
      reads this
    {
      exists i :: 0 <= i < k && UpdateFor(accounts[i], factories, u)
    }

    lemma {:induction false} AmongNext(accounts: seq<Account>, k: nat, factories: map<Account, Token -> Session>,
            u: Update)
      requires k < |accounts|
      ensures AmongFirst(accounts, k + 1, factories, u) <==>
              AmongFirst(accounts, k, factories, u) || UpdateFor(accounts[k], factories, u)
    {
      if AmongFirst(accounts, k + 1, factories, u) {
        var i :| 0 <= i < k + 1 && UpdateFor(accounts[i], factories, u);
        assert i < k || i == k;
      }
    }

    lemma {:induction false} AmongAll(targets: seq<Account>, unique: seq<Account>, factories: map<Account,
            Token -> Session>,
                                      u: Update)
      requires forall a :: a in unique <==> a in targets
      ensures AmongFirst(unique, |unique|, factories, u) <==> exists a :: a in targets && UpdateFor(a, factories, u)
    {
      if AmongFirst(unique, |unique|, factories, u) {
        var i :| 0 <= i < |unique| && UpdateFor(unique[i], factories, u);
        assert unique[i] in targets;
      }
      if a :| a in targets && UpdateFor(a, factories, u) {
        var i :| 0 <= i < |unique| && unique[i] == a;
        assert UpdateFor(unique[i], factories, u);
      }
    }

    method UpdatesOf(a: Account, factories: map<Account, Token -> Session>) returns (updates: seq<Update>)
      requires a in factories
      ensures forall u :: u in updates <==> UpdateFor(a, factories, u)
    {
      var order := GetAccountTokens(a);
      updates := [];
      for k := 0 to |order|
        invariant forall u :: u in updates <==> u.token in order[..k] && UpdateFor(a, factories, u)
      {
        var t := order[k];
        assert order[..k + 1] == order[..k] + [t];
        if t in sessions {
          updates := updates + [Update(t, factories[a](t))];
        }
      }
      assert order[..|order|] == order;
    }

    ghost predicate Untargeted(targets: seq<Account>, t: Token)
      reads this`accounts
    {
      forall a :: a in targets ==> !Indexed(a, t)
    }

    method DeleteAccountsSessions(targets: seq<Account>)
      requires Valid()
      modifies this
      ensures Valid() && State() == Apply(old(State()), Op.DeleteAccounts(targets))
      ensures forall t :: t in sessions ==> sessions[t].account !in targets
      ensures forall t :: t in sessions <==> t in old(sessions) && old(Untargeted(targets, t))
      ensures forall t :: t in sessions ==> sessions[t] == old(sessions)[t]
      ensures forall t :: t in tokens <==> t in old(tokens) && old(Untargeted(targets, t))
      ensures forall a, t :: Indexed(a, t) <==> old(Indexed(a, t)) && a !in targets
    {
      UniqueElements(targets);
      var unique := Unique(targets);
      var gone: set<Token> := {};
      for k := 0 to |unique|
        invariant State() == old(State()) && gone == AllTokens(State(), unique[..k])
      {
        assert unique[..k + 1] == unique[..k] + [unique[k]];
        var order := GetAccountTokens(unique[k]);
        gone := gone + set t | t in order;
      }
      assert unique[..|unique|] == unique;
      assert gone == AllTokens(State(), targets);
      forall t
        ensures t in gone <==> !Untargeted(targets, t)
      {
        if !Untargeted(targets, t) {
          var a :| a in targets && Indexed(a, t);
          assert t in State().TokensOf(a);
        }
      }
      sessions := sessions - gone;
      accounts := accounts - set a | a in unique;
      tokens := tokens - gone;
    }
  }
}
