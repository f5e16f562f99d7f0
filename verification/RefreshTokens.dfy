/** Refresh-token rotation (internal/auth/service.go:68-112, 217-254). A refresh token is a JWT
    (RFC 7519) whose only varying claims are the user and the second it was issued in, so it is
    modelled by those claims; the stored SHA-256 digest is an injective function of the token. */
module RefreshTokens {
  import opened Common

  const SECOND: int := 1_000_000_000
  const REFRESH_TTL: int := 7 * 24 * 3600

  datatype Token = Token(sub: string, username: string, iat: int)

  datatype Digest = Sha256(token: Token)

  /** The token issue signs at `now`: the claims carry whole seconds. */
  function Signed(user: string, username: string, now: int): Token {
    Token(user, username, now / SECOND)
  }

  predicate Expired(t: Token, now: int) {
    now >= (t.iat + REFRESH_TTL) * SECOND
  }

  /** The refresh_token_hash column of every user. */
  type Users = map<string, Option<Digest>>

  /** Does Refresh let this token through at `now`? */
  predicate Accepts(users: Users, t: Token, now: int) {
    !Expired(t, now) && t.sub in users && users[t.sub] == Some(Sha256(t))
  }

  /** UPDATE users SET refresh_token_hash: nothing happens when the user does not exist. */
  function Write(users: Users, user: string, hash: Option<Digest>): Users {
    if user in users then users[user := hash] else users
  }

  class UserTable {
    var users: Users

    constructor (names: set<string>)
      ensures users == map u | u in names :: None
    {
      users := map u | u in names :: None;
    }

    method Issue(user: string, username: string, now: int) returns (refresh: Token)
      modifies this
      ensures refresh == Signed(user, username, now)
      ensures users == Write(old(users), user, Some(Sha256(refresh)))
    {
      refresh := Token(user, username, now / SECOND);
      if user in users {
        users := users[user := Some(Sha256(refresh))];
      }
    }

    /** Refresh without a concurrent request. `presented` is None when the signature, the
        algorithm or the issuer is wrong; the new token is signed at `issued`. */
    method Refresh(presented: Option<Token>, now: int, issued: int) returns (refresh: Option<Token>)
      modifies this
      ensures refresh.Some? <==> presented.Some? && Accepts(old(users), presented.value, now)
      ensures refresh.None? ==> users == old(users)
      ensures refresh.Some? ==>
                && refresh.value == Signed(presented.value.sub, presented.value.username, issued)
                && users == old(users)[presented.value.sub := Some(Sha256(refresh.value))]
      ensures refresh.Some? && !Expired(presented.value, issued) ==>
                (Accepts(users, presented.value, issued) <==> presented.value.iat == issued / SECOND)
    {
      if presented.None? || Expired(presented.value, now) {
        return None;
      }
      var t := presented.value;
      if t.sub !in users || users[t.sub] != Some(Sha256(t)) {
        return None;
      }
      var next := Issue(t.sub, t.username, issued);
      return Some(next);
    }

    method Logout(user: string)
      modifies this
      ensures users == Write(old(users), user, None)
    {
      if user in users {
        users := users[user := None];
      }
    }

    /** `verified` says whether bcrypt accepts the old password. */
    method ChangePassword(user: string, verified: bool) returns (ok: bool)
      modifies this
      ensures ok <==> user in old(users) && verified
      ensures users == if ok then Write(old(users), user, None) else old(users)
    {
      if user !in users || !verified {
        return false;
      }
      users := users[user := None];
      return true;
    }
  }

  // ---------------------------------------------------------------- overlapping requests

  /** A request that passed its check (password or refresh token) and has not stored yet. */
  datatype Grant = Grant(sub: string, username: string)

  /** One write of the column: a token, or NULL. */
  datatype Entry = Entry(user: string, token: Option<Token>)

  /** `log` is the history of writes. */
  datatype State = State(users: Users, grants: map<nat, Grant>, log: seq<Entry>)

  datatype Step =
    | Login(request: nat, sub: string, username: string)
    | Check(request: nat, token: Token, now: int)
    | Store(request: nat, now: int)
    | Revoke(user: string)  // Logout or ChangePassword

  predicate Enabled(s: State, step: Step) {
    match step
    case Login(q, _, _) => q !in s.grants
    case Check(q, t, now) => q !in s.grants && Accepts(s.users, t, now)
    case Store(q, _) => q in s.grants
    case Revoke(_) => true
  }

  function Record(s: State, user: string, token: Option<Token>): State {
    s.(users := Write(s.users, user, if token.Some? then Some(Sha256(token.value)) else None),
       log := s.log + [Entry(user, token)])
  }

  function Next(s: State, step: Step): State {
    if !Enabled(s, step) then s
    else
      match step
      case Login(q, u, name) => s.(grants := s.grants[q := Grant(u, name)])
      case Check(q, t, _) => s.(grants := s.grants[q := Grant(t.sub, t.username)])
      case Store(q, now) =>
        var g := s.grants[q];
        Record(s, g.sub, Some(Signed(g.sub, g.username, now))).(grants := s.grants - {q})
      case Revoke(u) => Record(s, u, None)
  }

  function Exec(s: State, steps: seq<Step>): State {
    if steps == [] then s else Next(Exec(s, steps[..|steps| - 1]), steps[|steps| - 1])
  }

  /** A gateway whose users have never logged in. */
  function Initial(names: set<string>): State {
    State(map u | u in names :: None, map[], [])
  }

  /** The last write for a user, if any. */
  function LastEntry(log: seq<Entry>, user: string): Option<Entry> {
    if log == [] then None
    else if log[|log| - 1].user == user then Some(log[|log| - 1])
    else LastEntry(log[..|log| - 1], user)
  }

  predicate Current(s: State) {
    forall u <- s.users ::
      var last := LastEntry(s.log, u);
      s.users[u] == if last.Some? && last.value.token.Some? then Some(Sha256(last.value.token.value)) else None
  }

  lemma {:induction false} TableIsCurrent(names: set<string>, steps: seq<Step>)
    ensures var s := Exec(Initial(names), steps); Current(s) && s.users.Keys == names
  {
    if steps != [] {
      var front := steps[..|steps| - 1];
      TableIsCurrent(names, front);
      var s, t := Exec(Initial(names), front), Exec(Initial(names), steps);
      if t.log != s.log {
        assert t.log[..|t.log| - 1] == s.log;
      }
    }
  }

  /** In every reachable state, overlapping requests included, a token is accepted if and only if
      it has not expired and it is the value of the last write for its user; so at most one value
      per user is accepted, and none after a logout or password change until the next store. */
  lemma AcceptedIsLastStored(names: set<string>, steps: seq<Step>, t: Token, now: int)
    requires t.sub in names
    ensures var s := Exec(Initial(names), steps);
            Accepts(s.users, t, now) <==> !Expired(t, now) && LastEntry(s.log, t.sub) == Some(Entry(t.sub, Some(t)))
  {
    TableIsCurrent(names, steps);
    LastEntryIsOwn(Exec(Initial(names), steps).log, t.sub);
  }

  /** How long: a token signed at `now` is accepted, as long as it is the last one stored for its user,
      until seven days after the second it was signed in. */
  lemma AcceptedForSevenDays(names: set<string>, steps: seq<Step>, user: string, username: string, now: int, at: int)
    requires user in names
    ensures var s := Exec(Initial(names), steps); var t := Signed(user, username, now);
            Accepts(s.users, t, at) <==>
            && LastEntry(s.log, user) == Some(Entry(user, Some(t)))
            && at < now - now % 1_000_000_000 + 604_800 * 1_000_000_000
  {
    AcceptedIsLastStored(names, steps, Signed(user, username, now), at);
  }

  lemma {:induction false} LastEntryIsOwn(log: seq<Entry>, user: string)
    ensures var e := LastEntry(log, user); e.Some? ==> e.value.user == user
  {
    if log != [] {
      LastEntryIsOwn(log[..|log| - 1], user);
    }
  }

  // ---------------------------------------------------------------- is a logout final?

  predicate NoLogin(steps: seq<Step>, user: string) {
    forall i | 0 <= i < |steps| :: steps[i].Login? ==> steps[i].sub != user
  }

  predicate Pending(s: State, user: string) {
    exists q <- s.grants :: s.grants[q].sub == user
  }

  /** Without a new login, whatever happens next, no token of the user is ever accepted again. */
  ghost predicate LoggedOutForGood(s: State, user: string) {
    forall steps, t: Token, now | NoLogin(steps, user) && t.sub == user :: !Accepts(Exec(s, steps).users, t, now)
  }

  lemma {:induction false} StaysOut(s: State, user: string, steps: seq<Step>)
    requires NoLogin(steps, user) && !Pending(s, user)
    requires user in s.users ==> s.users[user] == None
    ensures var r := Exec(s, steps); !Pending(r, user) && (user in r.users ==> r.users[user] == None)
  {
    if steps != [] {
      StaysOut(s, user, steps[..|steps| - 1]);
    }
  }

  /** A logout (or password change) of an existing user is final, short of a new login, if and
      only if no request of that user is between its check and its store at that moment. */
  lemma LogoutIsFinalIff(s: State, user: string)
    requires user in s.users
    ensures LoggedOutForGood(Next(s, Revoke(user)), user) <==> !Pending(s, user)
  {
    var out := Next(s, Revoke(user));
    if !Pending(s, user) {
      forall steps, t: Token, now | NoLogin(steps, user) && t.sub == user
        ensures !Accepts(Exec(out, steps).users, t, now)
      {
        StaysOut(out, user, steps);
      }
    } else {
      var q :| q in s.grants && s.grants[q].sub == user;
      var steps := [Store(q, 0)];
      var t := Signed(user, s.grants[q].username, 0);
      assert steps[..0] == [] && Exec(out, steps) == Next(out, Store(q, 0));
      assert NoLogin(steps, user) && Accepts(Exec(out, steps).users, t, 0);
    }
  }
}
