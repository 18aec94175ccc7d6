/** Password reset tokens (pkg/services/auth.go) and the reset itself (pkg/handlers/auth.go). */
module PasswordTokens {

  /** A stored token: its hash, its user and when it was created. */
  datatype Token = Token(user: int, hash: string, createdAt: int)

  type Table = map<int, Token>

  /** bcrypt's comparison of a secret with a hash. */
  type Check = (string, string) -> bool

  /** Ideal hashing: the hash made for `secret` accepts that secret and no other. */
  ghost predicate HashOf(check: Check, secret: string, hash: string) {
    forall s :: check(s, hash) <==> s == secret
  }

  /** The query of GetValidPasswordToken and the hash comparison. */
  predicate Validates(table: Table, check: Check, user: int, id: int, secret: string, now: int, expiration: nat) {
    && id in table
    && table[id].user == user
    && table[id].createdAt >= now - expiration
    && check(secret, table[id].hash)
  }

  /** The rows of tokens, and the hash of each user's password as far as resets have set it. */
  datatype State = State(tokens: Table, passwords: map<int, string>)

  function WithoutUser(table: Table, user: int): Table {
    map id | id in table && table[id].user != user :: table[id]
  }

  class AuthClient {
    const check: Check
    const expiration: nat
    var tokens: Table

    constructor (check: Check, expiration: nat)
      ensures this.check == check && this.expiration == expiration && tokens == map[]
    {
      this.check, this.expiration, tokens := check, expiration, map[];
    }

    /** `id` is the key the database assigns, `hash` what bcrypt makes of the random secret. */
    method GeneratePasswordResetToken(user: int, id: int, hash: string, now: int, created: bool) returns (ok: bool)
      requires id !in tokens
      modifies this
      ensures tokens == (if created then old(tokens)[id := Token(user, hash, now)] else old(tokens)) && ok == created
    {
      if created {
        tokens := tokens[id := Token(user, hash, now)];
      }
      return created;
    }

    method GetValidPasswordToken(user: int, id: int, secret: string, now: int) returns (valid: bool)
      ensures valid <==> Validates(tokens, check, user, id, secret, now, expiration)
    {
      var oldest := now - expiration;
      if id !in tokens || tokens[id].user != user || tokens[id].createdAt < oldest {
        return false;
      }
      if check(secret, tokens[id].hash) {
        return true;
      }
      return false;
    }

    method DeletePasswordTokens(user: int, deleted: bool) returns (ok: bool)
      modifies this
      ensures tokens == (if deleted then WithoutUser(old(tokens), user) else old(tokens)) && ok == deleted
    {
      if deleted {
        tokens := WithoutUser(tokens, user);
      }
      return deleted;
    }
  }

  class AuthHandler {
    const auth: AuthClient
    var passwords: map<int, string>

    constructor (auth: AuthClient)
      ensures this.auth == auth && passwords == map[]
    {
      this.auth, passwords := auth, map[];
    }

    function Current(): State
      reads this, auth
    {
      State(auth.tokens, passwords)
    }

    /** The password is updated first; the tokens are deleted only after that succeeded. */
    method ResetPasswordSubmit(user: int, hash: string, updated: bool, deleted: bool) returns (ok: bool)
      modifies this, auth
      ensures Current() == Step(old(Current()), Reset(user, hash, updated, deleted))
      ensures passwords == if updated then old(passwords)[user := hash] else old(passwords)
      ensures auth.tokens == if updated && deleted then WithoutUser(old(auth.tokens), user) else old(auth.tokens)
      ensures ok <==> updated && deleted
    {
      if !updated {
        return false;
      }
      passwords := passwords[user := hash];
      var gone := auth.DeletePasswordTokens(user, deleted);
      if !gone {
        return false;
      }
      return true;
    }
  }

  // ------------------------------------------------------------------ whole runs

  /** `Issue`: a token row was created. `Delete`: the user's rows were deleted. `Reset`: the password is
      updated, and if that succeeds the rows are deleted; either query may fail. Times are those of the
      clock. */
  datatype Event =
    | Issue(user: int, id: int, secret: string, hash: string, at: int)
    | Delete(user: int, ok: bool)
    | Reset(user: int, password: string, updated: bool, deleted: bool)

  predicate Clears(e: Event, user: int) {
    (e.Delete? && e.user == user && e.ok) || (e.Reset? && e.user == user && e.updated && e.deleted)
  }

  function Step(s: State, e: Event): State {
    match e
    case Issue(user, id, _, hash, at) => s.(tokens := s.tokens[id := Token(user, hash, at)])
    case Delete(user, ok) => if ok then s.(tokens := WithoutUser(s.tokens, user)) else s
    case Reset(user, password, updated, deleted) =>
      if !updated then s
      else State(if deleted then WithoutUser(s.tokens, user) else s.tokens, s.passwords[user := password])
  }

  function After(events: seq<Event>): State {
    if events == [] then State(map[], map[]) else Step(After(events[..|events| - 1]), events[|events| - 1])
  }

  /** The database assigns a key that is not in use, and hashing is ideal. */
  ghost predicate Plausible(check: Check, events: seq<Event>) {
    forall k | 0 <= k < |events| && events[k].Issue? ::
      events[k].id !in After(events[..k]).tokens && HashOf(check, events[k].secret, events[k].hash)
  }

  /** Event k issued the row `id` to `user` with hash and time as stored, and nothing has deleted the
      user's tokens since. */
  ghost predicate Standing(events: seq<Event>, k: int, id: int) {
    && 0 <= k < |events| && events[k].Issue? && events[k].id == id
    && forall j | k < j < |events| :: !Clears(events[j], events[k].user)
  }

  lemma {:induction false} StandingIsStored(check: Check, events: seq<Event>, k: int, id: int)
    requires Plausible(check, events) && Standing(events, k, id)
    ensures id in After(events).tokens
    ensures After(events).tokens[id] == Token(events[k].user, events[k].hash, events[k].at)
  {
    var front, e := events[..|events| - 1], events[|events| - 1];
    if k < |front| {
      PlausiblePrefix(check, events, |events| - 1);
      assert Standing(front, k, id) by {
        assert events[k] == front[k] && forall j | 0 <= j < |front| :: events[j] == front[j];
      }
      StandingIsStored(check, front, k, id);
      assert e.Issue? ==> e.id !in After(front).tokens;
      RowStays(After(front), e, id);
    }
  }

  lemma RowStays(s: State, e: Event, id: int)
    requires id in s.tokens && !(e.Issue? && e.id == id) && !Clears(e, s.tokens[id].user)
    ensures id in Step(s, e).tokens && Step(s, e).tokens[id] == s.tokens[id]
  {
  }

  lemma {:induction false} StoredIsStanding(check: Check, events: seq<Event>, id: int)
    requires Plausible(check, events) && id in After(events).tokens
    ensures exists k :: Standing(events, k, id)
                        && After(events).tokens[id] == Token(events[k].user, events[k].hash, events[k].at)
  {
    var front, e := events[..|events| - 1], events[|events| - 1];
    PlausiblePrefix(check, events, |events| - 1);
    if e.Issue? && e.id == id {
      assert Standing(events, |events| - 1, id);
    } else {
      StepKeeps(After(front), e, id);
      StoredIsStanding(check, front, id);
      var k :| Standing(front, k, id) && After(front).tokens[id] == Token(front[k].user, front[k].hash, front[k].at);
      StandingGrows(events, k, id);
    }
  }

  /** A row that an event leaves in the table, and did not issue, was there before, and the event
      cleared nothing of its user. */
  lemma StepKeeps(s: State, e: Event, id: int)
    requires id in Step(s, e).tokens && !(e.Issue? && e.id == id)
    ensures id in s.tokens && Step(s, e).tokens[id] == s.tokens[id] && !Clears(e, s.tokens[id].user)
  {
  }

  lemma StandingGrows(events: seq<Event>, k: int, id: int)
    requires events != [] && Standing(events[..|events| - 1], k, id)
    requires !Clears(events[|events| - 1], events[k].user)
    ensures Standing(events, k, id)
  {
    assert forall j | 0 <= j < |events| - 1 :: events[j] == events[..|events| - 1][j];
  }

  lemma PlausiblePrefix(check: Check, events: seq<Event>, n: nat)
    requires Plausible(check, events) && n <= |events|
    ensures Plausible(check, events[..n])
  {
    forall k | 0 <= k < n && events[..n][k].Issue?
      ensures events[..n][k].id !in After(events[..n][..k]).tokens
      ensures HashOf(check, events[..n][k].secret, events[..n][k].hash)
    {
      assert events[..n][k] == events[k] && events[..n][..k] == events[..k];
    }
  }

  /** A token validates for (user, id, now) if and only if that row was issued to that user with that
      secret, no longer ago than the expiration, and no deletion for the user has succeeded since. */
  lemma ValidTokens(check: Check, events: seq<Event>, user: int, id: int, secret: string, now: int, expiration: nat)
    requires Plausible(check, events)
    ensures Validates(After(events).tokens, check, user, id, secret, now, expiration) <==>
              exists k :: Standing(events, k, id) && events[k].user == user && events[k].secret == secret
                          && events[k].at >= now - expiration
  {
    if Validates(After(events).tokens, check, user, id, secret, now, expiration) {
      StoredIsStanding(check, events, id);
      var k :| Standing(events, k, id)
               && After(events).tokens[id] == Token(events[k].user, events[k].hash, events[k].at);
      assert HashOf(check, events[k].secret, events[k].hash);
    }
    forall k | Standing(events, k, id) && events[k].user == user && events[k].secret == secret
               && events[k].at >= now - expiration
      ensures Validates(After(events).tokens, check, user, id, secret, now, expiration)
    {
      StandingIsStored(check, events, k, id);
      assert HashOf(check, events[k].secret, events[k].hash);
    }
  }

  /** A successful reset invalidates every token the user held before it, at any later time, unless
      the very same row and secret is issued again. */
  lemma ResetInvalidates(check: Check, before: seq<Event>, user: int, password: string, later: seq<Event>, id: int,
                         secret: string, now: int, expiration: nat)
    requires Plausible(check, before + [Reset(user, password, true, true)] + later)
    requires forall e | e in later :: !(e.Issue? && e.user == user && e.id == id && e.secret == secret)
    ensures var s := After(before + [Reset(user, password, true, true)] + later);
            !Validates(s.tokens, check, user, id, secret, now, expiration)
  {
    var events := before + [Reset(user, password, true, true)] + later;
    ValidTokens(check, events, user, id, secret, now, expiration);
    var r := |before|;
    assert events[r] == Reset(user, password, true, true) && Clears(events[r], user);
    forall k | 0 <= k < |events|
      ensures !(Standing(events, k, id) && events[k].user == user && events[k].secret == secret)
    {
      if k > r {
        assert events[k] == later[k - r - 1] && later[k - r - 1] in later;
      }
    }
  }

  /** A token that is not valid does not become valid later, unless it is issued again. */
  lemma InvalidStaysInvalid(check: Check, events: seq<Event>, later: seq<Event>, user: int, id: int, secret: string,
                            now: int, now': int, expiration: nat)
    requires Plausible(check, events + later) && now <= now'
    requires !Validates(After(events).tokens, check, user, id, secret, now, expiration)
    requires forall e | e in later :: !(e.Issue? && e.user == user && e.id == id && e.secret == secret)
    ensures !Validates(After(events + later).tokens, check, user, id, secret, now', expiration)
  {
    var all := events + later;
    assert all[..|events|] == events;
    PlausiblePrefix(check, all, |events|);
    ValidTokens(check, events, user, id, secret, now, expiration);
    ValidTokens(check, all, user, id, secret, now', expiration);
    forall k | 0 <= k < |all|
      ensures !(Standing(all, k, id) && all[k].user == user && all[k].secret == secret
                && all[k].at >= now' - expiration)
    {
      if k < |events| {
        StandingBefore(events, later, k, id);
      } else {
        assert all[k] == later[k - |events|] && later[k - |events|] in later;
      }
    }
  }

  lemma StandingBefore(events: seq<Event>, later: seq<Event>, k: nat, id: int)
    requires k < |events|
    ensures (events + later)[k] == events[k]
    ensures Standing(events + later, k, id) ==> Standing(events, k, id)
  {
    assert forall j | 0 <= j < |events| :: (events + later)[j] == events[j];
  }

  /** Event k issued a token to the user that nothing has deleted since and that is young enough. */
  ghost predicate Usable(events: seq<Event>, k: int, user: int, now: int, expiration: nat) {
    && 0 <= k < |events| && events[k].Issue? && Standing(events, k, events[k].id)
    && events[k].user == user && events[k].at >= now - expiration
  }

  /** The user has a token that validates. */
  ghost predicate Open(s: State, check: Check, user: int, now: int, expiration: nat) {
    exists id, secret :: Validates(s.tokens, check, user, id, secret, now, expiration)
  }

  lemma OpenMeansUsable(check: Check, events: seq<Event>, user: int, now: int, expiration: nat)
    requires Plausible(check, events)
    ensures Open(After(events), check, user, now, expiration) <==> exists k :: Usable(events, k, user, now, expiration)
  {
    forall id, secret | Validates(After(events).tokens, check, user, id, secret, now, expiration)
      ensures exists k :: Usable(events, k, user, now, expiration)
    {
      ValidTokens(check, events, user, id, secret, now, expiration);
      var k :| Standing(events, k, id) && events[k].user == user && events[k].at >= now - expiration;
      assert Usable(events, k, user, now, expiration);
    }
    forall k | Usable(events, k, user, now, expiration)
      ensures Open(After(events), check, user, now, expiration)
    {
      ValidTokens(check, events, user, events[k].id, events[k].secret, now, expiration);
      assert Standing(events, k, events[k].id);
    }
  }

  /** After a reset, whatever became of its two queries, no token of the user validates if and only if
      both succeeded or the user had no usable token. So a reset that changes the password and fails to
      delete the tokens leaves the new password open to every token that is still usable. */
  lemma ResetClosesExactlyIf(check: Check, before: seq<Event>, user: int, password: string, updated: bool,
                             deleted: bool, now: int, expiration: nat)
    requires Plausible(check, before)
    ensures var s := After(before + [Reset(user, password, updated, deleted)]);
            && (Open(s, check, user, now, expiration) <==>
                  !(updated && deleted) && exists k :: Usable(before, k, user, now, expiration))
            && (updated ==> user in s.passwords && s.passwords[user] == password)
  {
    var events := before + [Reset(user, password, updated, deleted)];
    assert events[..|before|] == before;
    OpenMeansUsable(check, before, user, now, expiration);
  }

  /** Event k is the latest reset of the user's password that went through. */
  ghost predicate LatestReset(events: seq<Event>, k: int, user: int) {
    && 0 <= k < |events| && SetsPassword(events[k], user)
    && forall j | k < j < |events| :: !SetsPassword(events[j], user)
  }

  predicate SetsPassword(e: Event, user: int) {
    e.Reset? && e.user == user && e.updated
  }

  /** Over every run the user's password is the one of the latest reset whose update succeeded, whether
      or not the tokens were then deleted. */
  lemma {:induction false} PasswordsAreLatestResets(events: seq<Event>, user: int)
    ensures user in After(events).passwords <==> exists k :: LatestReset(events, k, user)
    ensures forall k | LatestReset(events, k, user) ::
              user in After(events).passwords && After(events).passwords[user] == events[k].password
  {
    if events != [] {
      var n := |events| - 1;
      var front := events[..n];
      PasswordsAreLatestResets(front, user);
      if SetsPassword(events[n], user) {
        assert LatestReset(events, n, user);
      } else {
        forall k
          ensures LatestReset(events, k, user) <==> LatestReset(front, k, user)
        {
          assert forall j | 0 <= j < n :: front[j] == events[j];
        }
      }
    }
  }
}
