/**
 * The auth controllers over an in-memory user collection: signup, login,
 * profile, and the password-reset lifecycle (forgot-password issues a
 * secret whose SHA-256 digest is stored with a ten-minute expiry;
 * reset-password consumes it once).
 *
 * Randomness (`crypto.randomBytes`, `bcrypt.genSalt`) and the clock
 * (`Date.now()`) are parameters. Each handler returns its status and the
 * parts of its response body the model keeps.
 */
module AuthController {
  import opened Wrappers
  import opened Http
  import opened Text
  import opened Crypto
  import opened Hex
  import opened UserModel

  /** `10 * 60 * 1000` milliseconds. */
  const ResetWindowMs: int := 10 * 60 * 1000

  /** `crypto.randomBytes(20)`. */
  const ResetSecretBytes: nat := 20

  /** No two users share an email (the `unique` index). */
  ghost predicate UniqueEmails(users: map<UserId, User>)
  {
    forall a, b :: a in users && b in users && users[a].email == users[b].email ==> a == b
  }

  ghost predicate EmailTaken(users: map<UserId, User>, email: string)
  {
    exists id :: id in users && users[id].email == email
  }

  /** `User.findOne({ email })` on an email the query has already cast. */
  function FindByEmail(users: map<UserId, User>, email: string): (r: Option<UserId>)
    requires UniqueEmails(users)
    ensures r.Some? ==> r.value in users && users[r.value].email == email
    ensures r.None? <==> !EmailTaken(users, email)
  {
    if exists id :: id in users && users[id].email == email then
      Some(var id :| id in users && users[id].email == email; id)
    else
      None
  }

  /** The filter of reset-password: the stored digest is that of `secret` and the expiry is after `now`. */
  predicate AcceptsReset(u: User, secret: string, now: int): (r: bool)
    ensures r <==> && u.resetToken.Some? && u.resetToken.value.preimage == secret
                   && u.resetExpire.Some? && now < u.resetExpire.value
  {
    u.resetToken == Some(Sha256Hex(secret)) && u.resetExpire.Some? && u.resetExpire.value > now
  }

  /** Forgot-password's change to the user: the digest of the secret and an expiry ten minutes on. */
  function IssueReset(u: User, secret: string, now: int): (r: User)
    ensures r.name == u.name && r.email == u.email && r.password == u.password
    ensures r.resetToken.Some? && r.resetExpire.Some?
    ensures forall s, t :: AcceptsReset(r, s, t) <==> s == secret && t < now + ResetWindowMs
  {
    u.(resetToken := Some(Sha256Hex(secret)), resetExpire := Some(now + ResetWindowMs))
  }

  /** Reset-password's change to the user: the new password, and both reset fields cleared. */
  function ConsumeReset(u: User, password: PasswordValue): (r: User)
    ensures r.name == u.name && r.email == u.email && r.password == password
    ensures r.resetToken.None? && r.resetExpire.None?
    ensures forall s, t :: !AcceptsReset(r, s, t)
  {
    u.(password := password, resetToken := None, resetExpire := None)
  }

  /** The users reset-password's query can find for `secret` at time `now`. */
  function ResetCandidates(users: map<UserId, User>, secret: string, now: int): (r: set<UserId>)
    ensures forall id :: id in r <==> id in users && AcceptsReset(users[id], secret, now)
  {
    set id | id in users && AcceptsReset(users[id], secret, now)
  }

  /** Consuming a user's secret takes that user, and only that user, out of the candidates for every secret and time. */
  lemma ConsumeRemovesCandidate(users: map<UserId, User>, id: UserId, password: PasswordValue, secret: string, t: int)
    requires id in users
    ensures ResetCandidates(users[id := ConsumeReset(users[id], password)], secret, t)
            == ResetCandidates(users, secret, t) - {id}
  {
    var after := users[id := ConsumeReset(users[id], password)];
    forall x
      ensures x in ResetCandidates(after, secret, t) <==> x in ResetCandidates(users, secret, t) - {id}
    {
      if x == id {
        assert !AcceptsReset(after[x], secret, t);
      }
    }
  }

  /**
   * When no other user would accept `secret`, the secret just issued to a
   * user is accepted for that user strictly before the expiry and never from
   * the expiry on.
   */
  lemma IssuedSecretWindow(users: map<UserId, User>, id: UserId, secret: string, now: int, t: int)
    requires id in users
    requires forall other :: other in users && other != id ==> !AcceptsReset(users[other], secret, t)
    ensures ResetCandidates(users[id := IssueReset(users[id], secret, now)], secret, t)
            == if t < now + ResetWindowMs then {id} else {}
  {
    var after := users[id := IssueReset(users[id], secret, now)];
    forall x
      ensures x in ResetCandidates(after, secret, t) <==> x == id && t < now + ResetWindowMs
    {
      if x == id {
        assert AcceptsReset(after[x], secret, t) <==> t < now + ResetWindowMs;
      }
    }
  }

  /** Every user of the collection is well formed. */
  ghost predicate AllStored(users: map<UserId, User>)
  {
    forall id {:trigger Stored(users[id])} :: id in users ==> Stored(users[id])
  }

  /** The collection's invariant: ids below the next fresh id, unique emails, every user well formed. */
  ghost predicate ValidUsers(users: map<UserId, User>, nextId: UserId)
  {
    && (forall id :: id in users ==> id < nextId)
    && UniqueEmails(users)
    && AllStored(users)
  }

  /** Updating `users` at `id` by a well-formed user keeps every user well formed. */
  lemma StoredAfterUpdate(users: map<UserId, User>, id: UserId, u: User)
    requires AllStored(users) && Stored(u)
    ensures AllStored(users[id := u])
  {
    var after := users[id := u];
    forall x | x in after
      ensures Stored(after[x])
    {
      if x != id {
        assert after[x] == users[x];
      }
    }
  }

  /** Inserting a well-formed user with an unregistered email under the fresh id keeps the invariant. */
  lemma InsertKeepsValid(users: map<UserId, User>, nextId: UserId, u: User)
    requires ValidUsers(users, nextId) && Stored(u) && !EmailTaken(users, u.email)
    ensures ValidUsers(users[nextId := u], nextId + 1)
  {
    StoredAfterUpdate(users, nextId, u);
  }

  /** Replacing a user by a well-formed user with the same email keeps the invariant. */
  lemma ReplaceKeepsValid(users: map<UserId, User>, nextId: UserId, id: UserId, u: User)
    requires ValidUsers(users, nextId) && id in users && Stored(u) && u.email == users[id].email
    ensures ValidUsers(users[id := u], nextId)
  {
    StoredAfterUpdate(users, id, u);
  }

  /** A stored user passes the validators again, and issuing a reset secret to it keeps the invariant. */
  lemma IssueKeepsValid(users: map<UserId, User>, nextId: UserId, id: UserId, secret: string, now: int)
    requires ValidUsers(users, nextId) && id in users
    ensures SchemaErrors(users[id].name, users[id].email, users[id].password) == {}
    ensures ValidUsers(users[id := IssueReset(users[id], secret, now)], nextId)
  {
    assert Stored(users[id]);
    ReplaceKeepsValid(users, nextId, id, IssueReset(users[id], secret, now));
  }

  /**
   * A stored user with an acceptable new password passes the validators, and
   * consuming its secret with the digest of that password keeps the invariant.
   */
  lemma ConsumeKeepsValid(users: map<UserId, User>, nextId: UserId, id: UserId, password: string, salt: Salt)
    requires ValidUsers(users, nextId) && id in users && Utf16Length(password) >= MinPasswordLength
    ensures SchemaErrors(users[id].name, users[id].email, Plain(password)) == {}
    ensures ValidUsers(users[id := ConsumeReset(users[id], BcryptHash(Plain(password), salt))], nextId)
  {
    assert Stored(users[id]);
    ReplaceKeepsValid(users, nextId, id, ConsumeReset(users[id], BcryptHash(Plain(password), salt)));
  }

  /** The user collection. */
  class UserStore {
    var users: map<UserId, User>
    var nextId: UserId

    ghost predicate Valid()
      reads this
    {
      ValidUsers(users, nextId)
    }

    constructor ()
      ensures Valid() && users == map[]
    {
      users := map[];
      nextId := 0;
    }

    /** `doc.save()`: validate, run the pre-save hook, write the document under `id`. */
    method Save(doc: UserDocument, id: UserId, salt: Salt) returns (saved: bool)
      modifies this`users, doc`password
      ensures saved == (old(doc.Errors()) == {})
      ensures !saved ==> users == old(users)
      ensures saved ==> users == old(users)[id := old(doc.Snapshot()).(
                password := HookedPassword(old(doc.password), doc.passwordModified, salt))]
    {
      if doc.Errors() != {} {
        return false;
      }
      doc.PreSave(salt);
      users := users[id := doc.Snapshot()];
      saved := true;
    }

    /** `signup`: reject a registered email, create the user, answer with its summary and a token. */
    method Signup(name: string, email: string, password: string, salt: Salt)
      returns (status: Status, profile: Option<UserSummary>, token: Option<Jwt>)
      requires Valid()
      modifies this
      ensures Valid()
      ensures var e := Normalize(email);
              var valid := SchemaErrors(Trim(name), e, Plain(password)) == {};
              && (status == BadRequest <==> EmailTaken(old(users), e))
              && (status == InternalError <==> !EmailTaken(old(users), e) && !valid)
              && (status == Created <==> !EmailTaken(old(users), e) && valid)
      ensures status != Created ==> users == old(users) && profile == None && token == None
      ensures status == Created ==>
                && profile.Some? && profile.value.id !in old(users)
                && users == old(users)[profile.value.id := User(Trim(name), Normalize(email),
                                         BcryptHash(Plain(password), salt), None, None)]
                && profile.value == Summary(profile.value.id, users[profile.value.id])
                && token == Some(GenerateToken(profile.value.id))
    {
      var e := Normalize(email);
      var existing := FindByEmail(users, e);
      if existing.Some? {
        return BadRequest, None, None;
      }
      var doc := new UserDocument.New(name, email, password);
      var id := nextId;
      nextId := nextId + 1;
      var saved := Save(doc, id, salt);
      if !saved {
        return InternalError, None, None;
      }
      CreatedUserIsStored(name, email, password, salt);
      InsertKeepsValid(old(users), id, users[id]);
      status, profile, token := Created, Some(Summary(id, users[id])), Some(GenerateToken(id));
    }

    /** `login`: one answer, 401, whether the email is unknown or the password wrong. */
    method Login(email: string, password: string)
      returns (status: Status, profile: Option<UserSummary>, token: Option<Jwt>)
      requires Valid()
      ensures status == Ok || status == Unauthorized
      ensures status == Ok <==>
                exists id :: id in users && users[id].email == Normalize(email) && MatchPassword(users[id], password)
      ensures status == Ok ==>
                && profile.Some? && profile.value.id in users
                && users[profile.value.id].email == Normalize(email)
                && profile.value == Summary(profile.value.id, users[profile.value.id])
                && token == Some(GenerateToken(profile.value.id))
      ensures status == Unauthorized ==> profile == None && token == None
    {
      var found := FindByEmail(users, Normalize(email));
      if found.Some? && MatchPassword(users[found.value], password) {
        var id := found.value;
        return Ok, Some(Summary(id, users[id])), Some(GenerateToken(id));
      }
      return Unauthorized, None, None;
    }

    /** `getUserProfile` for the requester the auth middleware resolved. */
    method GetUserProfile(requester: UserId) returns (status: Status, profile: Option<UserSummary>)
      requires Valid()
      ensures requester in users ==> status == Ok && profile == Some(Summary(requester, users[requester]))
      ensures requester !in users ==> status == BadRequest && profile == None
    {
      if requester in users {
        return Ok, Some(Summary(requester, users[requester]));
      }
      return BadRequest, None;
    }

    /**
     * `forgotPassword`: for a registered email, store the SHA-256 digest of
     * the hex text of `random` with an expiry ten minutes after `now`, and
     * answer with the plaintext secret.
     */
    method ForgotPassword(email: string, random: seq<byte>, now: int)
      returns (status: Status, secret: Option<string>)
      requires Valid()
      requires |random| == ResetSecretBytes
      modifies this
      ensures Valid() && nextId == old(nextId)
      ensures match FindByEmail(old(users), Normalize(email))
              case None => status == NotFound && secret == None && users == old(users)
              case Some(id) =>
                && status == Ok && secret == Some(HexEncode(random))
                && users == old(users)[id := IssueReset(old(users)[id], HexEncode(random), now)]
    {
      var found := FindByEmail(users, Normalize(email));
      if found.None? {
        return NotFound, None;
      }
      var id := found.value;
      var doc := new UserDocument.Load(users[id]);
      var resetToken := HexEncode(random);
      doc.resetToken := Some(Sha256Hex(resetToken));
      doc.resetExpire := Some(now + ResetWindowMs);
      // The password is not modified, so the hook draws no salt.
      IssueKeepsValid(users, nextId, id, resetToken, now);
      var saved := Save(doc, id, []);
      assert saved;
      status, secret := Ok, Some(resetToken);
    }

    /**
     * `resetPassword`: find a user whose stored digest is that of `secret`
     * and whose expiry is after `now`; set the new password and clear both
     * reset fields. A new password the schema rejects makes `save()` throw:
     * the answer is 500 and the secret stays valid.
     */
    method ResetPassword(secret: string, newPassword: string, now: int, salt: Salt)
      returns (status: Status, token: Option<Jwt>)
      requires Valid()
      modifies this
      ensures Valid() && nextId == old(nextId)
      ensures var found := ResetCandidates(old(users), secret, now);
              && (found == {} ==> status == BadRequest && token == None && users == old(users))
              && (found != {} && Utf16Length(newPassword) < MinPasswordLength ==>
                    status == InternalError && token == None && users == old(users))
              && (found != {} && Utf16Length(newPassword) >= MinPasswordLength ==>
                    && status == Ok && token.Some? && token.value.subject in found
                    && users == old(users)[token.value.subject :=
                         ConsumeReset(old(users)[token.value.subject], BcryptHash(Plain(newPassword), salt))])
    {
      var found := ResetCandidates(users, secret, now);
      if found == {} {
        return BadRequest, None;
      }
      var id :| id in found;
      var doc := new UserDocument.Load(users[id]);
      doc.SetPassword(newPassword);
      doc.resetToken := None;
      doc.resetExpire := None;
      if Utf16Length(newPassword) >= MinPasswordLength {
        ConsumeKeepsValid(users, nextId, id, newPassword, salt);
      }
      var saved := Save(doc, id, salt);
      if !saved {
        return InternalError, None;
      }
      status, token := Ok, Some(GenerateToken(id));
    }
  }
}
