/**
 * Clients that drive the handlers in sequence, and what every such run
 * guarantees: a fresh account can log in, an email registered in another
 * case is refused, a reset secret works once and only before its expiry,
 * and a note is visible to its owner alone.
 */
module Scenarios {
  import opened Wrappers
  import opened Http
  import opened Text
  import opened Crypto
  import opened Hex
  import opened UserModel
  import opened AuthController
  import opened NoteController

  /** After a successful signup, logging in with the same email and password succeeds with a token for the same user id. */
  method SignupThenLogin(store: UserStore, name: string, email: string, password: string, salt: Salt)
    returns (signedUp: Status, signupToken: Option<Jwt>, loggedIn: Status, loginToken: Option<Jwt>)
    requires store.Valid()
    modifies store
    ensures store.Valid()
    ensures signedUp == Created ==> loggedIn == Ok && loginToken == signupToken && loginToken.Some?
  {
    var profile;
    signedUp, profile, signupToken := store.Signup(name, email, password, salt);
    var p2;
    loggedIn, p2, loginToken := store.Login(email, password);
    if signedUp == Created {
      var id := profile.value.id;
      assert MatchPassword(store.users[id], password);
      assert store.users[id].email == Normalize(email);
      assert loggedIn == Ok;
    }
  }

  /** A second signup whose email normalises to a registered one is refused with 400 and adds no user. */
  method SignupTwice(store: UserStore, name: string, email: string, password: string, salt: Salt,
                     name2: string, email2: string, password2: string, salt2: Salt)
    returns (first: Status, created: Option<UserId>, second: Status)
    requires store.Valid() && Normalize(email2) == Normalize(email)
    modifies store
    ensures store.Valid()
    ensures first == Created ==>
              && created.Some? && second == BadRequest
              && created.value !in old(store.users)
              && store.users.Keys == old(store.users).Keys + {created.value}
  {
    var profile, token;
    first, profile, token := store.Signup(name, email, password, salt);
    created := if first == Created then Some(profile.value.id) else None;
    if first == Created {
      assert store.users[created.value].email == Normalize(email2);
    }
    second, profile, token := store.Signup(name2, email2, password2, salt2);
  }

  /** No stored digest is that of `secret`: the random bytes drawn for it were not drawn before. */
  ghost predicate FreshSecret(users: map<UserId, User>, secret: string)
  {
    forall id :: id in users ==> users[id].resetToken != Some(Sha256Hex(secret))
  }

  /**
   * Forgot-password and then reset-password with the secret it answered,
   * before the expiry: the reset succeeds for the account of that email, a
   * second reset with the same secret fails at any time, and afterwards the
   * new password logs in and the old one does not.
   */
  method ResetOnce(store: UserStore, email: string, random: seq<byte>, now: int,
                   newPassword: string, oldPassword: string, t: int, t2: int, salt: Salt)
    returns (forgot: Status, first: Status, second: Status, withNew: Status, withOld: Status)
    requires store.Valid() && |random| == ResetSecretBytes
    requires EmailTaken(store.users, Normalize(email)) && FreshSecret(store.users, HexEncode(random))
    requires t < now + ResetWindowMs
    requires Utf16Length(newPassword) >= MinPasswordLength && oldPassword != newPassword
    modifies store
    ensures store.Valid()
    ensures forgot == Ok && first == Ok && second == BadRequest
    ensures withNew == Ok && withOld == Unauthorized
  {
    ghost var before := store.users;
    var secret;
    forgot, secret := store.ForgotPassword(email, random, now);
    var id := FindByEmail(before, Normalize(email)).value;
    ghost var issued := store.users;
    forall other | other in before && other != id
      ensures !AcceptsReset(before[other], secret.value, t)
    {
    }
    IssuedSecretWindow(before, id, secret.value, now, t);
    var token;
    first, token := store.ResetPassword(secret.value, newPassword, t, salt);
    ConsumeRemovesCandidate(issued, id, BcryptHash(Plain(newPassword), salt), secret.value, t2);
    second, token := store.ResetPassword(secret.value, newPassword, t2, salt);
    var profile;
    assert store.users[id].email == Normalize(email);
    assert MatchPassword(store.users[id], newPassword);
    withNew, profile, token := store.Login(email, newPassword);
    withOld, profile, token := store.Login(email, oldPassword);
  }

  /** A reset at or after the expiry of the secret just issued fails with 400. */
  method ResetAfterExpiry(store: UserStore, email: string, random: seq<byte>, now: int,
                          newPassword: string, t: int, salt: Salt)
    returns (forgot: Status, reset: Status)
    requires store.Valid() && |random| == ResetSecretBytes
    requires EmailTaken(store.users, Normalize(email)) && FreshSecret(store.users, HexEncode(random))
    requires t >= now + ResetWindowMs
    modifies store
    ensures store.Valid()
    ensures forgot == Ok && reset == BadRequest && reset.Code() == 400
  {
    ghost var before := store.users;
    var secret;
    forgot, secret := store.ForgotPassword(email, random, now);
    var id := FindByEmail(before, Normalize(email)).value;
    IssuedSecretWindow(before, id, secret.value, now, t);
    var token;
    reset, token := store.ResetPassword(secret.value, newPassword, t, salt);
  }

  /** A note one user creates is refused to any other user, with 401, and given to its owner; it is in its owner's list only. */
  method NoteOwnership(store: NoteStore, owner: UserId, other: UserId, title: string, content: string)
    returns (id: NoteId, forOther: Status, forOwner: Status, note: Option<Note>,
             mine: map<NoteId, Note>, theirs: map<NoteId, Note>)
    requires store.Valid() && owner != other
    modifies store
    ensures store.Valid()
    ensures forOther == Unauthorized && forOwner == Ok && note == Some(Note(title, content, owner))
    ensures id in mine && id !in theirs
  {
    var status, created;
    status, id, created := store.CreateNote(owner, title, content);
    var none;
    forOther, none := store.GetNoteById(other, id);
    forOwner, note := store.GetNoteById(owner, id);
    status, mine := store.GetNotes(owner);
    status, theirs := store.GetNotes(other);
  }
}
