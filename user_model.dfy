/**
 * The user schema: its fields, the cast each setter applies, the validators
 * (`required`, `minlength`, `match`), the pre-save hook that hashes a
 * modified password, and `matchPassword`.
 */
module UserModel {
  import opened Wrappers
  import opened Http
  import opened Text
  import opened EmailPattern
  import opened Crypto

  /** The password path's `minlength`, in UTF-16 code units. */
  const MinPasswordLength: nat := 6

  /** A user as the collection stores it. */
  datatype User = User(
    name: string,
    email: string,
    password: PasswordValue,
    resetToken: Option<Sha256Digest>,
    resetExpire: Option<int>)

  /** The fields the auth handlers put in a response body: `_id`, `name`, `email`. */
  datatype UserSummary = UserSummary(id: UserId, name: string, email: string)

  function Summary(id: UserId, u: User): (r: UserSummary)
    ensures r.id == id && r.name == u.name && r.email == u.email
  {
    UserSummary(id, u.name, u.email)
  }

  /** Responses never depend on the password or the reset fields: `select: false` and the handlers' projections. */
  lemma SummaryHidesSecrets(id: UserId, u: User, v: User)
    requires u.name == v.name && u.email == v.email
    ensures Summary(id, u) == Summary(id, v)
  {
  }

  /** `user.matchPassword(entered)`. */
  predicate MatchPassword(u: User, entered: string): (r: bool)
    ensures r <==> u.password.Bcrypt? && u.password.input == Plain(entered)
  {
    BcryptCompare(entered, u.password)
  }

  /** One failing validator; each path reports only its first, and `required` runs first. */
  datatype SchemaError = NameRequired | EmailRequired | EmailInvalid | PasswordRequired | PasswordTooShort

  /**
   * The validators of the schema on already cast values. `required` rejects
   * the empty string; `match` accepts the empty string (only `required`
   * rejects it); `minlength` compares JavaScript's `.length`, which counts
   * UTF-16 code units; a bcrypt digest is a 60-character string, so it
   * always meets `required` and `minlength`.
   */
  function SchemaErrors(name: string, email: string, password: PasswordValue): (errs: set<SchemaError>)
    ensures errs == {} <==>
              name != [] && MatchesEmailPattern(email) &&
              (password.Plain? ==> Utf16Length(password.text) >= MinPasswordLength)
    ensures NameRequired in errs <==> name == []
    ensures EmailRequired in errs <==> email == []
    ensures EmailInvalid in errs <==> email != [] && !MatchesEmailPattern(email)
    ensures PasswordRequired in errs <==> password == Plain([])
    ensures PasswordTooShort in errs <==> password.Plain? && 0 < Utf16Length(password.text) < MinPasswordLength
  {
    var nameErrs := if name == [] then {NameRequired} else {};
    var emailErrs :=
      if email == [] then {EmailRequired}
      else if !MatchesEmailPattern(email) then {EmailInvalid}
      else {};
    var passwordErrs :=
      match password
      case Plain(text) =>
        if text == [] then {PasswordRequired}
        else if Utf16Length(text) < MinPasswordLength then {PasswordTooShort}
        else {}
      case Bcrypt(_, _, _) => {};
    nameErrs + emailErrs + passwordErrs
  }

  /** A password of three emoji has six code units, so it meets `minlength`. */
  lemma EmojiPasswordAccepted()
    ensures SchemaErrors("Ann", "ann@x.com", Plain("\U{1F600}\U{1F600}\U{1F600}")) == {}
  {
    Utf16LengthOfEmoji();
    SampleAddressAccepted();
  }

  /**
   * What every persisted user satisfies: it passed validation when it was
   * saved, its name is trimmed, its email normalised, its password a bcrypt
   * digest of an accepted plaintext, and its reset token and expiry are set
   * or cleared together.
   */
  ghost predicate Stored(u: User)
  {
    && u.name != [] && Trim(u.name) == u.name
    && IsNormalized(u.email) && MatchesEmailPattern(u.email)
    && u.password.Bcrypt? && u.password.input.Plain?
    && Utf16Length(u.password.input.text) >= MinPasswordLength
    && (u.resetToken.Some? <==> u.resetExpire.Some?)
  }

  /** The password value the pre-save hook leaves: hashed once when modified, untouched otherwise. */
  function HookedPassword(v: PasswordValue, modified: bool, salt: Salt): (r: PasswordValue)
    ensures !modified ==> r == v
    ensures modified ==> r.Bcrypt? && r.input == v && r.salt == salt
  {
    if modified then BcryptHash(v, salt) else v
  }

  /** A user created from valid signup fields is a well-formed stored user once the hook has run. */
  lemma CreatedUserIsStored(name: string, email: string, password: string, salt: Salt)
    requires SchemaErrors(Trim(name), Normalize(email), Plain(password)) == {}
    ensures Stored(User(Trim(name), Normalize(email), HookedPassword(Plain(password), true, salt), None, None))
  {
    TrimIdempotent(name);
    NormalizeIdempotent(email);
  }

  /** A user document being built or changed by a handler, before `save()`. */
  class UserDocument {
    var name: string
    var email: string
    var password: PasswordValue
    var passwordModified: bool
    var resetToken: Option<Sha256Digest>
    var resetExpire: Option<int>

    /** `new User({ name, email, password })`: the setters cast the name and email; a new password is modified. */
    constructor New(name: string, email: string, password: string)
      ensures this.name == Trim(name) && this.email == Normalize(email)
      ensures this.password == Plain(password) && passwordModified
      ensures resetToken == None && resetExpire == None
    {
      this.name := Trim(name);
      this.email := Normalize(email);
      this.password := Plain(password);
      passwordModified := true;
      resetToken := None;
      resetExpire := None;
    }

    /** A document fetched from the collection: nothing modified yet. */
    constructor Load(u: User)
      ensures Snapshot() == u && !passwordModified
    {
      name := u.name;
      email := u.email;
      password := u.password;
      passwordModified := false;
      resetToken := u.resetToken;
      resetExpire := u.resetExpire;
    }

    /** The document's current values as a stored user. */
    function Snapshot(): User
      reads this
    {
      User(name, email, password, resetToken, resetExpire)
    }

    /** The schema's validators on the document's current values. */
    function Errors(): set<SchemaError>
      reads this
    {
      SchemaErrors(name, email, password)
    }

    /** Assigning `doc.password`, which marks the path modified. */
    method SetPassword(p: string)
      modifies this`password, this`passwordModified
      ensures password == Plain(p) && passwordModified
    {
      password := Plain(p);
      passwordModified := true;
    }

    /** The `pre('save')` hook: hash the password only if it was modified (or is new). */
    method PreSave(salt: Salt)
      modifies this`password
      ensures password == HookedPassword(old(password), passwordModified, salt)
    {
      if !passwordModified {
        return;
      }
      password := BcryptHash(password, salt);
    }
  }
}
