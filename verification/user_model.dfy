/**
 The user document (`server/models/User.js`): required fields, the unique
 e-mail index, the pre-save hook that hashes the password when it has been set,
 and `comparePassword`. The bcrypt library is replaced by an idealised hash: a
 digest records the salt and the part of the password bcrypt reads (its first
 72 characters; bcrypt ignores the rest), and nothing but `Compare` looks inside
 it.
 */
module UserModel {

  type UserId = nat

  /** Milliseconds since the epoch, as `Date.now()` returns them. */
  type Timestamp = nat

  type Salt = nat

  /** bcrypt reads at most this many characters of a password. */
  const BcryptMaxKey: nat := 72

  /** The part of a password that bcrypt hashes. */
  function BcryptKey(password: string): (k: string)
    ensures |k| <= BcryptMaxKey
    ensures |k| <= |password| && k == password[..|k|]
    ensures |password| <= BcryptMaxKey ==> k == password
    ensures |password| > BcryptMaxKey ==> k == password[..BcryptMaxKey]
  {
    if |password| <= BcryptMaxKey then password else password[..BcryptMaxKey]
  }

  /** A bcrypt hash, as an opaque value. */
  datatype Digest = Digest(salt: Salt, key: string)

  /** `bcrypt.hash(password, salt)`. */
  function Hash(password: string, salt: Salt): Digest
  {
    Digest(salt, BcryptKey(password))
  }

  /** `bcrypt.compare(candidate, digest)`: re-hashes the candidate with the
      digest's salt and compares. */
  predicate Compare(candidate: string, d: Digest)
  {
    Hash(candidate, d.salt) == d
  }

  /** A password matches its own hash, whatever the salt. */
  lemma CompareOwnHash(password: string, salt: Salt)
    ensures Compare(password, Hash(password, salt))
  {
  }

  /** For passwords of at most 72 characters, `Compare` accepts exactly the
      hashed password. */
  lemma CompareIsExactForShortPasswords(password: string, candidate: string, salt: Salt)
    requires |password| <= BcryptMaxKey && |candidate| <= BcryptMaxKey
    ensures Compare(candidate, Hash(password, salt)) <==> candidate == password
  {
  }

  /** Passwords that agree on their first 72 characters are interchangeable. */
  lemma LongPasswordsShareTheirPrefix(password: string, candidate: string, salt: Salt)
    requires |password| >= BcryptMaxKey && |candidate| >= BcryptMaxKey
    requires password[..BcryptMaxKey] == candidate[..BcryptMaxKey]
    ensures Compare(candidate, Hash(password, salt))
  {
  }

  /** The `password` path: a plaintext that has been set and not yet saved, or
      the stored hash. Setting the path is the only way to modify it, so
      `isModified("password")` holds exactly when it holds a plaintext. */
  datatype Secret = Plain(text: string) | Hashed(digest: Digest)

  datatype UserDoc = UserDoc(id: UserId, name: string, email: string, password: Secret, date: Timestamp)

  /** `this.isModified("password")`. */
  predicate IsPasswordModified(doc: UserDoc)
  {
    doc.password.Plain?
  }

  /** `new User({ name, email, password })`: the password path is set, hence
      modified, and `date` defaults to the creation time. */
  function NewUser(id: UserId, name: string, email: string, password: string, now: Timestamp): (doc: UserDoc)
    ensures IsPasswordModified(doc) && doc.password.text == password
    ensures doc.id == id && doc.name == name && doc.email == email && doc.date == now
  {
    UserDoc(id, name, email, Plain(password), now)
  }

  /** The `required: true` validators: name, e-mail and password must be
      non-empty strings. */
  predicate HasRequiredFields(doc: UserDoc)
  {
    && doc.name != ""
    && doc.email != ""
    && (doc.password.Plain? ==> doc.password.text != "")
  }

  /** The pre-save hook: hashes the password with a fresh salt when it was
      modified, and otherwise leaves the document alone. */
  function PreSave(doc: UserDoc, salt: Salt): (r: UserDoc)
    ensures r.password.Hashed?
    ensures r.id == doc.id && r.name == doc.name && r.email == doc.email && r.date == doc.date
    ensures !IsPasswordModified(doc) ==> r == doc
    ensures IsPasswordModified(doc) ==> Compare(doc.password.text, r.password.digest)
  {
    match doc.password
    case Hashed(_) => doc
    case Plain(p) =>
      CompareOwnHash(p, salt);
      doc.(password := Hashed(Hash(p, salt)))
  }

  /** Saving a saved document again does not hash the hash: the stored
      password still matches the original plaintext. */
  lemma NoDoubleHashing(doc: UserDoc, salt1: Salt, salt2: Salt)
    requires IsPasswordModified(doc)
    ensures PreSave(PreSave(doc, salt1), salt2) == PreSave(doc, salt1)
    ensures Compare(doc.password.text, PreSave(PreSave(doc, salt1), salt2).password.digest)
  {
  }

  /** `user.comparePassword(entered)` on a saved document. */
  predicate ComparePassword(doc: UserDoc, entered: string)
  {
    doc.password.Hashed? && Compare(entered, doc.password.digest)
  }

  /** After the pre-save hook has hashed a password that was set,
      `comparePassword` accepts a candidate exactly when bcrypt reads the same
      key from it as from the saved password. */
  lemma ComparePasswordAfterSave(doc: UserDoc, salt: Salt, candidate: string)
    requires IsPasswordModified(doc)
    ensures ComparePassword(PreSave(doc, salt), candidate) <==> BcryptKey(candidate) == BcryptKey(doc.password.text)
  {
  }

  /** The `users` collection, keyed by e-mail: the unique index on `email`
      makes an e-mail name at most one user. */
  type Users = map<string, UserDoc>

  /** Every stored document sits under its own e-mail, holds a hash and not a
      plaintext, has its required fields, and ids are unique. */
  predicate WellFormed(users: Users)
  {
    && (forall e :: e in users ==> users[e].email == e && users[e].password.Hashed? && HasRequiredFields(users[e]))
    && (forall e1, e2 :: e1 in users && e2 in users && users[e1].id == users[e2].id ==> e1 == e2)
  }

  /** Some stored user already has id `id`. */
  predicate IdTaken(users: Users, id: UserId)
  {
    exists e :: e in users && users[e].id == id
  }
}
