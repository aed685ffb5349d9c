/** Self-registration: a duplicate e-mail is refused, otherwise one `member`
    row with `pending` membership is inserted with the profile copied verbatim. */
module RegisterUser {
  import opened Wrappers
  import opened Schema
  import opened Store

  const EmailExists := "User with this email already exists"

  /** The inserted row: serial id, the table defaults for role and membership
      status, and both timestamps from the database clock. */
  function NewMember(t: Tables, input: RegistrationInput, passwordHash: string, now: Timestamp): User {
    User(t.nextUserId, input.email, passwordHash, Member, input.profile, MembershipStatus.Pending, now, now)
  }

  /** One call of the handler; `hash` is the runtime's password hasher. */
  function RegisterStep(t: Tables, input: RegistrationInput, hash: string -> string, now: Timestamp): Step<User> {
    if FindByEmail(t, input.email).Some? then Step(Err(EmailExists), t)
    else
      var u := NewMember(t, input, hash(input.password), now);
      Step(Ok(u), InsertUser(t, u))
  }

  /** An e-mail some stored user already has is refused and nothing is inserted. */
  lemma DuplicateEmailRejected(t: Tables, input: RegistrationInput, hash: string -> string, now: Timestamp)
    requires Consistent(t)
    requires exists id :: id in t.users && t.users[id].email == input.email
    ensures RegisterStep(t, input, hash, now) == Step(Err(EmailExists), t)
  {
    FindByEmailSpec(t, input.email);
  }

  /** A fresh e-mail always registers; the new row takes the table defaults, the
      hashed password and every profile field of the input. */
  lemma NewUserHasDefaults(t: Tables, input: RegistrationInput, hash: string -> string, now: Timestamp)
    requires Consistent(t)
    requires forall id :: id in t.users ==> t.users[id].email != input.email
    ensures var s := RegisterStep(t, input, hash, now);
      && s.result.Ok?
      && s.result.value.role == Member
      && s.result.value.membershipStatus == MembershipStatus.Pending
      && s.result.value.email == input.email
      && s.result.value.passwordHash == hash(input.password)
      && s.result.value.profile == input.profile
      && s.result.value.createdAt == now && s.result.value.updatedAt == now
  {
    FindByEmailSpec(t, input.email);
  }

  /** A successful registration appends exactly one row, with the next id, to the
      table order; the other tables are untouched. */
  lemma RegisterAddsExactlyOneRow(t: Tables, input: RegistrationInput, hash: string -> string, now: Timestamp)
    requires UsersConsistent(t)
    ensures var s := RegisterStep(t, input, hash, now);
      s.result.Ok? ==>
        && s.result.value.id == t.nextUserId
        && s.result.value.id !in t.users
        && s.after.users.Keys == t.users.Keys + {s.result.value.id}
        && |s.after.users| == |t.users| + 1
        && (forall id :: id in t.users ==> s.after.users[id] == t.users[id])
        && UserRows(s.after) == UserRows(t) + [s.result.value]
        && s.after.payments == t.payments && s.after.documents == t.documents
  {
    var s := RegisterStep(t, input, hash, now);
    if s.result.Ok? {
      InsertUserAppends(t, s.result.value);
    }
  }

  lemma RegisterPreservesConsistency(t: Tables, input: RegistrationInput, hash: string -> string, now: Timestamp)
    requires Consistent(t)
    ensures Consistent(RegisterStep(t, input, hash, now).after)
  {
    var s := RegisterStep(t, input, hash, now);
    if s.result.Ok? {
      FindByEmailSpec(t, input.email);
      var users := s.after.users;
      assert forall a, b :: a in users && b in users && users[a].email == users[b].email ==> a == b;
    }
  }

  /** The handler: the e-mail lookup, then the insert. */
  method RegisterUser(db: Database, input: RegistrationInput, hash: string -> string, now: Timestamp)
    returns (r: Result<User>)
    requires db.Valid()
    modifies db
    ensures db.Valid()
    ensures Step(r, db.Snapshot()) == RegisterStep(old(db.Snapshot()), input, hash, now)
  {
    RegisterPreservesConsistency(db.Snapshot(), input, hash, now);
    var existing := db.SelectByEmail(input.email);
    if existing.Some? {
      return Err(EmailExists);
    }
    var passwordHash := hash(input.password);
    var user := User(db.nextUserId, input.email, passwordHash, Member, input.profile, MembershipStatus.Pending, now, now);
    db.users := db.users[user.id := user];
    db.nextUserId := db.nextUserId + 1;
    r := Ok(user);
  }
}
