/**
 The user collection as `register` and `login` use it. The store is a sequence
 of user documents; a user's position stands in for the document id the
 database generates. Password hashing and its check are passed in as values.
 */
module Users {
  import opened Wrappers
  import opened Documents

  type Store = seq<UserDoc>

  /** What `register` reports. */
  datatype Registration = Registered(uid: nat) | DuplicateEmail

  /** One submitted registration form, with the password already hashed. */
  datatype SignUp = SignUp(email: string, username: string, passwordHash: string)

  /** No two users share an email. */
  predicate UniqueEmails(store: Store) {
    forall i, j :: 0 <= i < |store| && 0 <= j < |store| && i != j ==> store[i].email != store[j].email
  }

  /** Some user has this email. */
  predicate HasEmail(store: Store, email: string) {
    exists i :: 0 <= i < |store| && store[i].email == email
  }

  /** Lookup by email: the first document whose email matches, if any. */
  function FindByEmail(store: Store, email: string): (r: Option<nat>)
    ensures r.Some? ==> r.value < |store| && store[r.value].email == email
    ensures r.Some? ==> forall j :: 0 <= j < r.value ==> store[j].email != email
    ensures r.None? <==> !HasEmail(store, email)
  {
    if |store| == 0 then None
    else if store[0].email == email then Some(0)
    else
      match FindByEmail(store[1..], email)
      case None => (assert forall j :: 1 <= j < |store| ==> store[j] == store[1..][j - 1]; None)
      case Some(k) => Some(k + 1)
  }

  /**
   `register`: rejects an email that is already present, leaving the store as it was;
   otherwise inserts exactly one record, with that email and no task list.
   */
  function Register(store: Store, form: SignUp): (r: (Store, Registration))
    ensures HasEmail(store, form.email) ==> r.0 == store && r.1 == DuplicateEmail
    ensures !HasEmail(store, form.email) ==>
              && r.1 == Registered(|store|)
              && |r.0| == |store| + 1
              && r.0[..|store|] == store
              && r.0[|store|] == NewUser(form.email, form.username, form.passwordHash)
  {
    if FindByEmail(store, form.email).Some? then (store, DuplicateEmail)
    else (store + [NewUser(form.email, form.username, form.passwordHash)], Registered(|store|))
  }

  /** The store after the given registrations, one after another. */
  function RegisterAll(store: Store, forms: seq<SignUp>): (r: Store)
    ensures |store| <= |r| <= |store| + |forms|
    decreases |forms|
  {
    if |forms| == 0 then store else RegisterAll(Register(store, forms[0]).0, forms[1..])
  }

  /** A registration keeps emails unique. */
  lemma RegisterPreservesUniqueEmails(store: Store, form: SignUp)
    requires UniqueEmails(store)
    ensures UniqueEmails(Register(store, form).0)
  {
  }

  /** Sequential registrations never create two users with the same email, and every submitted email ends up present. */
  lemma {:induction false} RegisterAllUniqueEmails(store: Store, forms: seq<SignUp>)
    requires UniqueEmails(store)
    ensures UniqueEmails(RegisterAll(store, forms))
    ensures forall k :: 0 <= k < |forms| ==> HasEmail(RegisterAll(store, forms), forms[k].email)
    decreases |forms|
  {
    if |forms| > 0 {
      var next := Register(store, forms[0]).0;
      RegisterPreservesUniqueEmails(store, forms[0]);
      RegisterAllUniqueEmails(next, forms[1..]);
      RegisterAllKeepsEmails(next, forms[1..], forms[0].email);
      forall k | 1 <= k < |forms|
        ensures HasEmail(RegisterAll(store, forms), forms[k].email)
      {
        assert forms[k] == forms[1..][k - 1];
      }
    }
  }

  /** Registration never removes a user, so an email once present stays present. */
  lemma {:induction false} RegisterAllKeepsEmails(store: Store, forms: seq<SignUp>, email: string)
    ensures HasEmail(store, email) ==> HasEmail(RegisterAll(store, forms), email)
    decreases |forms|
  {
    if |forms| > 0 {
      var next := Register(store, forms[0]).0;
      if HasEmail(store, email) {
        var i :| 0 <= i < |store| && store[i].email == email;
        assert next[i] == store[i];
      }
      RegisterAllKeepsEmails(next, forms[1..], email);
    }
  }

  /**
   `login`: looks the email up and accepts when `verify` (the password-hash check)
   accepts the stored hash and the submitted password.
   */
  function Login(store: Store, email: string, password: string, verify: (string, string) -> bool): (r: Option<nat>)
    ensures r.Some? ==> r.value < |store| && store[r.value].email == email && verify(store[r.value].password, password)
    ensures !HasEmail(store, email) ==> r.None?
  {
    match FindByEmail(store, email)
    case None => None
    case Some(i) => if verify(store[i].password, password) then Some(i) else None
  }

  /** With unique emails, login succeeds exactly for the one user with that email whose hash check passes. */
  lemma LoginWithUniqueEmails(store: Store, email: string, password: string, verify: (string, string) -> bool, i: nat)
    requires UniqueEmails(store)
    requires i < |store| && store[i].email == email
    ensures Login(store, email, password, verify) == (if verify(store[i].password, password) then Some(i) else None)
  {
  }
}
