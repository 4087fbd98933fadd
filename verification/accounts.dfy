/** The user table and the guard chains of controllers/authController.js:
    register, login, add-contact and token refresh. */
module Accounts {
  import opened Common

  /** A user record. `password` is whatever the store keeps for the password
      (the hash, in the running system); `contacts` holds user ids. */
  datatype User = User(id: UserId, email: string, password: string, contacts: seq<UserId>)

  /** The users collection in its natural order, which is the order `findOne`
      scans it in. */
  type Table = seq<User>

  /** Response bodies, each with the error text or fields the source sends. */
  datatype Body =
    | Failure(error: string)
    | ServerError
    | Registered(id: UserId, email: string)
    | LoggedIn(id: UserId, email: string, contacts: seq<UserId>)
    | ContactAdded(id: UserId, email: string, contacts: seq<UserId>)
    | Refreshed

  /** A status code, a body, and the user id a fresh token cookie was issued
      for, if any (`generateToken`). */
  datatype Reply = Reply(status: nat, body: Body, tokenFor: Option<UserId>)

  /** A handler's effect: the table afterwards and the reply. */
  datatype Outcome = Outcome(table: Table, reply: Reply)

  const ServerFailure := Reply(500, ServerError, None)

  function Ids(t: Table): set<UserId>
  {
    set i | 0 <= i < |t| :: t[i].id
  }

  /** `findOne({ email })`: the first user with that email. */
  function IndexOfEmail(t: Table, email: string, from: nat := 0): (r: Option<nat>)
    requires from <= |t|
    ensures r.Some? ==> from <= r.value < |t| && t[r.value].email == email
    ensures r.Some? ==> forall k :: from <= k < r.value ==> t[k].email != email
    ensures r.None? ==> forall k :: from <= k < |t| ==> t[k].email != email
    decreases |t| - from
  {
    if from == |t| then None
    else if t[from].email == email then Some(from)
    else IndexOfEmail(t, email, from + 1)
  }

  /** `findById(id)`: the first user with that id. */
  function IndexOfId(t: Table, id: UserId, from: nat := 0): (r: Option<nat>)
    requires from <= |t|
    ensures r.Some? ==> from <= r.value < |t| && t[r.value].id == id
    ensures r.None? ==> forall k :: from <= k < |t| ==> t[k].id != id
    decreases |t| - from
  {
    if from == |t| then None
    else if t[from].id == id then Some(from)
    else IndexOfId(t, id, from + 1)
  }

  // ------------------------------------------------------------- invariant

  predicate UniqueIds(t: Table)
  {
    forall i, j :: 0 <= i < |t| && 0 <= j < |t| && i != j ==> t[i].id != t[j].id
  }

  /** The schema's `unique: true` on email. */
  predicate UniqueEmails(t: Table)
  {
    forall i, j :: 0 <= i < |t| && 0 <= j < |t| && i != j ==> t[i].email != t[j].email
  }

  /** Contacts name existing users, never the user itself, and never twice. */
  predicate ContactsSound(t: Table)
  {
    forall i :: 0 <= i < |t| ==>
      && (forall c :: c in t[i].contacts ==> c in Ids(t))
      && t[i].id !in t[i].contacts
      && (forall a, b :: 0 <= a < b < |t[i].contacts| ==> t[i].contacts[a] != t[i].contacts[b])
  }

  /** The contact relation is symmetric. */
  predicate Symmetric(t: Table)
  {
    forall i, j :: 0 <= i < |t| && 0 <= j < |t| ==> (t[j].id in t[i].contacts <==> t[i].id in t[j].contacts)
  }

  predicate TableOk(t: Table)
  {
    UniqueIds(t) && UniqueEmails(t) && ContactsSound(t) && Symmetric(t)
  }

  // -------------------------------------------------------------- register

  /** `registerUser`: an empty email or password is a 400; an unreachable store
      makes `findOne` throw, a 500; a taken email is a 400; `User.create` then
      rejects an id already in use (a 500) or stores the user with no contacts,
      issues a token for it and answers 201. */
  function RegisterUser(t: Table, email: string, password: string, newId: UserId, storeUp: bool): (o: Outcome)
    ensures o.reply.status != 201 ==> o.table == t && o.reply.tokenFor.None?
    ensures email == "" || password == "" ==> o.reply == Reply(400, Failure("Email and password are required"), None)
    ensures email != "" && password != "" && storeUp && IndexOfEmail(t, email).Some? ==>
              o.reply == Reply(400, Failure("User already exists"), None)
    ensures o.reply.status == 201 <==>
              email != "" && password != "" && storeUp && newId !in Ids(t)
              && forall k :: 0 <= k < |t| ==> t[k].email != email
    ensures o.reply.status == 201 ==>
              && o.table == t + [User(newId, email, password, [])]
              && o.reply == Reply(201, Registered(newId, email), Some(newId))
    ensures TableOk(t) ==> TableOk(o.table)
  {
    if email == "" || password == "" then Outcome(t, Reply(400, Failure("Email and password are required"), None))
    else if !storeUp then Outcome(t, ServerFailure)
    else if IndexOfEmail(t, email).Some? then Outcome(t, Reply(400, Failure("User already exists"), None))
    else if newId in Ids(t) then Outcome(t, ServerFailure)
    else
      var t' := t + [User(newId, email, password, [])];
      RegisterKeepsTableOk(t, email, password, newId);
      Outcome(t', Reply(201, Registered(newId, email), Some(newId)))
  }

  /** Appending a user with a fresh id, a fresh email and no contacts keeps
      the table invariant. */
  lemma RegisterKeepsTableOk(t: Table, email: string, password: string, newId: UserId)
    requires newId !in Ids(t)
    requires forall k :: 0 <= k < |t| ==> t[k].email != email
    ensures TableOk(t) ==> TableOk(t + [User(newId, email, password, [])])
  {
    var t' := t + [User(newId, email, password, [])];
    if TableOk(t) {
      assert Ids(t') == Ids(t) + {newId} by {
        forall x | x in Ids(t') ensures x in Ids(t) + {newId} {
          var i :| 0 <= i < |t'| && t'[i].id == x;
          if i < |t| { assert t[i].id == x; }
        }
        forall x | x in Ids(t) ensures x in Ids(t') {
          var i :| 0 <= i < |t| && t[i].id == x;
          assert t'[i].id == x;
        }
        assert t'[|t|].id == newId;
      }
      forall i | 0 <= i < |t| ensures t[i].id in Ids(t) { }
      forall i | 0 <= i < |t| ensures newId !in t[i].contacts { }
    }
  }

  // ----------------------------------------------------------------- login

  /** `loginUser`: an unknown email and a wrong password get the same 401;
      otherwise a token is issued and the user's fields are returned. The
      password comparison (bcrypt) is the oracle `matches(plain, stored)`. A
      missing password is handed to the comparison as `undefined` once the
      email is found; the library rejects a non-string, and the `catch`
      answers 500. */
  function LoginUser(t: Table, email: string, password: Option<string>, storeUp: bool,
                     matches: (string, string) -> bool): (r: Reply)
    ensures r.status == 200 <==>
              && storeUp && IndexOfEmail(t, email).Some? && password.Some?
              && matches(password.value, t[IndexOfEmail(t, email).value].password)
    ensures r.status == 200 ==>
              var u := t[IndexOfEmail(t, email).value];
              && u.email == email
              && r == Reply(200, LoggedIn(u.id, u.email, u.contacts), Some(u.id))
    ensures r.status != 200 ==> r.tokenFor.None?
    ensures !storeUp || (IndexOfEmail(t, email).Some? && password.None?) <==> r == ServerFailure
    ensures r.status != 200 && r != ServerFailure ==> r == Reply(401, Failure("Invalid credentials"), None)
  {
    if !storeUp then ServerFailure
    else
      match IndexOfEmail(t, email)
      case None => Reply(401, Failure("Invalid credentials"), None)
      case Some(i) =>
        match password
        case None => ServerFailure
        case Some(p) =>
          if !matches(p, t[i].password) then Reply(401, Failure("Invalid credentials"), None)
          else Reply(200, LoggedIn(t[i].id, t[i].email, t[i].contacts), Some(t[i].id))
  }

  /** A caller cannot tell an unknown email from a wrong password. */
  lemma LoginFailuresLookAlike(t: Table, unknown: string, known: string, p1: Option<string>, p2: string,
                               matches: (string, string) -> bool)
    requires forall k :: 0 <= k < |t| ==> t[k].email != unknown
    requires IndexOfEmail(t, known).Some? && !matches(p2, t[IndexOfEmail(t, known).value].password)
    ensures LoginUser(t, unknown, p1, true, matches) == LoginUser(t, known, Some(p2), true, matches)
    ensures LoginUser(t, unknown, p1, true, matches).status == 401
  {
  }

  /** Without a password the two cases do differ: a registered email gets a
      500 and an unknown one a 401. */
  lemma MissingPasswordRevealsAccount(t: Table, unknown: string, known: string, matches: (string, string) -> bool)
    requires forall k :: 0 <= k < |t| ==> t[k].email != unknown
    requires IndexOfEmail(t, known).Some?
    ensures LoginUser(t, known, None, true, matches).status == 500
    ensures LoginUser(t, unknown, None, true, matches).status == 401
  {
  }

  // ----------------------------------------------------------- add contact

  /** The two records `addContact` pushes onto before saving: the caller gains
      the contact and the contact gains the caller. */
  function Linked(t: Table, ci: nat, ki: nat): (r: (User, User))
    requires ci < |t| && ki < |t|
    ensures r.0 == t[ci].(contacts := r.0.contacts) && r.1 == t[ki].(contacts := r.1.contacts)
    ensures |r.0.contacts| == |t[ci].contacts| + 1 && |r.1.contacts| == |t[ki].contacts| + 1
    ensures r.0.contacts[..|t[ci].contacts|] == t[ci].contacts && r.0.contacts[|t[ci].contacts|] == t[ki].id
    ensures r.1.contacts[..|t[ki].contacts|] == t[ki].contacts && r.1.contacts[|t[ki].contacts|] == t[ci].id
  {
    (t[ci].(contacts := t[ci].contacts + [t[ki].id]), t[ki].(contacts := t[ki].contacts + [t[ci].id]))
  }

  /** The add-contact guards pass: the email names a user other than the
      caller who is not yet in the caller's list. */
  predicate Linkable(t: Table, me: UserId, email: string)
    requires me in Ids(t)
  {
    && IndexOfEmail(t, email).Some?
    && t[IndexOfEmail(t, email).value].id != me
    && t[IndexOfEmail(t, email).value].id !in t[IndexOfId(t, me).value].contacts
  }

  /** `addContact` for the caller `me` the auth middleware looked up. An
      unreachable store is a 500; an unknown email a 404; the caller's own
      email a 400; a contact already in the caller's list a 400. Otherwise both
      records gain each other and are saved concurrently: each save lands or
      not on its own, and unless both land the reply is a 500. */
  function AddContact(t: Table, me: UserId, email: string, storeUp: bool, savedMe: bool, savedContact: bool): (o: Outcome)
    requires me in Ids(t)
    ensures |o.table| == |t|
    ensures o.reply.tokenFor.None?
    ensures !storeUp ==> o == Outcome(t, ServerFailure)
    ensures storeUp && IndexOfEmail(t, email).None? ==> o == Outcome(t, Reply(404, Failure("User not found"), None))
    ensures storeUp && IndexOfEmail(t, email).Some? && t[IndexOfEmail(t, email).value].id == me ==>
              o == Outcome(t, Reply(400, Failure("Cannot add yourself"), None))
    ensures storeUp && IndexOfEmail(t, email).Some? && t[IndexOfEmail(t, email).value].id != me
            && t[IndexOfEmail(t, email).value].id in t[IndexOfId(t, me).value].contacts ==>
              o == Outcome(t, Reply(400, Failure("Contact already added"), None))
    ensures o.reply.status == 400 || o.reply.status == 404 ==> o.table == t
    ensures o.reply.status == 200 <==> storeUp && Linkable(t, me, email) && savedMe && savedContact
    ensures storeUp && Linkable(t, me, email) && !(savedMe && savedContact) ==> o.reply == ServerFailure
    ensures storeUp && Linkable(t, me, email) ==>
              && var ci := IndexOfId(t, me).value;
              && var ki := IndexOfEmail(t, email).value;
              && ci != ki
              && o.table[ci] == (if savedMe then Linked(t, ci, ki).0 else t[ci])
              && o.table[ki] == (if savedContact then Linked(t, ci, ki).1 else t[ki])
              && (forall k :: 0 <= k < |t| && k != ci && k != ki ==> o.table[k] == t[k])
    ensures o.reply.status == 200 ==>
              && storeUp && savedMe && savedContact
              && var ci := IndexOfId(t, me).value;
              && var ki := IndexOfEmail(t, email).value;
              && ci != ki && t[ki].email == email
              && t[ki].id !in t[ci].contacts
              && o.table[ci].contacts == t[ci].contacts + [t[ki].id]
              && o.table[ki].contacts == t[ki].contacts + [me]
              && (forall k :: 0 <= k < |t| && k != ci && k != ki ==> o.table[k] == t[k])
              && o.reply.body == ContactAdded(me, t[ci].email, o.table[ci].contacts)
    ensures TableOk(t) && savedMe == savedContact ==> TableOk(o.table)
  {
    var ci := IndexOfId(t, me).value;
    if !storeUp then Outcome(t, ServerFailure)
    else
      match IndexOfEmail(t, email)
      case None => Outcome(t, Reply(404, Failure("User not found"), None))
      case Some(ki) =>
        if t[ki].id == me then Outcome(t, Reply(400, Failure("Cannot add yourself"), None))
        else if t[ki].id in t[ci].contacts then Outcome(t, Reply(400, Failure("Contact already added"), None))
        else
          var (caller, contact) := Linked(t, ci, ki);
          var t1 := if savedMe then t[ci := caller] else t;
          var t2 := if savedContact then t1[ki := contact] else t1;
          if savedMe && savedContact then
            LinkKeepsTableOk(t, ci, ki);
            Outcome(t2, Reply(200, ContactAdded(me, caller.email, caller.contacts), None))
          else
            Outcome(t2, ServerFailure)
  }

  /** Linking rewrites two records' contacts only: ids and emails stay put. */
  lemma LinkKeepsIdsAndEmails(t: Table, ci: nat, ki: nat)
    requires ci < |t| && ki < |t| && ci != ki
    ensures var t' := t[ci := Linked(t, ci, ki).0][ki := Linked(t, ci, ki).1];
            && |t'| == |t|
            && (forall i :: 0 <= i < |t| ==> t'[i].id == t[i].id && t'[i].email == t[i].email)
            && Ids(t') == Ids(t)
  {
    var t' := t[ci := Linked(t, ci, ki).0][ki := Linked(t, ci, ki).1];
    assert forall i :: 0 <= i < |t| ==> t'[i].id == t[i].id && t'[i].email == t[i].email;
    forall x | x in Ids(t') ensures x in Ids(t) {
      var i :| 0 <= i < |t'| && t'[i].id == x;
      assert t[i].id == x;
    }
    forall x | x in Ids(t) ensures x in Ids(t') {
      var i :| 0 <= i < |t| && t[i].id == x;
      assert t'[i].id == x;
    }
  }

  /** Linking keeps contacts sound: both new entries name existing users other
      than the record's own, and neither was already listed. */
  lemma LinkKeepsContactsSound(t: Table, ci: nat, ki: nat)
    requires ci < |t| && ki < |t| && ci != ki
    requires UniqueIds(t) && ContactsSound(t) && Symmetric(t)
    requires t[ki].id !in t[ci].contacts
    ensures ContactsSound(t[ci := Linked(t, ci, ki).0][ki := Linked(t, ci, ki).1])
  {
    var t' := t[ci := Linked(t, ci, ki).0][ki := Linked(t, ci, ki).1];
    LinkKeepsIdsAndEmails(t, ci, ki);
    assert t[ci].id !in t[ki].contacts;
    assert t[ci].id in Ids(t) && t[ki].id in Ids(t);
    forall i | 0 <= i < |t'|
      ensures && (forall c :: c in t'[i].contacts ==> c in Ids(t'))
              && t'[i].id !in t'[i].contacts
              && (forall a, b :: 0 <= a < b < |t'[i].contacts| ==> t'[i].contacts[a] != t'[i].contacts[b])
    {
      if i == ci || i == ki {
        var cs := t'[i].contacts;
        var old_ := t[i].contacts;
        var added := if i == ci then t[ki].id else t[ci].id;
        assert cs == old_ + [added];
        assert added != t[i].id;
        assert added !in old_;
        forall a, b | 0 <= a < b < |cs| ensures cs[a] != cs[b] {
          if b == |old_| {
            assert cs[a] == old_[a];
          } else {
            assert cs[a] == old_[a] && cs[b] == old_[b];
          }
        }
      }
    }
  }

  /** Linking two users who were not contacts keeps the relation symmetric. */
  lemma LinkKeepsSymmetry(t: Table, ci: nat, ki: nat)
    requires ci < |t| && ki < |t| && ci != ki
    requires UniqueIds(t) && Symmetric(t)
    ensures Symmetric(t[ci := Linked(t, ci, ki).0][ki := Linked(t, ci, ki).1])
  {
    var t' := t[ci := Linked(t, ci, ki).0][ki := Linked(t, ci, ki).1];
    LinkKeepsIdsAndEmails(t, ci, ki);
    forall i, j | 0 <= i < |t| && 0 <= j < |t|
      ensures t'[j].id in t'[i].contacts <==> t'[i].id in t'[j].contacts
    {
      assert t'[j].id in t'[i].contacts <==>
        t[j].id in t[i].contacts || (i == ci && j == ki) || (i == ki && j == ci);
      assert t'[i].id in t'[j].contacts <==>
        t[i].id in t[j].contacts || (j == ci && i == ki) || (j == ki && i == ci);
    }
  }

  /** Linking two distinct users that were not yet contacts keeps the table
      invariant. */
  lemma LinkKeepsTableOk(t: Table, ci: nat, ki: nat)
    requires ci < |t| && ki < |t| && ci != ki
    requires t[ki].id !in t[ci].contacts
    ensures TableOk(t) ==> TableOk(t[ci := Linked(t, ci, ki).0][ki := Linked(t, ci, ki).1])
  {
    if TableOk(t) {
      LinkKeepsIdsAndEmails(t, ci, ki);
      LinkKeepsContactsSound(t, ci, ki);
      LinkKeepsSymmetry(t, ci, ki);
    }
  }

  /** The two saves are not atomic: whenever the guards pass on a well-formed
      table and only the caller's save lands, the reply is a 500 and the
      contact relation is left one-sided. */
  lemma PartialSaveBreaksSymmetry(t: Table, me: UserId, email: string)
    requires TableOk(t) && me in Ids(t) && Linkable(t, me, email)
    ensures AddContact(t, me, email, true, true, false).reply == ServerFailure
    ensures !Symmetric(AddContact(t, me, email, true, true, false).table)
  {
    var o := AddContact(t, me, email, true, true, false);
    var ci := IndexOfId(t, me).value;
    var ki := IndexOfEmail(t, email).value;
    assert t[ci].id !in t[ki].contacts;
    assert o.table[ki] == t[ki];
    assert o.table[ci].id == me && o.table[ki].id == t[ki].id;
    assert o.table[ki].id in o.table[ci].contacts by {
      assert o.table[ci].contacts[|t[ci].contacts|] == t[ki].id;
    }
    assert o.table[ci].id !in o.table[ki].contacts;
  }

  // --------------------------------------------------------------- refresh

  /** `refreshToken`: no cookie is a 401, a token the verifier rejects a 403;
      otherwise a new token is issued for the id in the old one. Nothing checks
      that the user still exists. */
  function RefreshToken(cookie: Option<Token>, verify: Verifier): (r: Reply)
    ensures !Truthy(cookie) ==> r == Reply(401, Failure("Token missing"), None)
    ensures Truthy(cookie) && verify(cookie.value).None? ==> r == Reply(403, Failure("Invalid token"), None)
    ensures r.status == 200 <==> Truthy(cookie) && verify(cookie.value).Some?
    ensures r.status == 200 ==> r.tokenFor == verify(cookie.value) && r.body == Refreshed
  {
    if !Truthy(cookie) then Reply(401, Failure("Token missing"), None)
    else
      match verify(cookie.value)
      case None => Reply(403, Failure("Invalid token"), None)
      case Some(id) => Reply(200, Refreshed, Some(id))
  }
}
