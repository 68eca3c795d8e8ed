/** controllers/AccountController.js: the duplicate-email rules of registration and profile update,
    and the address book. Every handler here except `register` runs behind the authentication
    middleware, which loads the caller's row afresh and refuses soft-deleted accounts; the handlers
    therefore take the caller's id and require that it names a live user. */
module AccountController {
  import opened Wrappers
  import opened Js
  import opened Records
  import opened Database
  import opened Http

  const EmailInUse := "Bu e-posta adresi zaten kullanılıyor"
  const NameAndEmailRequired := "Ad ve e-posta alanları zorunludur"

  /** The fields of a user a response may show; the password hash is never sent. */
  datatype PublicUser = PublicUser(id: int, name: string, email: string, role: Role)

  function Public(u: User): (p: PublicUser)
    ensures p.id == u.id && p.name == u.name && p.email == u.email && p.role == u.role
  {
    PublicUser(u.id, u.name, u.email, u.role)
  }

  /** The caller the authentication middleware lets through. */
  ghost predicate Authenticated(users: seq<User>, userId: int)
  {
    1 <= userId <= |users| && !users[userId - 1].isDeleted
  }

  // ---------------------------------------------------------------------------------------------
  // Registration and profile
  // ---------------------------------------------------------------------------------------------

  predicate EmailTaken(users: seq<User>, email: string)
  {
    exists u :: u in users && u.email == email
  }

  /** What `register` does with `{ name, email }` and the hash of the password: a duplicate email is
      refused (soft-deleted accounts keep theirs), otherwise a `USER` is created. */
  function RegisterOutcome(users: seq<User>, name: string, email: string, passwordHash: string): (r: Result<User>)
    requires UsersWellFormed(users)
    ensures r.Ok? <==> !EmailTaken(users, email)
    ensures r.Err? ==> r.msg == EmailInUse
    ensures r.Ok? ==> && r.value == User(|users| + 1, name, email, passwordHash, USER, false)
                      && UsersWellFormed(users + [r.value])
  {
    if exists i | 0 <= i < |users| :: users[i].email == email then Err(EmailInUse)
    else
      var u := User(|users| + 1, name, email, passwordHash, USER, false);
      assert forall i | 0 <= i < |users| :: users[i].email != u.email;
      Ok(u)
  }

  /** A value JavaScript treats as false in `!name || !email`: absent or empty. */
  predicate Blank(v: Option<string>)
  {
    v.None? || v.value == ""
  }

  /** What `updateProfile` does with `{ name, email }`: both must be present; a changed email must not
      belong to any other account, soft-deleted or not; then both columns are written. */
  function UpdateProfileOutcome(users: seq<User>, userId: int, name: Option<string>, email: Option<string>): (r: Result<User>)
    requires UsersWellFormed(users) && 1 <= userId <= |users|
    ensures r.Err? <==> Blank(name) || Blank(email)
                        || (email.value != users[userId - 1].email && exists u :: u in users && u.email == email.value && u.id != userId)
    ensures Blank(name) || Blank(email) ==> r == Err(NameAndEmailRequired)
    ensures r.Err? && !(Blank(name) || Blank(email)) ==> r.msg == EmailInUse
    ensures r.Ok? ==> && r.value == users[userId - 1].(name := name.value, email := email.value)
                      && UsersWellFormed(users[userId - 1 := r.value])
  {
    if Blank(name) || Blank(email) then Err(NameAndEmailRequired)
    else if email.value != users[userId - 1].email && exists i | 0 <= i < |users| :: users[i].email == email.value && users[i].id != userId then
      Err(EmailInUse)
    else
      var u := users[userId - 1].(name := name.value, email := email.value);
      assert forall i | 0 <= i < |users| && i != userId - 1 :: users[i].email != u.email;
      Ok(u)
  }

  // ---------------------------------------------------------------------------------------------
  // Address book
  // ---------------------------------------------------------------------------------------------

  /** The ids of `userId`'s addresses. */
  function OwnedBy(addresses: map<int, Address>, userId: int): (ids: set<int>)
    ensures forall k :: k in ids <==> k in addresses && addresses[k].userId == userId
  {
    set k | k in addresses && addresses[k].userId == userId
  }

  /** The ids of `userId`'s default addresses. */
  function DefaultsOf(addresses: map<int, Address>, userId: int): (ids: set<int>)
    ensures forall k :: k in ids <==> k in addresses && addresses[k].userId == userId && addresses[k].isDefault
  {
    set k | k in addresses && addresses[k].userId == userId && addresses[k].isDefault
  }

  /** Every address of another user is as it was. */
  predicate OthersUnchanged(before: map<int, Address>, after: map<int, Address>, userId: int)
  {
    && (forall k | k in before && before[k].userId != userId :: k in after && after[k] == before[k])
    && (forall k | k in after && after[k].userId != userId :: k in before && before[k] == after[k])
  }

  /** `addAddress`: the new address is the default exactly when the user had no address before. */
  function AddAddressSpec(b: AddressBook, userId: int, details: AddressDetails): (r: (Address, AddressBook))
    requires AddressesWellFormed(b.addresses, b.nextId)
    ensures r.0.isDefault <==> OwnedBy(b.addresses, userId) == {}
    ensures r.0 == Address(b.nextId, userId, details, r.0.isDefault) && b.nextId !in b.addresses
    ensures r.1 == AddressBook(b.addresses[b.nextId := r.0], b.nextId + 1)
    ensures AddressesWellFormed(r.1.addresses, r.1.nextId)
    ensures OthersUnchanged(b.addresses, r.1.addresses, userId)
  {
    var count := |OwnedBy(b.addresses, userId)|;
    var a := Address(b.nextId, userId, details, count == 0);
    (a, AddressBook(b.addresses[b.nextId := a], b.nextId + 1))
  }

  /** The `updateMany` that clears `isDefault` on every address of the user. */
  function ClearDefaults(addresses: map<int, Address>, userId: int): (r: map<int, Address>)
    ensures r.Keys == addresses.Keys
    ensures DefaultsOf(r, userId) == {}
    ensures forall k | k in addresses :: r[k] == if addresses[k].userId == userId then addresses[k].(isDefault := false) else addresses[k]
  {
    map k | k in addresses :: if addresses[k].userId == userId then addresses[k].(isDefault := false) else addresses[k]
  }

  /** Setting one address as default once the user's defaults are cleared leaves exactly that one. */
  lemma OnlyDefault(cleared: map<int, Address>, userId: int, n: int)
    requires DefaultsOf(cleared, userId) == {}
    requires n in cleared && cleared[n].userId == userId
    ensures DefaultsOf(cleared[n := cleared[n].(isDefault := true)], userId) == {n}
  {
    var after := cleared[n := cleared[n].(isDefault := true)];
    forall k | k in after && k != n
      ensures k !in DefaultsOf(after, userId)
    {
      assert after[k] == cleared[k];
    }
  }

  /** `setDefaultAddress(id)`: the clear always runs; the final update then needs an address with
      that id owned by the caller. */
  function SetDefaultSpec(b: AddressBook, userId: int, id: string): (r: (Result<Address>, AddressBook))
    requires AddressesWellFormed(b.addresses, b.nextId)
    ensures r.0.Ok? <==> ParseInt(id).Some? && ParseInt(id).value in OwnedBy(b.addresses, userId)
    ensures r.0.Ok? ==> && r.0.value == b.addresses[ParseInt(id).value].(isDefault := true)
                        && DefaultsOf(r.1.addresses, userId) == {ParseInt(id).value}
    ensures r.0.Err? ==> DefaultsOf(r.1.addresses, userId) == {}
    ensures r.1.addresses.Keys == b.addresses.Keys && r.1.nextId == b.nextId
    ensures forall k | k in b.addresses :: r.1.addresses[k].details == b.addresses[k].details
    ensures OthersUnchanged(b.addresses, r.1.addresses, userId)
    ensures AddressesWellFormed(r.1.addresses, r.1.nextId)
  {
    var cleared := ClearDefaults(b.addresses, userId);
    match ParseInt(id)
    case None => (Err(InvalidArgument), b.(addresses := cleared))
    case Some(n) =>
      if n in cleared && cleared[n].userId == userId then
        var a := cleared[n].(isDefault := true);
        OnlyDefault(cleared, userId, n);
        (Ok(a), b.(addresses := cleared[n := a]))
      else (Err(RecordNotFound), b.(addresses := cleared))
  }

  /** The body of an address update; an absent field is left as it is. */
  datatype AddressPatch = AddressPatch(title: Option<string>, fullName: Option<string>, phone: Option<string>,
                                       city: Option<string>, district: Option<string>, line: Option<string>)

  function PatchedDetails(d: AddressDetails, p: AddressPatch): (r: AddressDetails)
    ensures r.title == (if p.title.Some? then p.title.value else d.title)
    ensures r.fullName == (if p.fullName.Some? then p.fullName.value else d.fullName)
    ensures r.phone == (if p.phone.Some? then p.phone.value else d.phone)
    ensures r.city == (if p.city.Some? then p.city.value else d.city)
    ensures r.district == (if p.district.Some? then p.district.value else d.district)
    ensures r.line == (if p.line.Some? then p.line.value else d.line)
  {
    AddressDetails(if p.title.Some? then p.title.value else d.title,
                   if p.fullName.Some? then p.fullName.value else d.fullName,
                   if p.phone.Some? then p.phone.value else d.phone,
                   if p.city.Some? then p.city.value else d.city,
                   if p.district.Some? then p.district.value else d.district,
                   if p.line.Some? then p.line.value else d.line)
  }

  /** `updateAddress(id)`: only the caller's own address with that id is written, and only its
      free-text fields. */
  function UpdateAddressSpec(b: AddressBook, userId: int, id: string, patch: AddressPatch): (r: (Result<Address>, AddressBook))
    requires AddressesWellFormed(b.addresses, b.nextId)
    ensures r.0.Ok? <==> ParseInt(id).Some? && ParseInt(id).value in OwnedBy(b.addresses, userId)
    ensures r.0.Err? ==> r.1 == b
    ensures r.0.Ok? ==> && r.0.value == b.addresses[ParseInt(id).value].(details := PatchedDetails(b.addresses[ParseInt(id).value].details, patch))
                        && r.1 == b.(addresses := b.addresses[ParseInt(id).value := r.0.value])
    ensures OthersUnchanged(b.addresses, r.1.addresses, userId)
    ensures AddressesWellFormed(r.1.addresses, r.1.nextId)
  {
    match ParseInt(id)
    case None => (Err(InvalidArgument), b)
    case Some(n) =>
      if n in b.addresses && b.addresses[n].userId == userId then
        var a := b.addresses[n].(details := PatchedDetails(b.addresses[n].details, patch));
        (Ok(a), b.(addresses := b.addresses[n := a]))
      else (Err(RecordNotFound), b)
  }

  /** `deleteAddress(id)`: a hard delete of the caller's own address; no other address changes, so
      deleting the default leaves the user without one. */
  function DeleteAddressSpec(b: AddressBook, userId: int, id: string): (r: (Result<Address>, AddressBook))
    requires AddressesWellFormed(b.addresses, b.nextId)
    ensures r.0.Ok? <==> ParseInt(id).Some? && ParseInt(id).value in OwnedBy(b.addresses, userId)
    ensures r.0.Err? ==> r.1 == b
    ensures r.0.Ok? ==> && r.0.value == b.addresses[ParseInt(id).value]
                        && r.1 == b.(addresses := b.addresses - {ParseInt(id).value})
    ensures forall k | k in r.1.addresses :: k in b.addresses && r.1.addresses[k] == b.addresses[k]
    ensures OthersUnchanged(b.addresses, r.1.addresses, userId)
    ensures AddressesWellFormed(r.1.addresses, r.1.nextId)
  {
    match ParseInt(id)
    case None => (Err(InvalidArgument), b)
    case Some(n) =>
      if n in b.addresses && b.addresses[n].userId == userId then (Ok(b.addresses[n]), b.(addresses := b.addresses - {n}))
      else (Err(RecordToDeleteMissing), b)
  }

  /** Deleting the default address promotes no other one: the user is left without a default. */
  lemma DeletingDefaultLeavesNone(b: AddressBook, userId: int, id: string)
    requires AddressesWellFormed(b.addresses, b.nextId)
    requires ParseInt(id).Some? && ParseInt(id).value in DefaultsOf(b.addresses, userId)
    ensures DefaultsOf(DeleteAddressSpec(b, userId, id).1.addresses, userId) == {}
  {
    var n := ParseInt(id).value;
    var after := DeleteAddressSpec(b, userId, id).1.addresses;
    forall k | k in after && after[k].userId == userId
      ensures !after[k].isDefault
    {
      assert k != n && after[k] == b.addresses[k];
    }
  }

  /** The user's addresses with an id below `n`, in id order. */
  function AddressesBelow(addresses: map<int, Address>, userId: int, n: int): (r: seq<Address>)
    requires forall k | k in addresses :: addresses[k].id == k && 1 <= k
    decreases n
    ensures forall a | a in r :: a.id < n && a.id in addresses && addresses[a.id] == a && a.userId == userId
    ensures forall k | k in addresses && k < n && addresses[k].userId == userId :: addresses[k] in r
    ensures forall i, j | 0 <= i < j < |r| :: r[i].id < r[j].id
  {
    if n <= 0 then []
    else
      var front := AddressesBelow(addresses, userId, n - 1);
      if n - 1 in addresses && addresses[n - 1].userId == userId then front + [addresses[n - 1]] else front
  }

  /** The addresses of `s` whose `isDefault` is `d`, in the order of `s`. */
  function WithDefault(s: seq<Address>, d: bool): (r: seq<Address>)
    ensures forall a :: a in r <==> a in s && a.isDefault == d
    ensures (forall i, j | 0 <= i < j < |s| :: s[i].id < s[j].id) ==> forall i, j | 0 <= i < j < |r| :: r[i].id < r[j].id
  {
    if s == [] then []
    else
      var rest := WithDefault(s[1..], d);
      assert forall a | a in s[1..] :: a in s;
      if s[0].isDefault == d then [s[0]] + rest else rest
  }

  /** `getAddresses`: every address of the caller, each once, defaults first (`orderBy: { isDefault:
      'desc' }`); addresses with the same flag come in id order. */
  function GetAddresses(b: AddressBook, userId: int): (r: seq<Address>)
    requires AddressesWellFormed(b.addresses, b.nextId)
    ensures forall a :: a in r <==> a.id in OwnedBy(b.addresses, userId) && b.addresses[a.id] == a
    ensures forall i, j | 0 <= i < j < |r| :: r[i].id != r[j].id
    ensures forall i, j | 0 <= i < j < |r| && r[j].isDefault :: r[i].isDefault
  {
    var all := AddressesBelow(b.addresses, userId, b.nextId);
    var defaults := WithDefault(all, true);
    var others := WithDefault(all, false);
    forall i, j | 0 <= i < j < |defaults + others|
      ensures (defaults + others)[i].id != (defaults + others)[j].id
    {
      if i < |defaults| <= j {
        var x, y := (defaults + others)[i], (defaults + others)[j];
        assert x in defaults && y in others;
        assert b.addresses[x.id] == x && b.addresses[y.id] == y;
      }
    }
    defaults + others
  }

  class AccountController {
    const db: Database

    ghost predicate Valid()
      reads this, db
    {
      db.Valid()
    }

    constructor (db: Database)
      requires db.Valid()
      ensures Valid() && this.db == db
    {
      this.db := db;
    }

    /** `register`: 201 with the new account, or 400 for an email already in use. Hashing the
        password and signing the token are not part of this model: the hash is an argument. */
    method Register(name: string, email: string, passwordHash: string) returns (r: Reply<PublicUser>)
      requires Valid()
      modifies db`users
      ensures Valid()
      ensures var outcome := RegisterOutcome(old(db.users), name, email, passwordHash);
              && (outcome.Ok? ==> r == Reply(201, Ok(Public(outcome.value))) && db.users == old(db.users) + [outcome.value])
              && (outcome.Err? ==> r == Reply(400, Err(outcome.msg)) && db.users == old(db.users))
    {
      var taken := exists i | 0 <= i < |db.users| :: db.users[i].email == email;
      if taken {
        return Reply(400, Err(EmailInUse));
      }
      var user := User(|db.users| + 1, name, email, passwordHash, USER, false);
      ghost var outcome := RegisterOutcome(db.users, name, email, passwordHash);
      db.users := db.users + [user];
      r := Reply(201, Ok(Public(user)));
    }

    /** `updateProfile`: 400 for a blank field or an email another account holds, else 200 with the
        updated account. */
    method UpdateProfile(userId: int, name: Option<string>, email: Option<string>) returns (r: Reply<PublicUser>)
      requires Valid() && Authenticated(db.users, userId)
      modifies db`users
      ensures Valid()
      ensures var outcome := UpdateProfileOutcome(old(db.users), userId, name, email);
              && (outcome.Ok? ==> r == Reply(200, Ok(Public(outcome.value))) && db.users == old(db.users)[userId - 1 := outcome.value])
              && (outcome.Err? ==> r == Reply(400, Err(outcome.msg)) && db.users == old(db.users))
    {
      if Blank(name) || Blank(email) {
        return Reply(400, Err(NameAndEmailRequired));
      }
      if email.value != db.users[userId - 1].email {
        var taken := exists i | 0 <= i < |db.users| :: db.users[i].email == email.value && db.users[i].id != userId;
        if taken {
          return Reply(400, Err(EmailInUse));
        }
      }
      var user := db.users[userId - 1].(name := name.value, email := email.value);
      ghost var outcome := UpdateProfileOutcome(db.users, userId, name, email);
      db.users := db.users[userId - 1 := user];
      r := Reply(200, Ok(Public(user)));
    }

    /** `addAddress`: counts the caller's addresses, then inserts the new one; 201. */
    method AddAddress(userId: int, details: AddressDetails) returns (r: Reply<Address>)
      requires Valid() && Authenticated(db.users, userId)
      modifies db`addresses, db`nextAddressId
      ensures Valid()
      ensures r.status == 201 && r.body.Ok?
      ensures (r.body.value, db.AddressState()) == AddAddressSpec(old(db.AddressState()), userId, details)
    {
      var count := |OwnedBy(db.addresses, userId)|;
      var address := Address(db.nextAddressId, userId, details, count == 0);
      ghost var expected := AddAddressSpec(db.AddressState(), userId, details);
      db.addresses, db.nextAddressId := db.addresses[address.id := address], db.nextAddressId + 1;
      r := Reply(201, Ok(address));
    }

    /** `setDefaultAddress(id)`: the `updateMany` clearing every default of the caller, then the
        `update` of the chosen address; 200, or 500 once the update fails. */
    method SetDefaultAddress(userId: int, id: string) returns (r: Reply<Address>)
      requires Valid() && Authenticated(db.users, userId)
      modifies db`addresses
      ensures Valid()
      ensures var (outcome, after) := SetDefaultSpec(old(db.AddressState()), userId, id);
              && r == Reply(if outcome.Ok? then 200 else 500, outcome)
              && db.AddressState() == after
    {
      ghost var spec := SetDefaultSpec(db.AddressState(), userId, id);
      ClearUserDefaults(userId);
      var n := ParseInt(id);
      if n.None? {
        return Reply(500, Err(InvalidArgument));
      }
      if !(n.value in db.addresses && db.addresses[n.value].userId == userId) {
        return Reply(500, Err(RecordNotFound));
      }
      var address := db.addresses[n.value].(isDefault := true);
      var updated := db.addresses[n.value := address];
      assert updated == spec.1.addresses;
      assert forall k | k in updated :: updated[k].userId == db.addresses[k].userId;
      db.StoreAddresses(updated);
      r := Reply(200, Ok(address));
    }

    /** The `updateMany` of `setDefaultAddress`. */
    method ClearUserDefaults(userId: int)
      requires Valid()
      modifies db`addresses
      ensures Valid()
      ensures db.addresses == ClearDefaults(old(db.addresses), userId)
    {
      db.addresses := ClearDefaults(db.addresses, userId);
    }

    /** `updateAddress(id)`: 200 with the address, or 500 when the caller owns no address with that id. */
    method UpdateAddress(userId: int, id: string, patch: AddressPatch) returns (r: Reply<Address>)
      requires Valid() && Authenticated(db.users, userId)
      modifies db`addresses
      ensures Valid()
      ensures var (outcome, after) := UpdateAddressSpec(old(db.AddressState()), userId, id, patch);
              && r == Reply(if outcome.Ok? then 200 else 500, outcome)
              && db.AddressState() == after
    {
      var n := ParseInt(id);
      if n.None? {
        return Reply(500, Err(InvalidArgument));
      }
      if !(n.value in db.addresses && db.addresses[n.value].userId == userId) {
        return Reply(500, Err(RecordNotFound));
      }
      var address := db.addresses[n.value].(details := PatchedDetails(db.addresses[n.value].details, patch));
      db.addresses := db.addresses[n.value := address];
      r := Reply(200, Ok(address));
    }

    /** `deleteAddress(id)`: 204 with no body, or 500 when the caller owns no address with that id. */
    method DeleteAddress(userId: int, id: string) returns (r: Reply<()>)
      requires Valid() && Authenticated(db.users, userId)
      modifies db`addresses
      ensures Valid()
      ensures var (outcome, after) := DeleteAddressSpec(old(db.AddressState()), userId, id);
              && r == (if outcome.Ok? then Reply(204, Ok(())) else Reply(500, Err(outcome.msg)))
              && db.AddressState() == after
    {
      var n := ParseInt(id);
      if n.None? {
        return Reply(500, Err(InvalidArgument));
      }
      if !(n.value in db.addresses && db.addresses[n.value].userId == userId) {
        return Reply(500, Err(RecordToDeleteMissing));
      }
      db.addresses := db.addresses - {n.value};
      r := Reply(204, Ok(()));
    }
  }
}
