/** Household accounts: a primary resident adds family members as
    sub-accounts that share the unit, lists them, and removes them. */
module Household {
  import opened Common
  import opened Types
  import opened BackendStore

  const OnlyPrimaryCanAdd := "Only primary account holders can add sub-accounts"
  const OnlyPrimaryCanView := "Only primary account holders can view household settings"
  const EmailRegistered := "Email already registered"
  const CreateFailed := "Failed to create sub-account"
  const NotAuthorizedToRemove := "Not authorized to remove this user"

  /** An account that names a primary account is a sub-account. */
  predicate IsSubAccount(u: User) {
    Truthy(u.primaryUserId)
  }

  /** The sub-account created for `primary`. */
  function SubAccount(primary: User, newId: string, name: string, email: string, hash: string): (u: User)
    ensures u.role == Resident && u.isApproved && u.primaryUserId == Some(primary.id)
    ensures u.estateId == primary.estateId && u.unitNumber == primary.unitNumber
    ensures u.id == newId && u.name == name && u.email == Some(email) && u.password == hash
  {
    User(newId, name, Some(email), None, false, hash, Resident, primary.estateId, primary.unitNumber, true,
         Some(primary.id), None, None)
  }

  /** `addSubAccount`. Only a known primary account may add; a taken email
      is refused next. A request without an email, a password or a name
      makes the lookup, the hashing or the insert throw, which answers 500.
      `hashOf` is the password hashing. */
  function AddSubAccount(db: Db, callerId: string, name: Option<string>, email: Option<string>,
                         password: Option<string>, hashOf: string -> string, newId: string)
    : (r: Response<(PublicUser, Db)>)
    ensures UserById(db, callerId).None? ==> r == Refuse(403, OnlyPrimaryCanAdd)
    ensures UserById(db, callerId).Some? && IsSubAccount(db.users[UserById(db, callerId).value])
            ==> r == Refuse(403, OnlyPrimaryCanAdd)
    ensures r.Respond? <==>
              UserById(db, callerId).Some? && !IsSubAccount(db.users[UserById(db, callerId).value])
              && email.Some? && UserByEmail(db, email.value).None? && password.Some? && name.Some?
    ensures r.Respond? ==>
              var sub := SubAccount(db.users[UserById(db, callerId).value], newId, name.value, email.value,
                                    hashOf(password.value));
              r == Respond(201, (WithoutPassword(sub), db.(users := db.users + [sub])))
    ensures (r.Refuse? && UserById(db, callerId).Some? && !IsSubAccount(db.users[UserById(db, callerId).value])
             && email.Some? && UserByEmail(db, email.value).Some?) ==> r == Refuse(400, EmailRegistered)
  {
    match UserById(db, callerId)
    case None => Refuse(403, OnlyPrimaryCanAdd)
    case Some(i) =>
      var primary := db.users[i];
      if IsSubAccount(primary) then Refuse(403, OnlyPrimaryCanAdd)
      else if email.None? then Refuse(500, CreateFailed)
      else if UserByEmail(db, email.value).Some? then Refuse(400, EmailRegistered)
      else if password.None? || name.None? then Refuse(500, CreateFailed)
      else
        var sub := SubAccount(primary, newId, name.value, email.value, hashOf(password.value));
        Respond(201, (WithoutPassword(sub), db.(users := db.users + [sub])))
  }

  /** The public forms of some users, in order. */
  function PublicUsers(us: seq<User>): (r: seq<PublicUser>)
    ensures |r| == |us|
    ensures forall i :: 0 <= i < |us| ==> r[i] == WithoutPassword(us[i])
  {
    if us == [] then [] else [WithoutPassword(us[0])] + PublicUsers(us[1..])
  }

  predicate SubAccountOf(u: User, primaryId: string) {
    u.primaryUserId == Some(primaryId)
  }

  /** `v` is the public form of some sub-account of `primaryId`. */
  predicate ListedMember(db: Db, primaryId: string, v: PublicUser) {
    exists j :: 0 <= j < |db.users| && SubAccountOf(db.users[j], primaryId) && v == WithoutPassword(db.users[j])
  }

  /** The household list: the public forms of the sub-accounts, in order. */
  function Members(db: Db, primaryId: string): (r: seq<PublicUser>)
    ensures forall v :: v in r <==> ListedMember(db, primaryId, v)
  {
    var subs := Filter(db.users, (u: User) => SubAccountOf(u, primaryId));
    ListedAreSubAccounts(db, primaryId, subs);
    SubAccountsAreListed(db, primaryId, subs);
    PublicUsers(subs)
  }

  lemma ListedAreSubAccounts(db: Db, primaryId: string, subs: seq<User>)
    requires subs == Filter(db.users, (u: User) => SubAccountOf(u, primaryId))
    ensures forall v :: v in PublicUsers(subs) ==> ListedMember(db, primaryId, v)
  {
    var r := PublicUsers(subs);
    forall v | v in r ensures ListedMember(db, primaryId, v) {
      var k :| 0 <= k < |r| && r[k] == v;
      var j :| 0 <= j < |db.users| && db.users[j] == subs[k];
      assert SubAccountOf(db.users[j], primaryId) && v == WithoutPassword(db.users[j]);
    }
  }

  lemma SubAccountsAreListed(db: Db, primaryId: string, subs: seq<User>)
    requires subs == Filter(db.users, (u: User) => SubAccountOf(u, primaryId))
    ensures forall v :: ListedMember(db, primaryId, v) ==> v in PublicUsers(subs)
  {
    var r := PublicUsers(subs);
    forall v | ListedMember(db, primaryId, v) ensures v in r {
      var j :| 0 <= j < |db.users| && SubAccountOf(db.users[j], primaryId) && v == WithoutPassword(db.users[j]);
      assert db.users[j] in subs;
      var k :| 0 <= k < |subs| && subs[k] == db.users[j];
      assert r[k] == v;
    }
  }

  /** `getHousehold`: 404 for an unknown caller, 403 for a sub-account, and
      otherwise the caller's sub-accounts without their passwords. */
  function GetHousehold(db: Db, callerId: string): (r: Response<seq<PublicUser>>)
    ensures UserById(db, callerId).None? ==> r == Refuse(404, "User not found")
    ensures UserById(db, callerId).Some? && IsSubAccount(db.users[UserById(db, callerId).value])
            ==> r == Refuse(403, OnlyPrimaryCanView)
    ensures r.Respond? <==> UserById(db, callerId).Some? && !IsSubAccount(db.users[UserById(db, callerId).value])
    ensures r.Respond? ==> r.status == 200 && forall v :: v in r.value <==> ListedMember(db, callerId, v)
  {
    match UserById(db, callerId)
    case None => Refuse(404, "User not found")
    case Some(i) =>
      if IsSubAccount(db.users[i]) then Refuse(403, OnlyPrimaryCanView)
      else Respond(200, Members(db, callerId))
  }

  /** The store without the user at `i`. */
  function RemoveAt(users: seq<User>, i: nat): (r: seq<User>)
    requires i < |users|
    ensures |r| == |users| - 1
    ensures forall j :: 0 <= j < i ==> r[j] == users[j]
    ensures forall j :: i <= j < |r| ==> r[j] == users[j + 1]
    ensures multiset(r) + multiset{users[i]} == multiset(users)
  {
    assert users == users[..i] + [users[i]] + users[i + 1..];
    users[..i] + users[i + 1..]
  }

  /** `removeSubAccount`: 404 for an unknown user, 403 unless the caller is
      the user's primary; otherwise exactly that user is deleted. */
  function RemoveSubAccount(db: Db, callerId: string, subUserId: string): (r: Response<Db>)
    ensures UserById(db, subUserId).None? ==> r == Refuse(404, "User not found")
    ensures UserById(db, subUserId).Some? && !SubAccountOf(db.users[UserById(db, subUserId).value], callerId)
            ==> r == Refuse(403, NotAuthorizedToRemove)
    ensures r.Respond? <==>
              UserById(db, subUserId).Some? && SubAccountOf(db.users[UserById(db, subUserId).value], callerId)
    ensures r.Respond? ==>
              r.status == 200 && r.value == db.(users := RemoveAt(db.users, UserById(db, subUserId).value))
  {
    match UserById(db, subUserId)
    case None => Refuse(404, "User not found")
    case Some(i) =>
      if !SubAccountOf(db.users[i], callerId) then Refuse(403, NotAuthorizedToRemove)
      else Respond(200, db.(users := RemoveAt(db.users, i)))
  }

  /** A sub-account just added shows in the primary's household. */
  lemma AddedMemberIsListed(db: Db, callerId: string, name: Option<string>, email: Option<string>,
                            password: Option<string>, hashOf: string -> string, newId: string)
    requires AddSubAccount(db, callerId, name, email, password, hashOf, newId).Respond?
    ensures var (pub, db') := AddSubAccount(db, callerId, name, email, password, hashOf, newId).value;
            GetHousehold(db', callerId).Respond? && pub in GetHousehold(db', callerId).value
  {
    var i := UserById(db, callerId).value;
    var (pub, db') := AddSubAccount(db, callerId, name, email, password, hashOf, newId).value;
    var sub := db'.users[|db.users|];
    FindFirstAppend(db.users, (u: User) => u.id == callerId, sub, i);
    assert SubAccountOf(db'.users[|db.users|], callerId);
  }

  /** Adding a sub-account with an id nobody had and then removing it
      restores the store. */
  lemma AddThenRemoveRestores(db: Db, callerId: string, name: Option<string>, email: Option<string>,
                              password: Option<string>, hashOf: string -> string, newId: string)
    requires UserById(db, newId).None?
    requires AddSubAccount(db, callerId, name, email, password, hashOf, newId).Respond?
    ensures var db' := AddSubAccount(db, callerId, name, email, password, hashOf, newId).value.1;
            RemoveSubAccount(db', callerId, newId) == Respond(200, db)
  {
    var db' := AddSubAccount(db, callerId, name, email, password, hashOf, newId).value.1;
    var sub := db'.users[|db.users|];
    FindFirstAppendNew(db.users, (u: User) => u.id == newId, sub);
    assert RemoveAt(db'.users, |db.users|) == db.users;
  }

  /** A successful removal leaves every other user, in order. */
  lemma RemovalDeletesOnlyThatUser(db: Db, callerId: string, subUserId: string)
    requires RemoveSubAccount(db, callerId, subUserId).Respond?
    ensures var i := UserById(db, subUserId).value;
            var db' := RemoveSubAccount(db, callerId, subUserId).value;
            multiset(db'.users) == multiset(db.users) - multiset{db.users[i]}
            && db'.estates == db.estates && db'.passes == db.passes
  {
  }
}
