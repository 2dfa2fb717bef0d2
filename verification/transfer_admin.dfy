/** Handing the estate administrator role to another user of the estate:
    the target is promoted and the current administrator becomes a
    resident, in one transaction. */
module TransferAdmin {
  import opened Common
  import opened Types
  import opened BackendStore

  const TargetRequired := "newAdminUserId is required"
  const OnlyEstateAdmin := "Only estate admin can transfer role"
  const TargetNotFound := "Target user not found"
  const TargetElsewhere := "Target user must be in the same estate"
  const TargetUnapproved := "Target user must be approved first"

  /** Two stores whose users carry the same ids in the same places find
      every user at the same place. */
  lemma SameIdsSameLookup(db: Db, db': Db, id: string)
    requires |db.users| == |db'.users|
    requires forall j :: 0 <= j < |db.users| ==> db.users[j].id == db'.users[j].id
    ensures UserById(db, id) == UserById(db', id)
  {
    FindFirstSameMatches(db.users, (u: User) => u.id == id, db'.users, (u: User) => u.id == id);
  }

  /** The role a user has after a transfer from the user at `c` to the user
      at `t`: the demotion is applied last, so it wins when they are one. */
  function RoleAfter(db: Db, c: nat, t: nat, j: nat): UserRole
    requires j < |db.users|
  {
    if j == c then Resident else if j == t then EstateAdmin else db.users[j].role
  }

  /** The two updates of the transaction: promote the user at `t`, then
      look the caller up again and demote them. */
  function Swap(db: Db, callerId: string, c: nat, t: nat): (r: Db)
    requires t < |db.users| && UserById(db, callerId) == Some(c)
    ensures r == db.(users := r.users) && |r.users| == |db.users|
    ensures forall j :: 0 <= j < |db.users| ==> r.users[j] == db.users[j].(role := RoleAfter(db, c, t, j))
  {
    var promoted := SetUser(db, t, db.users[t].(role := EstateAdmin));
    SameIdsSameLookup(db, promoted, callerId);
    var c' := UserById(promoted, callerId).value;
    SetUser(promoted, c', promoted.users[c'].(role := Resident))
  }

  /** The transfer route: the target must be given, the caller must be an
      estate administrator in the store, and the target must exist, share
      the caller's estate and be approved, checked in that order. Then the
      two updates run. */
  function Transfer(db: Db, callerId: string, target: Option<string>): (r: Response<Db>)
    ensures !Truthy(target) ==> r == Refuse(400, TargetRequired)
    ensures Truthy(target) && (UserById(db, callerId).None? || db.users[UserById(db, callerId).value].role != EstateAdmin)
            ==> r == Refuse(403, OnlyEstateAdmin)
    ensures Truthy(target) && UserById(db, callerId).Some? && db.users[UserById(db, callerId).value].role == EstateAdmin
            ==> match UserById(db, target.value)
                case None => r == Refuse(404, TargetNotFound)
                case Some(t) =>
                  var c := UserById(db, callerId).value;
                  if db.users[t].estateId != db.users[c].estateId then r == Refuse(400, TargetElsewhere)
                  else if !db.users[t].isApproved then r == Refuse(400, TargetUnapproved)
                  else r == Respond(200, Swap(db, callerId, c, t))
  {
    if !Truthy(target) then Refuse(400, TargetRequired)
    else match UserById(db, callerId)
      case None => Refuse(403, OnlyEstateAdmin)
      case Some(c) =>
        if db.users[c].role != EstateAdmin then Refuse(403, OnlyEstateAdmin)
        else match UserById(db, target.value)
          case None => Refuse(404, TargetNotFound)
          case Some(t) =>
            if db.users[t].estateId != db.users[c].estateId then Refuse(400, TargetElsewhere)
            else if !db.users[t].isApproved then Refuse(400, TargetUnapproved)
            else Respond(200, Swap(db, callerId, c, t))
  }

  /** A successful transfer between two users leaves the target the
      administrator and the caller a resident, and nobody else changes. */
  lemma TransferSwapsRoles(db: Db, callerId: string, targetId: string, db': Db)
    requires callerId != targetId
    requires Transfer(db, callerId, Some(targetId)) == Respond(200, db')
    ensures var c := UserById(db, callerId).value;
            var t := UserById(db, targetId).value;
            db'.users[t] == db.users[t].(role := EstateAdmin) && db'.users[c] == db.users[c].(role := Resident)
            && forall j :: 0 <= j < |db.users| && j != c && j != t ==> db'.users[j] == db.users[j]
  {
  }

  /** Naming oneself as the new administrator demotes the caller: the
      estate is left with one administrator fewer. */
  lemma SelfTransferDemotes(db: Db, callerId: string)
    requires callerId != ""
    requires UserById(db, callerId).Some?
    requires var u := db.users[UserById(db, callerId).value]; u.role == EstateAdmin && u.isApproved
    ensures var c := UserById(db, callerId).value;
            var r := Transfer(db, callerId, Some(callerId));
            r.Respond? && r.value.users[c] == db.users[c].(role := Resident)
            && Count(r.value.users, (u: User) => u.role == EstateAdmin) + 1
               == Count(db.users, (u: User) => u.role == EstateAdmin)
  {
    var c := UserById(db, callerId).value;
    var db' := Transfer(db, callerId, Some(callerId)).value;
    assert db'.users == db.users[c := db.users[c].(role := Resident)];
    CountUpdate(db.users, (u: User) => u.role == EstateAdmin, c, db.users[c].(role := Resident));
  }

  /** Applying the roles of a transfer from `c` to `t` and then those of one
      from `t` to `c` gives every user back their role. */
  lemma RolesRestored(db: Db, db': Db, db'': Db, c: nat, t: nat)
    requires c != t && c < |db.users| && t < |db.users| && |db'.users| == |db.users| && |db''.users| == |db.users|
    requires db.users[c].role == EstateAdmin && db.users[t].role == Resident
    requires forall j :: 0 <= j < |db.users| ==> db'.users[j] == db.users[j].(role := RoleAfter(db, c, t, j))
    requires forall j :: 0 <= j < |db.users| ==> db''.users[j] == db'.users[j].(role := RoleAfter(db', t, c, j))
    ensures db''.users == db.users
  {
    forall j | 0 <= j < |db.users| ensures db''.users[j] == db.users[j] {
    }
  }

  /** A transfer changes roles only, so every user is found where they
      were. */
  lemma SwapKeepsLookup(db: Db, a: string, c: nat, t: nat, id: string)
    requires t < |db.users| && UserById(db, a) == Some(c)
    ensures UserById(Swap(db, a, c, t), id) == UserById(db, id)
  {
    var db' := Swap(db, a, c, t);
    assert forall j :: 0 <= j < |db.users| ==> db.users[j].id == db'.users[j].id;
    SameIdsSameLookup(db, db', id);
  }

  /** Swapping from the administrator at `c` to the resident at `t` and
      back again is the identity. */
  lemma SwapTwiceRestores(db: Db, a: string, b: string, c: nat, t: nat)
    requires c != t && UserById(db, a) == Some(c) && UserById(db, b) == Some(t)
    requires db.users[c].role == EstateAdmin && db.users[t].role == Resident
    ensures UserById(Swap(db, a, c, t), b) == Some(t)
    ensures Swap(Swap(db, a, c, t), b, t, c) == db
  {
    SwapKeepsLookup(db, a, c, t, b);
    var db' := Swap(db, a, c, t);
    var db'' := Swap(db', b, t, c);
    RolesRestored(db, db', db'', c, t);
  }

  /** Handing the role to an approved resident and straight back restores
      the store, provided the first administrator is approved too. */
  lemma TransferBackRestores(db: Db, a: string, b: string, db': Db)
    requires a != b && a != ""
    requires Transfer(db, a, Some(b)) == Respond(200, db')
    requires db.users[UserById(db, b).value].role == Resident
    requires db.users[UserById(db, a).value].isApproved
    ensures Transfer(db', b, Some(a)) == Respond(200, db)
  {
    var c := UserById(db, a).value;
    var t := UserById(db, b).value;
    assert db' == Swap(db, a, c, t);
    SwapTwiceRestores(db, a, b, c, t);
    SwapKeepsLookup(db, a, c, t, a);
    assert db'.users[t].role == EstateAdmin && db'.users[c] == db.users[c].(role := Resident);
  }
}
