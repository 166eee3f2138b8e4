/** src/permissions/permissions.service.ts: who may read, write and create. */
module Permissions {
  import opened Common
  import opened Schema

  // `Unset` is the field before anything assigns it.
  datatype GuestPermission = Unset | Deny | Read | Write | Create | CreateAlias

  // A note as the repository loads it, with its permission lists in some order.
  datatype GroupView = GroupView(id: GroupId, name: string, special: bool, members: seq<UserId>)
  datatype UserPermission = UserPermission(user: UserId, canEdit: bool)
  datatype GroupPermission = GroupPermission(group: GroupView, canEdit: bool)
  datatype NoteView = NoteView(id: NoteId, owner: Option<UserId>,
                               userPermissions: seq<UserPermission>, groupPermissions: seq<GroupPermission>)

  // --- the declarative reading ----------------------------------------------------------------------

  predicate Suffices(canEdit: bool, wantEdit: bool) {
    wantEdit ==> canEdit
  }

  // What the instance-wide setting lets guests do with a note shared with everybody.
  predicate GuestsAllowed(guest: GuestPermission, wantEdit: bool) {
    guest in {Write, Create, CreateAlias} || (guest == Read && !wantEdit)
  }

  predicate Owns(user: Option<UserId>, owner: Option<UserId>) {
    user.Some? && owner == user
  }

  // A special group is known by its name; a normal group applies to its members.
  predicate GroupApplies(guest: GuestPermission, user: Option<UserId>, name: string, special: bool,
                         members: set<UserId>, wantEdit: bool) {
    if special then name == "loggedIn" || (name == "everybody" && GuestsAllowed(guest, wantEdit))
    else user.Some? && user.value in members
  }

  predicate UserGrant(user: Option<UserId>, p: UserPermission, wantEdit: bool) {
    user == Some(p.user) && Suffices(p.canEdit, wantEdit)
  }

  predicate GroupGrant(guest: GuestPermission, user: Option<UserId>, p: GroupPermission, wantEdit: bool) {
    && Suffices(p.canEdit, wantEdit)
    && GroupApplies(guest, user, p.group.name, p.group.special, Elements(p.group.members), wantEdit)
  }

  // The user owns the note, or some grant applies.
  predicate May(guest: GuestPermission, user: Option<UserId>, note: NoteView, wantEdit: bool) {
    || Owns(user, note.owner)
    || (exists p :: p in note.userPermissions && UserGrant(user, p, wantEdit))
    || (exists p :: p in note.groupPermissions && GroupGrant(guest, user, p, wantEdit))
  }

  // --- the service ------------------------------------------------------------------------------------

  class PermissionsService {
    var guestPermission: GuestPermission

    constructor (guest: GuestPermission)
      ensures guestPermission == guest
    {
      guestPermission := guest;
    }

    method MayRead(user: Option<UserId>, note: NoteView) returns (may: bool)
      ensures may <==> May(guestPermission, user, note, false)
    {
      var owner := IsOwner(user, note);
      if owner { return true; }
      var byUser := HasPermissionUser(user, note, false);
      if byUser { return true; }
      var byGroup := HasPermissionGroup(user, note, false);
      if byGroup { return true; }
      return false;
    }

    method MayWrite(user: Option<UserId>, note: NoteView) returns (may: bool)
      ensures may <==> May(guestPermission, user, note, true)
    {
      var owner := IsOwner(user, note);
      if owner { return true; }
      var byUser := HasPermissionUser(user, note, true);
      if byUser { return true; }
      var byGroup := HasPermissionGroup(user, note, true);
      if byGroup { return true; }
      return false;
    }

    // A known user may always create notes, a guest if the setting says so.
    method MayCreate(user: Option<UserId>) returns (may: bool)
      ensures may <==> user.Some? || guestPermission in {Create, CreateAlias}
    {
      if user.Some? {
        return true;
      } else if guestPermission == Create || guestPermission == CreateAlias {
        return true;
      }
      return false;
    }

    method IsOwner(user: Option<UserId>, note: NoteView) returns (owner: bool)
      ensures owner <==> user.Some? && note.owner == user
    {
      if user.None? { return false; }
      if note.owner.None? { return false; }
      return note.owner.value == user.value;
    }

    method HasPermissionUser(user: Option<UserId>, note: NoteView, wantEdit: bool) returns (has: bool)
      ensures has <==> exists p :: p in note.userPermissions && user == Some(p.user) && (wantEdit ==> p.canEdit)
    {
      if user.None? {
        return false;
      }
      for i := 0 to |note.userPermissions|
        invariant forall j | 0 <= j < i :: !UserGrant(user, note.userPermissions[j], wantEdit)
      {
        var permission := note.userPermissions[i];
        if permission.user == user.value && (permission.canEdit || !wantEdit) {
          assert UserGrant(user, permission, wantEdit);
          return true;
        }
      }
      return false;
    }

    method HasPermissionGroup(user: Option<UserId>, note: NoteView, wantEdit: bool) returns (has: bool)
      ensures has <==> exists p :: p in note.groupPermissions && (wantEdit ==> p.canEdit)
                                   && if p.group.special then
                                        || p.group.name == "loggedIn"
                                        || (p.group.name == "everybody" && GuestsAllowed(guestPermission, wantEdit))
                                      else user.Some? && user.value in p.group.members
    {
      var guestsAllowed := false;
      match guestPermission {
        case CreateAlias => guestsAllowed := true;
        case Create => guestsAllowed := true;
        case Write => guestsAllowed := true;
        case Read => guestsAllowed := !wantEdit;
        case _ =>
      }
      assert guestsAllowed == GuestsAllowed(guestPermission, wantEdit);
      for i := 0 to |note.groupPermissions|
        invariant forall j | 0 <= j < i :: !GroupGrant(guestPermission, user, note.groupPermissions[j], wantEdit)
      {
        var permission := note.groupPermissions[i];
        assert permission in note.groupPermissions;
        if permission.canEdit || !wantEdit {
          if permission.group.special {
            if permission.group.name == "loggedIn" {
              return true;
            }
            if permission.group.name == "everybody" && (permission.canEdit || !wantEdit) && guestsAllowed {
              return true;
            }
          } else if user.Some? {
            var members := permission.group.members;
            for j := 0 to |members|
              invariant user.value !in members[..j]
            {
              if members[j] == user.value {
                assert user.value in Elements(members);
                assert GroupGrant(guestPermission, user, permission, wantEdit);
                return true;
              }
            }
            assert members[..|members|] == members;
          }
        }
      }
      return false;
    }
  }

  // --- laws of evaluation -------------------------------------------------------------------------------

  // The grants of a list, without order, repetition, or order inside a group.
  function GroupGrantsOf(list: seq<GroupPermission>): set<(string, bool, set<UserId>, bool)> {
    set p | p in list :: (p.group.name, p.group.special, Elements(p.group.members), p.canEdit)
  }

  predicate SameGrants(a: NoteView, b: NoteView) {
    && a.owner == b.owner
    && Elements(a.userPermissions) == Elements(b.userPermissions)
    && GroupGrantsOf(a.groupPermissions) == GroupGrantsOf(b.groupPermissions)
  }

  lemma GrantsCarryOver(guest: GuestPermission, user: Option<UserId>, a: NoteView, b: NoteView, wantEdit: bool)
    requires SameGrants(a, b) && May(guest, user, a, wantEdit)
    ensures May(guest, user, b, wantEdit)
  {
    if p :| p in a.userPermissions && UserGrant(user, p, wantEdit) {
      assert p in Elements(b.userPermissions);
    } else if p :| p in a.groupPermissions && GroupGrant(guest, user, p, wantEdit) {
      assert (p.group.name, p.group.special, Elements(p.group.members), p.canEdit)
          in GroupGrantsOf(b.groupPermissions);
    }
  }

  // Only the set of grants decides, so any permutation of the lists or of a group's members is invisible.
  lemma OrderIsInvisible(guest: GuestPermission, user: Option<UserId>, a: NoteView, b: NoteView, wantEdit: bool)
    requires SameGrants(a, b)
    ensures May(guest, user, a, wantEdit) <==> May(guest, user, b, wantEdit)
  {
    if May(guest, user, a, wantEdit) {
      GrantsCarryOver(guest, user, a, b, wantEdit);
    }
    if May(guest, user, b, wantEdit) {
      GrantsCarryOver(guest, user, b, a, wantEdit);
    }
  }

  // A rearrangement: the user list permuted, the group list permuted by `sigma`, members permuted.
  predicate Permuted(a: NoteView, b: NoteView, sigma: seq<nat>) {
    && a.owner == b.owner
    && multiset(a.userPermissions) == multiset(b.userPermissions)
    && |sigma| == |a.groupPermissions| == |b.groupPermissions|
    && multiset(sigma) == multiset(seq(|sigma|, i => i))
    && forall i | 0 <= i < |sigma| ::
         && 0 <= sigma[i] < |b.groupPermissions|
         && var p, q := a.groupPermissions[i], b.groupPermissions[sigma[i]];
            && p.canEdit == q.canEdit && p.group.name == q.group.name && p.group.special == q.group.special
            && multiset(p.group.members) == multiset(q.group.members)
  }

  lemma SameElements<T>(a: seq<T>, b: seq<T>)
    requires multiset(a) == multiset(b)
    ensures Elements(a) == Elements(b)
  {
    forall x ensures x in a <==> x in b {
      assert x in a <==> x in multiset(a);
      assert x in b <==> x in multiset(b);
    }
  }

  lemma PermutationInvariant(guest: GuestPermission, user: Option<UserId>, a: NoteView, b: NoteView,
                             sigma: seq<nat>, wantEdit: bool)
    requires Permuted(a, b, sigma)
    ensures May(guest, user, a, wantEdit) <==> May(guest, user, b, wantEdit)
  {
    SameElements(a.userPermissions, b.userPermissions);
    forall i | 0 <= i < |sigma|
      ensures Elements(a.groupPermissions[i].group.members) == Elements(b.groupPermissions[sigma[i]].group.members)
    {
      SameElements(a.groupPermissions[i].group.members, b.groupPermissions[sigma[i]].group.members);
    }
    var identity := seq(|sigma|, i => i);
    SameElements(sigma, identity);
    var of, to := GroupGrantsOf(a.groupPermissions), GroupGrantsOf(b.groupPermissions);
    forall g | g in of ensures g in to {
      var p :| p in a.groupPermissions && g == (p.group.name, p.group.special, Elements(p.group.members), p.canEdit);
      var i :| 0 <= i < |sigma| && a.groupPermissions[i] == p;
      assert b.groupPermissions[sigma[i]] in b.groupPermissions;
    }
    forall g | g in to ensures g in of {
      var q :| q in b.groupPermissions && g == (q.group.name, q.group.special, Elements(q.group.members), q.canEdit);
      var j :| 0 <= j < |sigma| && b.groupPermissions[j] == q;
      assert identity[j] in Elements(identity);
      var i :| 0 <= i < |sigma| && sigma[i] == j;
      assert a.groupPermissions[i] in a.groupPermissions;
    }
    assert of == to;
    OrderIsInvisible(guest, user, a, b, wantEdit);
  }

  // Permissions are additive: concatenated lists allow what either part allows.
  lemma Additive(guest: GuestPermission, user: Option<UserId>, note: NoteView,
                 us: seq<UserPermission>, gs: seq<GroupPermission>, wantEdit: bool)
    ensures May(guest, user, note.(userPermissions := note.userPermissions + us,
                                   groupPermissions := note.groupPermissions + gs), wantEdit)
            <==> || May(guest, user, note, wantEdit)
                 || May(guest, user, note.(userPermissions := us, groupPermissions := gs), wantEdit)
  {
  }

  // --- what the right to edit is worth ------------------------------------------------------------------

  // Reading: the owner, or anybody a grant applies to, whatever right it carries.
  lemma ReadMeans(guest: GuestPermission, user: Option<UserId>, note: NoteView)
    ensures May(guest, user, note, false)
            <==> || (user.Some? && note.owner == user)
                 || (exists p :: p in note.userPermissions && user == Some(p.user))
                 || (exists p :: p in note.groupPermissions
                                 && if p.group.special then
                                      || p.group.name == "loggedIn"
                                      || (p.group.name == "everybody" && guest in {Read, Write, Create, CreateAlias})
                                    else user.Some? && user.value in p.group.members)
  {
  }

  // Writing: the owner, or anybody a grant with the right to edit applies to; for guests and the group
  // "everybody" the setting has to allow it as well.
  lemma WriteMeans(guest: GuestPermission, user: Option<UserId>, note: NoteView)
    ensures May(guest, user, note, true)
            <==> || (user.Some? && note.owner == user)
                 || (exists p :: p in note.userPermissions && p.canEdit && user == Some(p.user))
                 || (exists p :: p in note.groupPermissions && p.canEdit
                                 && if p.group.special then
                                      || p.group.name == "loggedIn"
                                      || (p.group.name == "everybody" && guest in {Write, Create, CreateAlias})
                                    else user.Some? && user.value in p.group.members)
  {
  }

  // So a list of grants to read lets the owner write and nobody else.
  lemma ReadOnlyGrants(guest: GuestPermission, user: Option<UserId>, note: NoteView)
    requires forall p :: p in note.userPermissions ==> !p.canEdit
    requires forall p :: p in note.groupPermissions ==> !p.canEdit
    ensures May(guest, user, note, true) <==> user.Some? && note.owner == user
  {
    WriteMeans(guest, user, note);
  }

  // For reading, the right to edit does not matter: flipped in any grants, it changes nothing.
  lemma ReadIgnoresCanEdit(guest: GuestPermission, user: Option<UserId>, a: NoteView, b: NoteView)
    requires a.owner == b.owner
    requires |a.userPermissions| == |b.userPermissions| && |a.groupPermissions| == |b.groupPermissions|
    requires forall i :: 0 <= i < |a.userPermissions| ==> a.userPermissions[i].user == b.userPermissions[i].user
    requires forall i :: 0 <= i < |a.groupPermissions| ==> a.groupPermissions[i].group == b.groupPermissions[i].group
    ensures May(guest, user, a, false) <==> May(guest, user, b, false)
  {
    if May(guest, user, a, false) {
      ReadCarriesOver(guest, user, a, b);
    }
    if May(guest, user, b, false) {
      ReadCarriesOver(guest, user, b, a);
    }
  }

  lemma ReadCarriesOver(guest: GuestPermission, user: Option<UserId>, a: NoteView, b: NoteView)
    requires a.owner == b.owner && May(guest, user, a, false)
    requires |a.userPermissions| == |b.userPermissions| && |a.groupPermissions| == |b.groupPermissions|
    requires forall i :: 0 <= i < |a.userPermissions| ==> a.userPermissions[i].user == b.userPermissions[i].user
    requires forall i :: 0 <= i < |a.groupPermissions| ==> a.groupPermissions[i].group == b.groupPermissions[i].group
    ensures May(guest, user, b, false)
  {
    if p :| p in a.userPermissions && UserGrant(user, p, false) {
      var i :| 0 <= i < |a.userPermissions| && a.userPermissions[i] == p;
      assert UserGrant(user, b.userPermissions[i], false);
    } else if p :| p in a.groupPermissions && GroupGrant(guest, user, p, false) {
      var i :| 0 <= i < |a.groupPermissions| && a.groupPermissions[i] == p;
      assert GroupGrant(guest, user, b.groupPermissions[i], false);
    }
  }

  // Writing is reading after the grants without the right to edit are struck out, for guests that may
  // not only read.
  lemma WriteIsReadOfEditable(guest: GuestPermission, user: Option<UserId>, note: NoteView, editable: NoteView)
    requires editable.owner == note.owner
    requires forall p :: p in editable.userPermissions <==> p in note.userPermissions && p.canEdit
    requires forall p :: p in editable.groupPermissions <==> p in note.groupPermissions && p.canEdit
    ensures May(guest, user, note, true) <==> May(if guest == Read then Deny else guest, user, editable, false)
  {
    WriteMeans(guest, user, note);
    ReadMeans(if guest == Read then Deny else guest, user, editable);
  }

  // Whoever may write may read.
  lemma WriteImpliesRead(guest: GuestPermission, user: Option<UserId>, note: NoteView)
    requires May(guest, user, note, true)
    ensures May(guest, user, note, false)
  {
  }

  function Rank(guest: GuestPermission): nat {
    match guest
    case Unset => 0
    case Deny => 0
    case Read => 1
    case Write => 2
    case Create => 3
    case CreateAlias => 4
  }

  // Raising the guest permission never takes an access or the right to create away.
  lemma MonotoneInGuestPermission(low: GuestPermission, high: GuestPermission, user: Option<UserId>,
                                  note: NoteView, wantEdit: bool)
    requires Rank(low) <= Rank(high)
    ensures May(low, user, note, wantEdit) ==> May(high, user, note, wantEdit)
    ensures low in {Create, CreateAlias} ==> high in {Create, CreateAlias}
  {
  }

  // Without a user only the special groups admit anyone; the guest setting bounds the group
  // "everybody" but not the group "loggedIn".
  lemma GuestAccess(guest: GuestPermission, note: NoteView, wantEdit: bool)
    ensures May(guest, None, note, wantEdit)
            <==> exists p :: p in note.groupPermissions && p.group.special && (wantEdit ==> p.canEdit)
                             && (|| p.group.name == "loggedIn"
                                 || (p.group.name == "everybody"
                                     && (guest in {Write, Create, CreateAlias} || (guest == Read && !wantEdit))))
  {
  }

  // The documented meaning of "loggedIn", every logged-in user, holds for users.
  lemma LoggedInAdmitsEveryUser(guest: GuestPermission, user: UserId, note: NoteView, p: GroupPermission,
                                wantEdit: bool)
    requires p in note.groupPermissions && p.group.special && p.group.name == "loggedIn"
    requires wantEdit ==> p.canEdit
    ensures May(guest, Some(user), note, wantEdit)
  {
  }

  // But it admits guests as well, even when guests are denied everything.
  lemma LoggedInAdmitsGuests()
    ensures var group := GroupView(0, "loggedIn", true, []);
            var note := NoteView("n", None, [], [GroupPermission(group, true)]);
            May(Deny, None, note, false) && May(Deny, None, note, true)
  {
    var group := GroupView(0, "loggedIn", true, []);
    assert GroupPermission(group, true) in [GroupPermission(group, true)];
  }

  // --- access according to the tables -------------------------------------------------------------------

  // Access read off the permission tables.
  ghost predicate MayAccess(db: Db, guest: GuestPermission, user: Option<UserId>, n: NoteId, wantEdit: bool)
    requires n in db.notes
  {
    || Owns(user, db.notes[n].owner)
    || (user.Some? && (n, user.value) in db.userGrants && Suffices(db.userGrants[(n, user.value)], wantEdit))
    || (exists g :: GroupRowGrants(db, guest, user, n, g, wantEdit))
  }

  predicate GroupRowGrants(db: Db, guest: GuestPermission, user: Option<UserId>, n: NoteId, g: GroupId,
                           wantEdit: bool) {
    && (n, g) in db.groupGrants
    && g in db.groups
    && Suffices(db.groupGrants[(n, g)], wantEdit)
    && GroupApplies(guest, user, db.groups[g].name, db.groups[g].special, db.groups[g].members, wantEdit)
  }

  // Access in terms of the rows: the owner column, a row for the user, or a row for a group that lets
  // the user in; to write, the row has to carry the right to edit.
  lemma MayAccessMeans(db: Db, guest: GuestPermission, user: Option<UserId>, n: NoteId, wantEdit: bool)
    requires n in db.notes
    ensures MayAccess(db, guest, user, n, wantEdit)
            <==> || (user.Some? && db.notes[n].owner == user)
                 || (user.Some? && (n, user.value) in db.userGrants && (wantEdit ==> db.userGrants[(n, user.value)]))
                 || (exists g :: (n, g) in db.groupGrants && g in db.groups && (wantEdit ==> db.groupGrants[(n, g)])
                                 && if db.groups[g].special then
                                      || db.groups[g].name == "loggedIn"
                                      || (db.groups[g].name == "everybody"
                                          && (guest in {Write, Create, CreateAlias} || (guest == Read && !wantEdit)))
                                    else user.Some? && user.value in db.groups[g].members)
  {
    forall g: GroupId
      ensures GroupRowGrants(db, guest, user, n, g, wantEdit)
              <==> (n, g) in db.groupGrants && g in db.groups && (wantEdit ==> db.groupGrants[(n, g)])
                   && if db.groups[g].special then
                        || db.groups[g].name == "loggedIn"
                        || (db.groups[g].name == "everybody"
                            && (guest in {Write, Create, CreateAlias} || (guest == Read && !wantEdit)))
                      else user.Some? && user.value in db.groups[g].members
    {
    }
  }

  predicate IsUserRow(db: Db, n: NoteId, p: UserPermission) {
    (n, p.user) in db.userGrants && db.userGrants[(n, p.user)] == p.canEdit
  }

  predicate IsGroupRow(db: Db, n: NoteId, p: GroupPermission) {
    var g := p.group.id;
    && (n, g) in db.groupGrants
    && db.groupGrants[(n, g)] == p.canEdit
    && g in db.groups
    && p.group.name == db.groups[g].name
    && p.group.special == db.groups[g].special
    && Elements(p.group.members) == db.groups[g].members
  }

  // The note loaded with its relations: the lists hold its permission rows, in any order.
  ghost predicate Loads(db: Db, n: NoteId, note: NoteView) {
    && n in db.notes
    && note.id == n
    && note.owner == db.notes[n].owner
    && (forall p :: p in note.userPermissions ==> IsUserRow(db, n, p))
    && (forall u :: (n, u) in db.userGrants ==> UserPermission(u, db.userGrants[(n, u)]) in note.userPermissions)
    && (forall p :: p in note.groupPermissions ==> IsGroupRow(db, n, p))
    && (forall g :: (n, g) in db.groupGrants ==> exists p :: p in note.groupPermissions && p.group.id == g)
  }

  lemma LoadedGrantsHold(db: Db, guest: GuestPermission, user: Option<UserId>, n: NoteId, note: NoteView,
                         wantEdit: bool)
    requires Loads(db, n, note)
    requires May(guest, user, note, wantEdit)
    ensures MayAccess(db, guest, user, n, wantEdit)
  {
    if p :| p in note.userPermissions && UserGrant(user, p, wantEdit) {
      assert IsUserRow(db, n, p);
    } else if p :| p in note.groupPermissions && GroupGrant(guest, user, p, wantEdit) {
      assert IsGroupRow(db, n, p);
      assert GroupRowGrants(db, guest, user, n, p.group.id, wantEdit);
    }
  }

  lemma HeldGrantsAreLoaded(db: Db, guest: GuestPermission, user: Option<UserId>, n: NoteId, note: NoteView,
                            wantEdit: bool)
    requires Loads(db, n, note)
    requires MayAccess(db, guest, user, n, wantEdit)
    ensures May(guest, user, note, wantEdit)
  {
  }

  // Evaluating the loaded note is evaluating the tables.
  lemma LoadedNoteAgrees(db: Db, guest: GuestPermission, user: Option<UserId>, n: NoteId, note: NoteView,
                         wantEdit: bool)
    requires Loads(db, n, note)
    ensures May(guest, user, note, wantEdit) <==> MayAccess(db, guest, user, n, wantEdit)
  {
    if May(guest, user, note, wantEdit) {
      LoadedGrantsHold(db, guest, user, n, note, wantEdit);
    }
    if MayAccess(db, guest, user, n, wantEdit) {
      HeldGrantsAreLoaded(db, guest, user, n, note, wantEdit);
    }
  }
}
