/**
 * The administration console: users joined with their roles, the add/remove
 * role toggle on the role table, and disabling or enabling a listing.
 */
module Admin {
  import opened Wrappers
  import opened Seqs
  import opened Roles
  import opened Profiles

  datatype UserWithRoles = UserWithRoles(profile: Profile, roles: seq<Role>)

  /** Each profile paired with the roles the role table holds for its user. */
  function JoinRoles(profiles: seq<Profile>, rows: seq<RoleRow>): (r: seq<UserWithRoles>)
    ensures |r| == |profiles|
    ensures forall i :: 0 <= i < |r| ==> r[i].profile == profiles[i]
    ensures forall i, role :: 0 <= i < |r| ==>
              (role in r[i].roles <==> RoleRow(profiles[i].user, role) in rows)
    ensures forall i :: 0 <= i < |r| ==> r[i].roles == RolesOf(rows, profiles[i].user)
  {
    seq(|profiles|, i requires 0 <= i < |profiles| => UserWithRoles(profiles[i], RolesOf(rows, profiles[i].user)))
  }

  /** The console lists for a user exactly the roles the role hook computes when that user signs in. */
  lemma JoinMatchesHook(profiles: seq<Profile>, rows: seq<RoleRow>, i: int, previous: seq<Role>)
    requires 0 <= i < |profiles|
    ensures JoinRoles(profiles, rows)[i].roles ==
            RolesAfterUserChange(previous, Some(profiles[i].user), Some(rows))
  {
  }

  function IsUser(user: UserId): UserWithRoles -> bool {
    (u: UserWithRoles) => u.profile.user == user
  }

  /** The first joined user with the given id, as `find` returns it. */
  function FindUser(users: seq<UserWithRoles>, user: UserId): (r: Option<UserWithRoles>)
    ensures r.Some? ==> r.value in users && r.value.profile.user == user
    ensures r.None? ==> forall i :: 0 <= i < |users| ==> users[i].profile.user != user
    ensures var k := FirstIndex(users, IsUser(user)); r == if k < |users| then Some(users[k]) else None
  {
    if users == [] then None
    else if users[0].profile.user == user then Some(users[0])
    else FindUser(users[1..], user)
  }

  predicate Listed(profiles: seq<Profile>, user: UserId) {
    exists i :: 0 <= i < |profiles| && profiles[i].user == user
  }

  function NotRow(user: UserId, role: Role): RoleRow -> bool {
    (row: RoleRow) => !(row.user == user && row.role == role)
  }

  /**
   * `toggleUserRole` as its effect on the role table: for a listed user, delete
   * every row granting `role` if there is one, else insert one; an unlisted user
   * changes nothing.
   */
  function ToggleUserRole(profiles: seq<Profile>, rows: seq<RoleRow>, user: UserId, role: Role): (r: seq<RoleRow>)
    ensures !Listed(profiles, user) ==> r == rows
    ensures Listed(profiles, user) ==> (RoleRow(user, role) in r <==> RoleRow(user, role) !in rows)
    ensures forall row :: row != RoleRow(user, role) ==> (row in r <==> row in rows)
  {
    match FindUser(JoinRoles(profiles, rows), user)
    case None =>
      assert !Listed(profiles, user);
      rows
    case Some(u) =>
      assert Listed(profiles, user) by {
        var users := JoinRoles(profiles, rows);
        var i :| 0 <= i < |users| && users[i] == u;
        assert profiles[i].user == user;
      }
      assert role in u.roles <==> RoleRow(user, role) in rows by {
        var users := JoinRoles(profiles, rows);
        var i :| 0 <= i < |users| && users[i] == u;
      }
      if role in u.roles then Filter(rows, NotRow(user, role))
      else rows + [RoleRow(user, role)]
  }

  /** Toggling the same role twice gives every user back the roles they had. */
  lemma ToggleTwiceRestoresRoles(profiles: seq<Profile>, rows: seq<RoleRow>, user: UserId, role: Role,
                                 who: UserId, r: Role)
    ensures var twice := ToggleUserRole(profiles, ToggleUserRole(profiles, rows, user, role), user, role);
            r in RolesOf(twice, who) <==> r in RolesOf(rows, who)
  {
  }

  /** Toggling a role leaves every other user's roles, and the user's other roles, as they were. */
  lemma ToggleTouchesOneRole(profiles: seq<Profile>, rows: seq<RoleRow>, user: UserId, role: Role,
                             who: UserId, r: Role)
    requires who != user || r != role
    ensures r in RolesOf(ToggleUserRole(profiles, rows, user, role), who) <==> r in RolesOf(rows, who)
  {
  }

  // ---------------------------------------------------------------- listings

  /** A listing in the moderation panel, with its owner's company name joined in. */
  datatype AdminListing = AdminListing(
    id: string,
    title: string,
    owner: UserId,
    status: string,
    disabledByAdmin: bool,
    disabledReason: Option<string>,
    companyName: string)

  /** The company shown for a listing: its owner's first profile, or "Unknown" when there is none. */
  function CompanyOf(profiles: seq<Profile>, owner: UserId): (r: string)
    ensures !Listed(profiles, owner) ==> r == "Unknown"
    ensures Listed(profiles, owner) ==> exists i :: 0 <= i < |profiles| && profiles[i].user == owner && r == profiles[i].companyName
    ensures var k := FirstIndex(profiles, OwnedBy(owner)); k < |profiles| ==> r == profiles[k].companyName
  {
    ListedIffFound(profiles, owner);
    if profiles == [] then "Unknown"
    else if profiles[0].user == owner then profiles[0].companyName
    else CompanyOf(profiles[1..], owner)
  }

  /** A user has a profile exactly when `find` stops inside the profile list. */
  lemma ListedIffFound(profiles: seq<Profile>, owner: UserId)
    ensures Listed(profiles, owner) <==> FirstIndex(profiles, OwnedBy(owner)) < |profiles|
  {
    var k := FirstIndex(profiles, OwnedBy(owner));
    if Listed(profiles, owner) {
      var i :| 0 <= i < |profiles| && profiles[i].user == owner;
      assert OwnedBy(owner)(profiles[i]);
    }
    if k < |profiles| {
      assert profiles[k].user == owner;
    }
  }

  /** The columns `toggleListingDisabled` writes. */
  datatype DisableUpdate = DisableUpdate(disabledByAdmin: bool, disabledReason: Option<string>)

  /** Disabling records the entered reason; enabling clears the flag and the reason. */
  function DisableRecord(disable: bool, reason: string): (u: DisableUpdate)
    ensures u.disabledByAdmin == disable
    ensures u.disabledReason.Some? <==> disable
    ensures disable ==> u.disabledReason.value == reason
  {
    DisableUpdate(disable, if disable then Some(reason) else None)
  }

  /** The listings after the update of every row with the selected id; the others are untouched. */
  function ApplyDisable(ls: seq<AdminListing>, id: string, disable: bool, reason: string): (r: seq<AdminListing>)
    ensures |r| == |ls|
    ensures forall i :: 0 <= i < |ls| && ls[i].id != id ==> r[i] == ls[i]
    ensures forall i :: 0 <= i < |ls| && ls[i].id == id ==>
              r[i].disabledByAdmin == disable &&
              r[i].disabledReason == DisableRecord(disable, reason).disabledReason &&
              r[i].(disabledByAdmin := ls[i].disabledByAdmin, disabledReason := ls[i].disabledReason) == ls[i]
  {
    var u := DisableRecord(disable, reason);
    seq(|ls|, i requires 0 <= i < |ls| =>
      if ls[i].id == id then ls[i].(disabledByAdmin := u.disabledByAdmin, disabledReason := u.disabledReason)
      else ls[i])
  }

  /** Enabling after disabling leaves the same rows as enabling alone: no reason survives. */
  lemma EnableUndoesDisable(ls: seq<AdminListing>, id: string, reason: string, reason2: string)
    ensures ApplyDisable(ApplyDisable(ls, id, true, reason), id, false, reason2) == ApplyDisable(ls, id, false, reason2)
  {
  }

  function IsListing(id: string): AdminListing -> bool {
    (l: AdminListing) => l.id == id
  }

  /** The first listing with the selected id. */
  function FindListing(ls: seq<AdminListing>, id: string): (r: Option<AdminListing>)
    ensures r.Some? ==> r.value in ls && r.value.id == id
    ensures r.None? ==> forall i :: 0 <= i < |ls| ==> ls[i].id != id
    ensures var k := FirstIndex(ls, IsListing(id)); r == if k < |ls| then Some(ls[k]) else None
  {
    if ls == [] then None
    else if ls[0].id == id then Some(ls[0])
    else FindListing(ls[1..], id)
  }

  /** Disable is greyed out only for a selected listing that is already disabled. */
  predicate DisableAvailable(ls: seq<AdminListing>, selected: string) {
    var l := FindListing(ls, selected);
    !(l.Some? && l.value.disabledByAdmin)
  }

  /** Enable is available only for a selected listing that is disabled. */
  predicate EnableAvailable(ls: seq<AdminListing>, selected: string) {
    var l := FindListing(ls, selected);
    l.Some? && l.value.disabledByAdmin
  }

  /** Exactly one of the two buttons is available. */
  lemma ExactlyOneButton(ls: seq<AdminListing>, selected: string)
    ensures DisableAvailable(ls, selected) <==> !EnableAvailable(ls, selected)
  {
  }

  /** The moderation panel: the loaded listings, the selected listing id and the typed reason. */
  datatype ModerationPanel = ModerationPanel(listings: seq<AdminListing>, selected: string, reason: string)

  /** The Disable/Enable controls are rendered only while a listing is selected. */
  predicate ControlsShown(p: ModerationPanel) {
    p.selected != []
  }

  /**
   * `toggleListingDisabled(selectedListing, disable)`. `updateSucceeded` stands for
   * the outcome of the update; on success the refetched listings carry the written
   * columns, and the selection and the reason are cleared. A failed update leaves
   * the panel as it was.
   */
  function ToggleListing(p: ModerationPanel, disable: bool, updateSucceeded: bool): (r: ModerationPanel)
    ensures updateSucceeded ==>
              r.listings == ApplyDisable(p.listings, p.selected, disable, p.reason) &&
              r.selected == [] && r.reason == []
    ensures updateSucceeded ==> !ControlsShown(r)
    ensures !updateSucceeded ==> r == p
  {
    if updateSucceeded then ModerationPanel(ApplyDisable(p.listings, p.selected, disable, p.reason), [], [])
    else p
  }

  /** Selecting the same listing again after a successful update offers Enable exactly when it was disabled. */
  lemma ReselectShowsOutcome(p: ModerationPanel, disable: bool)
    requires FindListing(p.listings, p.selected).Some?
    ensures var r := ToggleListing(p, disable, true);
            EnableAvailable(r.listings, p.selected) <==> disable
  {
    ButtonsFollowUpdate(p.listings, p.selected, disable, p.reason);
  }

  /** After a listing is disabled, its Enable button is the available one, and conversely. */
  lemma ButtonsFollowUpdate(ls: seq<AdminListing>, id: string, disable: bool, reason: string)
    requires FindListing(ls, id).Some?
    ensures EnableAvailable(ApplyDisable(ls, id, disable, reason), id) <==> disable
  {
    var r := ApplyDisable(ls, id, disable, reason);
    forall i | 0 <= i < |ls| ensures IsListing(id)(ls[i]) == IsListing(id)(r[i]) {
      // the update touches only the moderation fields, never the id
      assert r[i].id == ls[i].id;
    }
    FirstIndexSameAnswers(ls, r, IsListing(id));
  }
}
