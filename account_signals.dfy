/**
 * The post-save receiver of accounts/signals.py: after a user is saved,
 * their membership in role-named groups becomes exactly the group named
 * after their role (created when missing), and groups with other names are
 * left alone.
 */
module AccountSignals {
  import opened Accounts

  /** The group names that correspond to a role. */
  function RoleGroupNames(): (names: set<string>)
    ensures forall i :: 0 <= i < |RoleValues| ==> RoleValues[i] in names
    ensures forall g :: g in names ==> g in RoleValues
  {
    set i | 0 <= i < |RoleValues| :: RoleValues[i]
  }

  /** The auth groups that exist, by name (group names are unique). */
  class GroupRegistry {
    var names: set<string>

    constructor (names: set<string>)
      ensures this.names == names
    {
      this.names := names;
    }
  }

  /** The user's groups after the receiver ran for a non-empty `role`. */
  function SyncedGroups(groups: set<string>, role: string): (r: set<string>)
    ensures role in r
    ensures forall g :: g in r && g in RoleGroupNames() ==> g == role
    ensures forall g :: g !in RoleGroupNames() && g != role ==> (g in r <==> g in groups)
    ensures r <= groups + {role}
  {
    (groups - RoleGroupNames()) + {role}
  }

  /** Running the receiver again changes nothing. */
  lemma SyncIdempotent(groups: set<string>, role: string)
    ensures SyncedGroups(SyncedGroups(groups, role), role) == SyncedGroups(groups, role)
  {
  }

  /** A user already in exactly the right role group keeps the same groups. */
  lemma SyncKeepsSettled(groups: set<string>, role: string)
    requires role in groups
    requires forall g :: g in groups && g in RoleGroupNames() ==> g == role
    ensures SyncedGroups(groups, role) == groups
  {
  }

  /** `move_user_to_group`. */
  method MoveUserToGroup(user: User, registry: GroupRegistry)
    modifies user`groups, registry`names
    ensures user.role == "" ==> user.groups == old(user.groups) && registry.names == old(registry.names)
    ensures user.role != "" ==> user.groups == SyncedGroups(old(user.groups), user.role)
    ensures user.role != "" ==> registry.names == old(registry.names) + {user.role}
  {
    if user.role == "" {
      return;
    }
    var groupName := user.role;
    registry.names := registry.names + {groupName};
    if groupName !in user.groups {
      user.groups := user.groups + {groupName};
    }
    var toRemove := set g | g in user.groups && g in RoleGroupNames() && g != groupName;
    if toRemove != {} {
      user.groups := user.groups - toRemove;
    }
  }

  /**
   * A save followed by its post-save receiver: the flags follow the role and,
   * for a non-empty role, the user's only role-named group is the role's own.
   */
  method SaveAndSync(user: User, registry: GroupRegistry)
    modifies user`role, user`isSuperuser, user`isStaff, user`groups, registry`names
    ensures Access(user.role, user.isSuperuser, user.isStaff) == Normalize(old(user.role), old(user.isSuperuser))
    ensures user.role != "" ==> user.groups * RoleGroupNames() == {user.role} * RoleGroupNames()
    ensures user.role != "" ==> user.groups == SyncedGroups(old(user.groups), user.role)
  {
    user.Save();
    MoveUserToGroup(user, registry);
  }
}
