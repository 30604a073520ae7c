/**
 * The system user of accounts/models.py: its role (one of ten codes,
 * MEMBER by default) and how `User.save` derives the Django superuser and
 * staff flags from the role, after first promoting an existing superuser
 * to SUPER_ADMIN.
 */
module Accounts {
  import opened Wrappers
  import opened Tables

  const SuperAdmin := "SUPER_ADMIN"
  const BrokerAdmin := "BROKER_ADMIN"
  const BrokerStaff := "BROKER_STAFF"
  const HrAdmin := "HR_ADMIN"
  const HrStaff := "HR_STAFF"
  const Pharmacist := "PHARMACIST"
  const ChronicAdmin := "CHRONIC_ADMIN"
  const ChronicStaff := "CHRONIC_STAFF"
  const Viewer := "VIEWER"
  const MemberRole := "MEMBER"

  /** The values of `User.Roles`, in declaration order. */
  const RoleValues: seq<string> :=
    [SuperAdmin, BrokerAdmin, BrokerStaff, HrAdmin, HrStaff, Pharmacist, ChronicAdmin, ChronicStaff, Viewer, MemberRole]

  /** The roles whose users may enter the Django admin site. */
  predicate IsStaffRole(role: string)
  {
    role == SuperAdmin || role == BrokerAdmin || role == BrokerStaff
  }

  /** The role and the two flags as `User.save` leaves them. */
  datatype Access = Access(role: string, isSuperuser: bool, isStaff: bool)

  /**
   * The normalisation at the start of `User.save`, from the role and the
   * superuser flag before saving (the old staff flag plays no part).
   */
  function Normalize(role: string, isSuperuser: bool): (a: Access)
    ensures isSuperuser ==> a.role == SuperAdmin
    ensures !isSuperuser ==> a.role == role
    ensures a.isSuperuser <==> a.role == SuperAdmin
    ensures a.isStaff <==> IsStaffRole(a.role)
  {
    var r := if isSuperuser then SuperAdmin else role;
    if r == SuperAdmin then Access(r, true, true)
    else if r == BrokerAdmin || r == BrokerStaff then Access(r, false, true)
    else Access(r, false, false)
  }

  /** Normalising an already normalised user changes nothing. */
  lemma NormalizeIdempotent(role: string, isSuperuser: bool)
    ensures var a := Normalize(role, isSuperuser); Normalize(a.role, a.isSuperuser) == a
  {
  }

  /** A superuser stays SUPER_ADMIN whatever role is set before saving. */
  lemma SuperuserNotDemoted(role: string, otherRole: string)
    ensures Normalize(otherRole, Normalize(role, true).isSuperuser).role == SuperAdmin
  {
  }

  class User {
    var username: string
    var role: string
    var isSuperuser: bool
    var isStaff: bool
    var relatedClient: Option<ClientId>
    var nationalId: string
    var phoneNumber: string
    /** The names of the auth groups the user belongs to. */
    var groups: set<string>

    /** A new user: role MEMBER, no flags, no groups. */
    constructor (username: string)
      ensures this.username == username && role == MemberRole
      ensures !isSuperuser && !isStaff
      ensures relatedClient.None? && nationalId == "" && phoneNumber == "" && groups == {}
    {
      this.username := username;
      role := MemberRole;
      isSuperuser := false;
      isStaff := false;
      relatedClient := None;
      nationalId := "";
      phoneNumber := "";
      groups := {};
    }

    /** `User.save`: rewrites the role and both flags; nothing else changes. */
    method Save()
      modifies this`role, this`isSuperuser, this`isStaff
      ensures Access(role, isSuperuser, isStaff) == Normalize(old(role), old(isSuperuser))
      ensures isSuperuser <==> role == SuperAdmin
      ensures isStaff <==> IsStaffRole(role)
    {
      if isSuperuser {
        role := SuperAdmin;
      }
      if role == SuperAdmin {
        isSuperuser := true;
        isStaff := true;
      } else if role == BrokerAdmin || role == BrokerStaff {
        isSuperuser := false;
        isStaff := true;
      } else {
        isSuperuser := false;
        isStaff := false;
      }
    }
  }

  /** Saving a second time leaves the role and flags of the first save. */
  method SaveTwice(u: User)
    modifies u`role, u`isSuperuser, u`isStaff
    ensures Access(u.role, u.isSuperuser, u.isStaff) == Normalize(old(u.role), old(u.isSuperuser))
  {
    u.Save();
    NormalizeIdempotent(old(u.role), old(u.isSuperuser));
    u.Save();
  }
}
