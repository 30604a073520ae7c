/**
 * The member edit form of members/forms.py: how `MemberForm.__init__` scopes
 * the client, policy-class and sponsor fields to the client being edited,
 * and how `MemberForm.clean` restores hidden or disabled values and enforces
 * the sponsor rule (dependants need one, principals may not have one).
 *
 * The database is passed in as a `Database` value: clients with their
 * parent, policy classes in primary-key order, and the member table.
 */
module MemberForms {
  import opened Wrappers
  import opened Tables
  import opened Members

  /** The requesting user: an HR user is tied to one client; anyone else is not. */
  datatype Requester = HrUser(relatedClient: ClientId) | OtherUser | Anonymous

  datatype Database = Database(
    clients: map<ClientId, Option<ClientId>>,
    classes: seq<PolicyClassRow>,
    members: MemberTable)

  /** The values of a bound form that `__init__` looks at. */
  datatype Posted = Posted(client: Option<ClientId>, relation: Option<string>)

  /** A sponsor as the form holds it: the member and its policy class. */
  datatype SponsorRef = SponsorRef(id: MemberId, policyClass: ClassId)

  function SponsorOf(id: MemberId, db: Database): (r: Option<SponsorRef>)
    ensures r.Some? <==> id in db.members
    ensures r.Some? ==> r.value.id == id && r.value.policyClass == db.members[id].policyClass
  {
    if id in db.members then Some(SponsorRef(id, db.members[id].policyClass)) else None
  }

  /**
   * The client the form is scoped to: an HR user's own client; otherwise the
   * `client_id` argument, else the posted client; otherwise the client of a
   * stored instance.
   */
  function TargetClient(req: Requester, clientId: Option<ClientId>, posted: Option<Posted>, instance: Option<Member>)
    : (r: Option<ClientId>)
    ensures req.HrUser? ==> r == Some(req.relatedClient)
    ensures !req.HrUser? && clientId.Some? ==> r == clientId
    ensures !req.HrUser? && clientId.None? && posted.Some? && posted.value.client.Some? ==> r == posted.value.client
    ensures !req.HrUser? && clientId.None? && (posted.None? || posted.value.client.None?) && instance.Some? ==>
      r == Some(instance.value.client)
    ensures r.None? <==> !req.HrUser? && clientId.None? && (posted.None? || posted.value.client.None?) && instance.None?
  {
    var postedClient := if posted.Some? then posted.value.client else None;
    if req.HrUser? then Some(req.relatedClient)
    else if clientId.Some? || postedClient.Some? then (if clientId.Some? then clientId else postedClient)
    else if instance.Some? then Some(instance.value.client)
    else None
  }

  /** The parent company of `cid`, when `cid` is a stored client that has one. */
  function ParentOf(cid: ClientId, db: Database): Option<ClientId>
  {
    if cid in db.clients then db.clients[cid] else None
  }

  /** A class of one of the client's own policies, or of a master policy of its parent company. */
  predicate Eligible(c: PolicyClassRow, cid: ClientId, db: Database)
  {
    c.policyClient == cid ||
    (ParentOf(cid, db).Some? && c.policyClient == ParentOf(cid, db).value && !c.policyHasMaster)
  }

  /** The `policy_class` choices: every eligible class, once each. */
  function EligibleClasses(target: Option<ClientId>, db: Database): (r: set<ClassId>)
    ensures target.None? ==> r == {}
    ensures forall id :: id in r <==>
      target.Some? && exists i :: 0 <= i < |db.classes| && db.classes[i].id == id && Eligible(db.classes[i], target.value, db)
  {
    if target.None? then {}
    else
      var r := set i | 0 <= i < |db.classes| && Eligible(db.classes[i], target.value, db) :: db.classes[i].id;
      assert forall i :: 0 <= i < |db.classes| && Eligible(db.classes[i], target.value, db) ==> db.classes[i].id in r;
      r
  }

  predicate OwnedBy(c: PolicyClassRow, owner: ClientId, mastersOnly: bool)
  {
    c.policyClient == owner && (mastersOnly ==> !c.policyHasMaster)
  }

  /** Classes of the policies that `owner` holds, restricted to master policies when `mastersOnly`. */
  function ClassesOf(owner: ClientId, mastersOnly: bool, db: Database): (r: set<ClassId>)
    ensures forall id :: id in r <==>
      exists i :: 0 <= i < |db.classes| && db.classes[i].id == id && OwnedBy(db.classes[i], owner, mastersOnly)
  {
    var r := set i | 0 <= i < |db.classes| && OwnedBy(db.classes[i], owner, mastersOnly) :: db.classes[i].id;
    assert forall i :: 0 <= i < |db.classes| && OwnedBy(db.classes[i], owner, mastersOnly) ==> db.classes[i].id in r;
    r
  }

  /**
   * The class choices are the union of the client's own classes and, when the
   * client is stored and has a parent, the parent's master-policy classes.
   */
  lemma EligibleIsUnion(cid: ClientId, db: Database)
    ensures EligibleClasses(Some(cid), db) ==
      ClassesOf(cid, false, db) + (if ParentOf(cid, db).Some? then ClassesOf(ParentOf(cid, db).value, true, db) else {})
  {
    var lhs := EligibleClasses(Some(cid), db);
    var rhs := ClassesOf(cid, false, db) + (if ParentOf(cid, db).Some? then ClassesOf(ParentOf(cid, db).value, true, db) else {});
    forall id | id in rhs
      ensures id in lhs
    {
      if id in ClassesOf(cid, false, db) {
        var i :| 0 <= i < |db.classes| && db.classes[i].id == id && OwnedBy(db.classes[i], cid, false);
        assert Eligible(db.classes[i], cid, db);
      } else {
        var i :| 0 <= i < |db.classes| && db.classes[i].id == id && OwnedBy(db.classes[i], ParentOf(cid, db).value, true);
        assert Eligible(db.classes[i], cid, db);
      }
    }
    forall id | id in lhs
      ensures id in rhs
    {
      var i :| 0 <= i < |db.classes| && db.classes[i].id == id && Eligible(db.classes[i], cid, db);
      if db.classes[i].policyClient == cid {
        assert id in ClassesOf(cid, false, db);
      } else {
        assert id in ClassesOf(ParentOf(cid, db).value, true, db);
      }
    }
  }

  /** An id that names no stored client is offered only the classes of its own policies. */
  lemma UnknownClientOwnClassesOnly(cid: ClientId, db: Database)
    requires cid !in db.clients
    ensures EligibleClasses(Some(cid), db) == ClassesOf(cid, false, db)
  {
    EligibleIsUnion(cid, db);
  }

  /** The `sponsor` choices: the principal members of the target client. */
  function SponsorChoices(target: Option<ClientId>, db: Database): (r: set<MemberId>)
    ensures forall id :: id in r <==>
      target.Some? && id in db.members && db.members[id].client == target.value && db.members[id].relation == Principal
  {
    if target.None? then {}
    else set id | id in db.members && db.members[id].client == target.value && db.members[id].relation == Principal
  }

  /**
   * The form is for a dependant when the requested relation type is given and
   * not PRINCIPAL, when the stored instance is not a principal, or when the
   * posted relation is given and not PRINCIPAL.
   */
  predicate IsDependent(relationType: Option<string>, instance: Option<Member>, posted: Option<Posted>)
  {
    NamesDependant(relationType) ||
    (instance.Some? && instance.value.relation != Principal) ||
    (posted.Some? && NamesDependant(posted.value.relation))
  }

  /** The relation code PRINCIPAL. */
  const PrincipalCode: string := "PRINCIPAL"

  /** A relation value that is given (not empty) and is not PRINCIPAL. */
  predicate NamesDependant(relation: Option<string>)
  {
    relation.Some? && relation.value != "" && relation.value != PrincipalCode
  }

  /** The cleaned values `clean` reads and rewrites. */
  datatype CleanedData = CleanedData(
    client: Option<ClientId>,
    relation: Option<string>,
    sponsor: Option<SponsorRef>,
    policyClass: Option<ClassId>)

  /** Errors `clean` records on the `sponsor` field. */
  datatype SponsorError = SponsorRequiredForDependant | PrincipalHasSponsor

  /**
   * What `clean` produces: the rewritten values and the errors it recorded, or
   * the failure of reading a required relation (`client`, `policy_class`)
   * from an instance that has none.
   */
  datatype CleanOutcome =
    | Cleaned(data: CleanedData, errors: seq<SponsorError>)
    | RelatedObjectMissing(field: string)

  predicate IsPrincipal(relation: Option<string>) { relation == Some(PrincipalCode) }

  /** The sponsor of a stored instance, as the form reads it. */
  function InstanceSponsor(instance: Option<Member>, db: Database): Option<SponsorRef>
  {
    if instance.Some? && instance.value.sponsor.Some? then SponsorOf(instance.value.sponsor.value, db) else None
  }

  /**
   * `clean` over the values the form holds after `__init__`. Recording an
   * error with `add_error('sponsor', ...)` also drops `sponsor` from the
   * cleaned data.
   */
  function CleanSpec(
    data: CleanedData, clientInitial: Option<ClientId>, sponsorInitial: Option<SponsorRef>,
    classInitial: Option<ClassId>, instance: Option<Member>, db: Database): (r: CleanOutcome)
    ensures r.Cleaned? ==> r.data.relation == data.relation
    ensures r.Cleaned? && data.client.Some? ==> r.data.client == data.client
    ensures r.Cleaned? && data.client.None? ==> r.data.client.Some?
    ensures r.Cleaned? && r.errors != [] ==> r.data.sponsor.None?
    ensures r.Cleaned? && IsPrincipal(data.relation) ==>
      r.data == data.(client := r.data.client, sponsor := None) &&
      (r.errors == [] <==> data.sponsor.None?) && (r.errors != [] ==> r.errors == [PrincipalHasSponsor])
    ensures r.Cleaned? && !IsPrincipal(data.relation) ==>
      (r.errors == [] <==> r.data.sponsor.Some?) && (r.errors != [] ==> r.errors == [SponsorRequiredForDependant])
    ensures r.Cleaned? && !IsPrincipal(data.relation) ==>
      r.data.sponsor == (if data.sponsor.Some? then data.sponsor
                         else if sponsorInitial.Some? then sponsorInitial
                         else InstanceSponsor(instance, db))
    ensures r.Cleaned? && !IsPrincipal(data.relation) && data.policyClass.Some? ==>
      r.data.policyClass == data.policyClass
    ensures r.Cleaned? && !IsPrincipal(data.relation) && data.policyClass.None? && r.data.sponsor.None? ==>
      r.data.policyClass == (if classInitial.Some? then classInitial
                             else if instance.Some? then Some(instance.value.policyClass) else None)
    ensures r.Cleaned? ==> |r.errors| <= 1
    ensures r.RelatedObjectMissing? ==> instance.None?
  {
    var instanceClient := if instance.Some? then Some(instance.value.client) else None;
    var instanceClass := if instance.Some? then Some(instance.value.policyClass) else None;
    var client := if data.client.Some? then data.client
                  else if clientInitial.Some? then clientInitial
                  else instanceClient;
    if client.None? then RelatedObjectMissing("client")
    else
      var d := data.(client := client);
      if IsPrincipal(data.relation) then
        if d.sponsor.Some? then Cleaned(d.(sponsor := None), [PrincipalHasSponsor]) else Cleaned(d, [])
      else
        var sponsor := if d.sponsor.Some? then d.sponsor
                       else if sponsorInitial.Some? then sponsorInitial
                       else InstanceSponsor(instance, db);
        var cls := if d.policyClass.Some? then d.policyClass
                   else if sponsor.Some? then Some(sponsor.value.policyClass)
                   else if classInitial.Some? then classInitial
                   else instanceClass;
        if cls.None? then RelatedObjectMissing("policy_class")
        else
          var d2 := d.(sponsor := sponsor, policyClass := cls);
          Cleaned(d2, if sponsor.None? then [SponsorRequiredForDependant] else [])
  }

  /** A dependant without a class of its own takes the class of its sponsor. */
  lemma DependantInheritsSponsorClass(
    data: CleanedData, clientInitial: Option<ClientId>, sponsorInitial: Option<SponsorRef>,
    classInitial: Option<ClassId>, instance: Option<Member>, db: Database)
    requires !IsPrincipal(data.relation) && data.policyClass.None?
    ensures var r := CleanSpec(data, clientInitial, sponsorInitial, classInitial, instance, db);
      r.Cleaned? && r.data.sponsor.Some? ==> r.data.policyClass == Some(r.data.sponsor.value.policyClass)
  {
  }

  /** With neither a cleaned nor an initial client, the instance's client is used. */
  lemma ClientRestored(
    data: CleanedData, clientInitial: Option<ClientId>, sponsorInitial: Option<SponsorRef>,
    classInitial: Option<ClassId>, instance: Option<Member>, db: Database)
    requires data.client.None?
    ensures var r := CleanSpec(data, clientInitial, sponsorInitial, classInitial, instance, db);
      (clientInitial.Some? ==> r.Cleaned? ==> r.data.client == clientInitial) &&
      (clientInitial.None? && instance.Some? ==> r.Cleaned? && r.data.client == Some(instance.value.client)) &&
      (clientInitial.None? && instance.None? ==> r == RelatedObjectMissing("client"))
  {
  }

  /**
   * The member form after `__init__`. Field attributes `__init__` sets are
   * fields of the object; `clean` rewrites `cleaned` and appends to `errors`.
   */
  class MemberForm {
    const instance: Option<Member>
    const db: Database
    var medicalCardRequired: bool
    var clientInitial: Option<ClientId>
    var clientHidden: bool
    var classChoices: set<ClassId>
    var sponsorChoices: set<MemberId>
    var relationInitial: Option<string>
    var sponsorInitial: Option<SponsorRef>
    var classInitial: Option<ClassId>
    var phoneInitial: Option<string>
    var sponsorDisabled: bool
    var classDisabled: bool
    var cleaned: Option<CleanedData>
    var errors: seq<SponsorError>

    constructor(
      req: Requester, clientId: Option<ClientId>, relationType: Option<string>,
      sponsorId: Option<MemberId>, posted: Option<Posted>, instance: Option<Member>, db: Database)
      ensures this.instance == instance && this.db == db
      ensures !medicalCardRequired
      ensures clientInitial == (if req.HrUser? || clientId.Some? || (posted.Some? && posted.value.client.Some?)
                                then TargetClient(req, clientId, posted, instance) else None)
      ensures clientHidden <==> req.HrUser? || clientId.Some?
      ensures classChoices == EligibleClasses(TargetClient(req, clientId, posted, instance), db)
      ensures sponsorChoices == SponsorChoices(TargetClient(req, clientId, posted, instance), db)
      ensures relationInitial == relationType
      ensures var s := if sponsorId.Some? then sponsorId
                       else if instance.Some? then instance.value.sponsor else None;
        sponsorInitial == (if s.Some? then SponsorOf(s.value, db) else None) &&
        classInitial == (if sponsorInitial.Some? then Some(sponsorInitial.value.policyClass) else None) &&
        phoneInitial == (if sponsorInitial.Some? && instance.None? then Some(db.members[s.value].phoneNumber) else None)
      ensures sponsorDisabled == classDisabled == IsDependent(relationType, instance, posted)
      ensures cleaned.None? && errors == []
    {
      this.instance := instance;
      this.db := db;
      medicalCardRequired := false;
      var postedClient := if posted.Some? then posted.value.client else None;
      var target := TargetClient(req, clientId, posted, instance);
      clientInitial := None;
      clientHidden := false;
      if req.HrUser? {
        clientInitial := target;
        clientHidden := true;
      } else if clientId.Some? || postedClient.Some? {
        clientInitial := target;
        if clientId.Some? {
          clientHidden := true;
        }
      }
      classChoices := EligibleClasses(target, db);
      sponsorChoices := SponsorChoices(target, db);

      var dependent := NamesDependant(relationType) || (instance.Some? && instance.value.relation != Principal);
      if posted.Some? && !dependent {
        if NamesDependant(posted.value.relation) {
          dependent := true;
        }
      }
      relationInitial := relationType;

      var actualSponsor := if sponsorId.Some? then sponsorId
                           else if instance.Some? then instance.value.sponsor else None;
      sponsorInitial := None;
      classInitial := None;
      phoneInitial := None;
      if actualSponsor.Some? {
        var sponsor := SponsorOf(actualSponsor.value, db);
        if sponsor.Some? {
          sponsorInitial := sponsor;
          classInitial := Some(sponsor.value.policyClass);
          if instance.None? {
            phoneInitial := Some(db.members[actualSponsor.value].phoneNumber);
          }
        }
      }
      sponsorDisabled := dependent;
      classDisabled := dependent;
      cleaned := None;
      errors := [];
    }

    /**
     * `clean`: restores hidden or disabled values and records the sponsor
     * errors; a field with an error leaves the cleaned data.
     */
    method Clean(data: CleanedData) returns (r: CleanOutcome)
      modifies this`cleaned, this`errors
      ensures r == CleanSpec(data, clientInitial, sponsorInitial, classInitial, instance, db)
      ensures r.Cleaned? ==> cleaned == Some(r.data) && errors == old(errors) + r.errors
      ensures r.RelatedObjectMissing? ==> cleaned == old(cleaned) && errors == old(errors)
    {
      var d := data;
      if d.client.None? {
        var client := if clientInitial.Some? then clientInitial
                      else if instance.Some? then Some(instance.value.client) else None;
        if client.None? {
          return RelatedObjectMissing("client");
        }
        d := d.(client := client);
      }
      if !IsPrincipal(d.relation) {
        if d.sponsor.None? {
          d := d.(sponsor := if sponsorInitial.Some? then sponsorInitial else InstanceSponsor(instance, db));
        }
        if d.policyClass.None? {
          if d.sponsor.Some? {
            d := d.(policyClass := Some(d.sponsor.value.policyClass));
          } else {
            var cls := if classInitial.Some? then classInitial
                       else if instance.Some? then Some(instance.value.policyClass) else None;
            if cls.None? {
              return RelatedObjectMissing("policy_class");
            }
            d := d.(policyClass := cls);
          }
        }
      }
      var found: seq<SponsorError> := [];
      if !IsPrincipal(d.relation) && d.sponsor.None? {
        found := found + [SponsorRequiredForDependant];
      }
      if IsPrincipal(d.relation) && d.sponsor.Some? {
        found := found + [PrincipalHasSponsor];
      }
      if found != [] {
        d := d.(sponsor := None);
      }
      cleaned := Some(d);
      errors := errors + found;
      r := Cleaned(d, found);
    }
  }
}
