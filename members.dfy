/**
 * The member (beneficiary) record of members/models.py: its gender and
 * relation choices, the unique national ID and the cascade from a deleted
 * sponsor to its dependants.
 */
module Members {
  import opened Wrappers
  import opened Tables

  datatype Gender = Male | Female
  {
    /** The stored one-letter code. */
    function Code(): string
    {
      match this
      case Male => "M"
      case Female => "F"
    }
  }

  /** Reads a stored gender code; only `M` and `F` are choices. */
  function GenderFromCode(code: string): (g: Option<Gender>)
    ensures g.Some? <==> code == "M" || code == "F"
    ensures g.Some? ==> g.value.Code() == code
  {
    if code == "M" then Some(Male) else if code == "F" then Some(Female) else None
  }

  lemma GenderCodeRoundTrip(g: Gender)
    ensures GenderFromCode(g.Code()) == Some(g)
  {
  }

  datatype RelationType = Principal | Spouse | Child | Parent | Brother | Sister | Other
  {
    /** The stored relation code. */
    function Code(): string
    {
      match this
      case Principal => "PRINCIPAL"
      case Spouse => "SPOUSE"
      case Child => "CHILD"
      case Parent => "PARENT"
      case Brother => "BROTHER"
      case Sister => "SISTER"
      case Other => "OTHER"
    }
  }

  const RelationCodes: set<string> :=
    {"PRINCIPAL", "SPOUSE", "CHILD", "PARENT", "BROTHER", "SISTER", "OTHER"}

  /** Reads a stored relation code; exactly the seven choices are accepted. */
  function RelationFromCode(code: string): (r: Option<RelationType>)
    ensures r.Some? <==> code in RelationCodes
    ensures r.Some? ==> r.value.Code() == code
  {
    match code
    case "PRINCIPAL" => Some(Principal)
    case "SPOUSE" => Some(Spouse)
    case "CHILD" => Some(Child)
    case "PARENT" => Some(Parent)
    case "BROTHER" => Some(Brother)
    case "SISTER" => Some(Sister)
    case "OTHER" => Some(Other)
    case _ => None
  }

  lemma RelationCodeRoundTrip(r: RelationType)
    ensures RelationFromCode(r.Code()) == Some(r)
  {
  }

  /** A stored member. `sponsor` is the optional self-reference to the head of the family. */
  datatype Member = Member(
    id: MemberId,
    client: ClientId,
    policyClass: ClassId,
    sponsor: Option<MemberId>,
    fullName: string,
    nationalId: string,
    nationalAddress: string,
    medicalCardNumber: Option<string>,
    gender: Gender,
    relation: RelationType,
    phoneNumber: string,
    isActive: bool)

  /**
   * A new member as created through the model: `is_active` takes its
   * default, true.
   */
  function NewMember(
    id: MemberId, client: ClientId, policyClass: ClassId, sponsor: Option<MemberId>,
    fullName: string, nationalId: string, nationalAddress: string,
    medicalCardNumber: Option<string>, gender: Gender, relation: RelationType,
    phoneNumber: string): (m: Member)
    ensures m.isActive
    ensures m.id == id && m.nationalId == nationalId && m.sponsor == sponsor && m.relation == relation
  {
    Member(id, client, policyClass, sponsor, fullName, nationalId, nationalAddress,
           medicalCardNumber, gender, relation, phoneNumber, true)
  }

  /** The member table, by primary key. */
  type MemberTable = map<MemberId, Member>

  /** `national_id` is unique. */
  predicate UniqueNationalIds(t: MemberTable)
  {
    forall a, b :: a in t && b in t && a != b ==> t[a].nationalId != t[b].nationalId
  }

  /** The unique column accepts a new member exactly when no stored member has its national ID. */
  lemma InsertKeepsUniqueNationalIds(t: MemberTable, m: Member)
    requires UniqueNationalIds(t) && m.id !in t
    ensures UniqueNationalIds(t[m.id := m]) <==> forall k :: k in t ==> t[k].nationalId != m.nationalId
  {
    var t' := t[m.id := m];
    if forall k :: k in t ==> t[k].nationalId != m.nationalId {
      forall a, b | a in t' && b in t' && a != b
        ensures t'[a].nationalId != t'[b].nationalId
      {
        if a != m.id && b != m.id {
          assert t'[a] == t[a] && t'[b] == t[b];
        }
      }
    } else {
      var k :| k in t && t[k].nationalId == m.nationalId;
      assert t'[k] == t[k] && t'[m.id] == m;
    }
  }

  /** Every sponsor reference points at a stored member. */
  predicate SponsorsExist(t: MemberTable)
  {
    forall k :: k in t && t[k].sponsor.Some? ==> t[k].sponsor.value in t
  }

  /** The members whose sponsor is no longer stored. */
  function Orphans(t: MemberTable): (o: set<MemberId>)
    ensures o <= t.Keys
    ensures o == {} <==> SponsorsExist(t)
  {
    var o := set k | k in t && t[k].sponsor.Some? && t[k].sponsor.value !in t;
    assert forall k :: k in t && t[k].sponsor.Some? && t[k].sponsor.value !in t ==> k in o;
    o
  }

  /** Removes orphans until none is left: the `on_delete=CASCADE` of the sponsor reference. */
  function RemoveOrphans(t: MemberTable): (r: MemberTable)
    ensures r.Keys <= t.Keys && SponsorsExist(r)
    ensures forall k :: k in r ==> r[k] == t[k]
    ensures forall k :: k in t && k !in r ==> t[k].sponsor.Some? && t[k].sponsor.value !in r
    ensures forall k :: k in t && t[k].sponsor.Some? && t[k].sponsor.value in r ==> k in r
    ensures SponsorsExist(t) ==> r == t
    decreases |t|
  {
    var o := Orphans(t);
    if o == {} then t
    else
      var rest := t - o;
      assert rest.Keys == t.Keys - o;
      assert |rest.Keys| < |t.Keys| by {
        var k :| k in o;
        assert rest.Keys < t.Keys;
      }
      RemoveOrphans(rest)
  }

  /** A set of stored members that contains the sponsor of each of its members. */
  predicate SponsorClosed(t: MemberTable, s: set<MemberId>)
  {
    s <= t.Keys && forall k :: k in s && t[k].sponsor.Some? ==> t[k].sponsor.value in s
  }

  /**
   * The cascade keeps every group of members whose sponsors are all kept:
   * it removes no more than it must, so its result is the largest part of the
   * table in which every sponsor reference resolves.
   */
  lemma {:induction false} RemoveOrphansKeepsClosed(t: MemberTable, s: set<MemberId>)
    requires SponsorClosed(t, s)
    ensures s <= RemoveOrphans(t).Keys
    decreases |t|
  {
    var o := Orphans(t);
    if o != {} {
      var rest := t - o;
      assert rest.Keys == t.Keys - o;
      assert |rest.Keys| < |t.Keys| by {
        var k :| k in o;
        assert rest.Keys < t.Keys;
      }
      forall k | k in s
        ensures k in rest
      {
        assert k !in o;
      }
      assert SponsorClosed(rest, s);
      RemoveOrphansKeepsClosed(rest, s);
    }
  }

  /**
   * Deleting a member deletes, transitively, every dependant it sponsors:
   * a member other than `id` goes exactly when its sponsor goes. Nothing else
   * changes and no sponsor reference is left dangling.
   */
  function DeleteMember(t: MemberTable, id: MemberId): (r: MemberTable)
    ensures id !in r && r.Keys <= t.Keys && SponsorsExist(r)
    ensures forall k :: k in r ==> r[k] == t[k]
    ensures forall k :: k in t && k != id && k !in r ==> t[k].sponsor.Some? && t[k].sponsor.value !in r
    ensures forall k :: k in t && k != id && t[k].sponsor.Some? && t[k].sponsor.value in r ==> k in r
  {
    RemoveOrphans(t - {id})
  }

  /**
   * Members whose chain of sponsors stays clear of `id` survive its deletion:
   * any sponsor-closed group of members without `id` is kept whole.
   */
  lemma DeleteKeepsUnrelated(t: MemberTable, id: MemberId, s: set<MemberId>)
    requires SponsorClosed(t, s) && id !in s
    ensures s <= DeleteMember(t, id).Keys
  {
    assert SponsorClosed(t - {id}, s);
    RemoveOrphansKeepsClosed(t - {id}, s);
  }

  /** Deleting a member with no dependants removes exactly that member. */
  lemma DeleteWithoutDependants(t: MemberTable, id: MemberId)
    requires SponsorsExist(t)
    requires forall k :: k in t ==> t[k].sponsor != Some(id)
    ensures DeleteMember(t, id) == t - {id}
  {
    assert SponsorsExist(t - {id});
  }
}
