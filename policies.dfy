/**
 * Insurance policies of policies/models.py: a policy is either a master
 * policy with its own provider or a subsidiary of a master policy whose
 * provider it inherits (`effective_provider`), copies on `save` and must not
 * contradict in `clean`; a subsidiary also inherits its master's classes
 * (`effective_classes`). Also the declared bounds of a class benefit's
 * co-pay percentage and the three declared unique pairs.
 */
module Policies {
  import opened Wrappers
  import opened Tables

  type PolicyId = nat
  type BenefitTypeId = nat

  /** The two failures `Policy.clean` raises. */
  datatype PolicyError = NeitherMasterNorProvider | ProviderMismatch

  /** A stored policy class: the policy it belongs to and its name. */
  datatype ClassRecord = ClassRecord(id: ClassId, policy: PolicyId, name: string)

  class Policy {
    const id: PolicyId
    var client: ClientId
    var masterPolicy: Policy?
    var provider: Option<ProviderId>
    var policyNumber: string
    var isActive: bool

    /** A new, unsaved policy; `is_active` defaults to true. */
    constructor (id: PolicyId, client: ClientId, masterPolicy: Policy?, provider: Option<ProviderId>, policyNumber: string)
      ensures this.id == id && this.client == client && this.masterPolicy == masterPolicy
      ensures this.provider == provider && this.policyNumber == policyNumber
      ensures isActive
    {
      this.id := id;
      this.client := client;
      this.masterPolicy := masterPolicy;
      this.provider := provider;
      this.policyNumber := policyNumber;
      isActive := true;
    }

    /** `is_subsidiary`: the policy hangs under a master policy. */
    predicate IsSubsidiary()
      reads this
    {
      masterPolicy != null
    }

    /** `effective_provider`: the master's provider for a subsidiary, else the policy's own. */
    function EffectiveProvider(): Option<ProviderId>
      reads this, masterPolicy
    {
      if masterPolicy != null then masterPolicy.provider else provider
    }

    /** `clean` on this policy's master and provider. `None` means the policy is valid. */
    function Clean(): (r: Option<PolicyError>)
      reads this, masterPolicy
      ensures r.None? <==>
        (IsSubsidiary() || provider.Some?) && (IsSubsidiary() && provider.Some? ==> provider == EffectiveProvider())
      ensures r == Some(NeitherMasterNorProvider) <==> !IsSubsidiary() && provider.None?
      ensures r.None? && provider.Some? ==> provider == EffectiveProvider()
    {
      CleanFields(masterPolicy, provider)
    }

    /**
     * `save`: a subsidiary copies its master's provider before it is stored.
     * Afterwards the stored provider is the effective one, the effective
     * provider itself is unchanged, and a subsidiary passes `clean`.
     */
    method Save()
      modifies this`provider
      ensures provider == old(EffectiveProvider())
      ensures EffectiveProvider() == old(EffectiveProvider())
      ensures !old(IsSubsidiary()) ==> provider == old(provider)
      ensures IsSubsidiary() ==> Clean().None?
    {
      if masterPolicy != null {
        provider := masterPolicy.provider;
      }
    }

    /** `effective_classes`: the master's classes for a subsidiary, else the policy's own. */
    function EffectiveClasses(classes: seq<ClassRecord>): (r: seq<ClassRecord>)
      reads this, masterPolicy
      ensures forall c :: c in r <==> c in classes && c.policy == (if IsSubsidiary() then masterPolicy.id else id)
    {
      ClassesOf(if masterPolicy != null then masterPolicy.id else id, classes)
    }
  }

  /**
   * `clean` over the two fields it reads: a policy needs a master or a
   * provider, and a subsidiary that names a provider must name its master's.
   */
  function CleanFields(masterPolicy: Policy?, provider: Option<ProviderId>): (r: Option<PolicyError>)
    reads masterPolicy
    ensures r == Some(NeitherMasterNorProvider) <==> masterPolicy == null && provider.None?
    ensures r == Some(ProviderMismatch) <==>
      masterPolicy != null && provider.Some? && masterPolicy.provider != provider
  {
    if masterPolicy == null && provider.None? then Some(NeitherMasterNorProvider)
    else if masterPolicy != null && provider.Some? && masterPolicy.provider != provider then Some(ProviderMismatch)
    else None
  }

  /** The classes of the policy `pid` (its `classes` relation), in table order. */
  function ClassesOf(pid: PolicyId, classes: seq<ClassRecord>): (r: seq<ClassRecord>)
    ensures forall c :: c in r <==> c in classes && c.policy == pid
    ensures |r| <= |classes|
  {
    if classes == [] then []
    else
      var rest := ClassesOf(pid, classes[..|classes| - 1]);
      var last := classes[|classes| - 1];
      assert classes == classes[..|classes| - 1] + [last];
      if last.policy == pid then rest + [last] else rest
  }

  /** A subsidiary of a top-level master sees exactly the master's classes and provider. */
  lemma SubsidiaryInheritsMaster(p: Policy, classes: seq<ClassRecord>)
    requires p.masterPolicy != null && p.masterPolicy.masterPolicy == null
    ensures p.EffectiveClasses(classes) == p.masterPolicy.EffectiveClasses(classes)
    ensures p.EffectiveProvider() == p.masterPolicy.EffectiveProvider()
  {
  }

  // ---------------------------------------------------------------------
  // Class benefits
  // ---------------------------------------------------------------------

  /** The errors Django's validators report for `deductible_percentage`. */
  datatype RangeError = BelowMinimum | AboveMaximum

  const MinDeductible := 0
  const MaxDeductible := 100

  /** A benefit of a policy class; money is kept in halalas (hundredths). */
  datatype ClassBenefit = ClassBenefit(
    policyClass: ClassId,
    benefitType: BenefitTypeId,
    limitHalalas: int,
    deductiblePercentage: int,
    description: string)

  /** Every validator of the field runs; each failed bound adds its error. */
  function DeductibleErrors(p: int): (r: seq<RangeError>)
    ensures r == [] <==> MinDeductible <= p <= MaxDeductible
    ensures |r| <= 1
    ensures BelowMinimum in r <==> p < MinDeductible
    ensures AboveMaximum in r <==> p > MaxDeductible
  {
    (if p < MinDeductible then [BelowMinimum] else []) + (if p > MaxDeductible then [AboveMaximum] else [])
  }

  /** A benefit created with the declared defaults: no limit amount and no co-pay. */
  function NewClassBenefit(policyClass: ClassId, benefitType: BenefitTypeId): (b: ClassBenefit)
    ensures b.policyClass == policyClass && b.benefitType == benefitType
    ensures DeductibleErrors(b.deductiblePercentage) == [] && b.deductiblePercentage == 0
    ensures b.limitHalalas == 0 && b.description == ""
  {
    ClassBenefit(policyClass, benefitType, 0, MinDeductible, "")
  }

  // ---------------------------------------------------------------------
  // Declared unique pairs
  // ---------------------------------------------------------------------

  predicate Distinct<K(==)>(keys: seq<K>)
  {
    forall i, j :: 0 <= i < j < |keys| ==> keys[i] != keys[j]
  }

  /** The database accepts a new row exactly when its key is not already taken. */
  lemma AppendKeepsDistinct<K>(keys: seq<K>, k: K)
    requires Distinct(keys)
    ensures Distinct(keys + [k]) <==> k !in keys
  {
    var s := keys + [k];
    if k in keys {
      var i :| 0 <= i < |keys| && keys[i] == k;
      assert s[i] == s[|keys|];
    } else {
      forall i, j | 0 <= i < j < |s|
        ensures s[i] != s[j]
      {
        if j < |keys| {
          assert s[i] == keys[i] && s[j] == keys[j];
        } else {
          assert s[i] == keys[i] && s[j] == k;
        }
      }
    }
  }

  /** `(client, policy_number)` of each policy. */
  function PolicyKeys(ps: seq<Policy>): (r: seq<(ClientId, string)>)
    reads set p | p in ps
    ensures |r| == |ps|
    ensures forall i :: 0 <= i < |ps| ==> r[i] == (ps[i].client, ps[i].policyNumber)
  {
    seq(|ps|, i reads set p | p in ps requires 0 <= i < |ps| => (ps[i].client, ps[i].policyNumber))
  }

  /** `(policy, name)` of each policy class. */
  function ClassKeys(cs: seq<ClassRecord>): (r: seq<(PolicyId, string)>)
    ensures |r| == |cs|
    ensures forall i :: 0 <= i < |cs| ==> r[i] == (cs[i].policy, cs[i].name)
  {
    seq(|cs|, i requires 0 <= i < |cs| => (cs[i].policy, cs[i].name))
  }

  /** `(policy_class, benefit_type)` of each class benefit. */
  function BenefitKeys(bs: seq<ClassBenefit>): (r: seq<(ClassId, BenefitTypeId)>)
    ensures |r| == |bs|
    ensures forall i :: 0 <= i < |bs| ==> r[i] == (bs[i].policyClass, bs[i].benefitType)
  {
    seq(|bs|, i requires 0 <= i < |bs| => (bs[i].policyClass, bs[i].benefitType))
  }

  /** A new policy is accepted iff the client has no policy with its number yet. */
  lemma AddPolicyAccepted(ps: seq<Policy>, p: Policy)
    requires Distinct(PolicyKeys(ps))
    ensures Distinct(PolicyKeys(ps + [p])) <==>
      forall i :: 0 <= i < |ps| ==> ps[i].client != p.client || ps[i].policyNumber != p.policyNumber
  {
    assert PolicyKeys(ps + [p]) == PolicyKeys(ps) + [(p.client, p.policyNumber)];
    AppendKeepsDistinct(PolicyKeys(ps), (p.client, p.policyNumber));
  }

  /** A new class is accepted iff its policy has no class of that name yet. */
  lemma AddClassAccepted(cs: seq<ClassRecord>, c: ClassRecord)
    requires Distinct(ClassKeys(cs))
    ensures Distinct(ClassKeys(cs + [c])) <==>
      forall i :: 0 <= i < |cs| ==> cs[i].policy != c.policy || cs[i].name != c.name
  {
    assert ClassKeys(cs + [c]) == ClassKeys(cs) + [(c.policy, c.name)];
    AppendKeepsDistinct(ClassKeys(cs), (c.policy, c.name));
  }

  /** A new benefit is accepted iff its class has no benefit of that type yet. */
  lemma AddBenefitAccepted(bs: seq<ClassBenefit>, b: ClassBenefit)
    requires Distinct(BenefitKeys(bs))
    ensures Distinct(BenefitKeys(bs + [b])) <==>
      forall i :: 0 <= i < |bs| ==> bs[i].policyClass != b.policyClass || bs[i].benefitType != b.benefitType
  {
    assert BenefitKeys(bs + [b]) == BenefitKeys(bs) + [(b.policyClass, b.benefitType)];
    AppendKeepsDistinct(BenefitKeys(bs), (b.policyClass, b.benefitType));
  }

  /** Within one policy, a class name picks out at most one class. */
  lemma ClassNameIdentifiesClass(cs: seq<ClassRecord>, i: nat, j: nat)
    requires Distinct(ClassKeys(cs))
    requires i < |cs| && j < |cs|
    requires cs[i].policy == cs[j].policy && cs[i].name == cs[j].name
    ensures i == j
  {
    var keys := ClassKeys(cs);
    assert keys[i] == keys[j];
  }
}
