/**
 * The policy form of policies/forms.py. Its constructor makes the provider
 * optional and offers only top-level policies as masters; its `clean`
 * requires a master policy or a provider and otherwise hands the data back.
 * It is laxer than `Policy.clean`: it does not compare the two providers.
 * As a ModelForm it also runs `Policy.clean` during `is_valid()`, and there
 * a failure escapes as an exception rather than a form error.
 */
module PolicyForms {
  import opened Wrappers
  import opened Tables
  import opened Policies

  /** The fields of the form that its validation and `save` look at. */
  datatype PolicyFormData = PolicyFormData(
    client: ClientId,
    masterPolicy: Policy?,
    provider: Option<ProviderId>,
    policyNumber: string,
    isActive: bool)

  datatype FormError = MasterOrProviderRequired

  /** `PolicyForm.clean`: refuses data with neither a master policy nor a provider. */
  function CleanPolicyForm(data: PolicyFormData): (r: Result<PolicyFormData, FormError>)
    ensures r.Failure? <==> data.masterPolicy == null && data.provider.None?
    ensures r.Success? ==> r.value == data
  {
    if data.masterPolicy == null && data.provider.None? then Failure(MasterOrProviderRequired)
    else Success(data)
  }

  /**
   * The outcome of `is_valid()`: the data is valid, or `Policy.clean` raised.
   * The model's `clean` in policies/models.py raises `ValidationError`
   * without importing it, so the failure is a `NameError` that escapes the
   * form; `cause` says which check raised it.
   */
  datatype Validation = Valid(data: PolicyFormData) | Raised(cause: PolicyError)

  /**
   * `is_valid()` of the ModelForm: the form's `clean` runs first and its error
   * is recorded; the model's `clean` then runs on the constructed instance
   * whatever the form's verdict was.
   */
  function IsValid(data: PolicyFormData): (r: Validation)
    reads data.masterPolicy
    ensures r.Valid? <==> CleanFields(data.masterPolicy, data.provider).None?
    ensures r.Valid? ==> CleanPolicyForm(data) == Success(r.data) && r.data == data
    ensures CleanPolicyForm(data).Failure? ==> r == Raised(NeitherMasterNorProvider)
    ensures r.Raised? ==> Some(r.cause) == CleanFields(data.masterPolicy, data.provider)
  {
    var form := CleanPolicyForm(data);
    var model := CleanFields(data.masterPolicy, data.provider);
    if model.Some? then Raised(model.value)
    else Valid(form.value)
  }

  /** The policies with no master, in their order: the form's master choices. */
  function TopLevel(ps: seq<Policy>): (r: seq<Policy>)
    reads set p | p in ps
    ensures forall i :: 0 <= i < |r| ==> r[i] in ps && r[i].masterPolicy == null
    ensures forall i :: 0 <= i < |ps| && ps[i].masterPolicy == null ==> ps[i] in r
  {
    if ps == [] then []
    else
      var rest := TopLevel(ps[..|ps| - 1]);
      var last := ps[|ps| - 1];
      assert ps == ps[..|ps| - 1] + [last];
      if last.masterPolicy == null then rest + [last] else rest
  }

  /** The form's view of a stored policy. */
  function FormDataOf(p: Policy): (d: PolicyFormData)
    reads p
    ensures d.masterPolicy == p.masterPolicy && d.provider == p.provider
  {
    PolicyFormData(p.client, p.masterPolicy, p.provider, p.policyNumber, p.isActive)
  }

  /** The form refuses exactly the policies the model refuses for lacking both. */
  lemma FormRefusesLikeModel(p: Policy)
    ensures CleanPolicyForm(FormDataOf(p)).Failure? <==> p.Clean() == Some(NeitherMasterNorProvider)
  {
  }

  /** Everything the model accepts, the form accepts. */
  lemma ModelValidIsFormValid(p: Policy)
    ensures p.Clean().None? ==> CleanPolicyForm(FormDataOf(p)) == Success(FormDataOf(p))
  {
  }

  /**
   * The form's own `clean` lets through a subsidiary naming a provider other
   * than its master's; `is_valid()` then fails in the model's `clean`.
   */
  lemma FormAcceptsProviderMismatch(p: Policy)
    requires p.masterPolicy != null && p.provider.Some? && p.masterPolicy.provider != p.provider
    ensures CleanPolicyForm(FormDataOf(p)).Success?
    ensures p.Clean() == Some(ProviderMismatch)
    ensures IsValid(FormDataOf(p)) == Raised(ProviderMismatch)
  {
  }

  /** `is_valid()` accepts exactly what the model's `clean` accepts. */
  lemma ValidIffModelValid(p: Policy)
    ensures IsValid(FormDataOf(p)).Valid? <==> p.Clean().None?
  {
  }

  class PolicyForm {
    var providerRequired: bool
    var masterChoices: seq<Policy>

    /** The master choices are still all top-level policies. */
    predicate ChoicesTopLevel()
      reads this, set q | q in masterChoices
    {
      forall i :: 0 <= i < |masterChoices| ==> masterChoices[i].masterPolicy == null
    }

    /** `PolicyForm.__init__` over the stored policies `policies`. */
    constructor (policies: seq<Policy>)
      ensures !providerRequired
      ensures forall q :: q in masterChoices <==> q in policies && q.masterPolicy == null
      ensures ChoicesTopLevel()
    {
      providerRequired := false;
      masterChoices := TopLevel(policies);
    }

    /**
     * Saving a form that passed `is_valid()` creates a policy through
     * `Policy.save`. A master taken from the choices has no master itself, so
     * nesting stops at one level, and the new policy stores its effective
     * provider and passes `clean`.
     */
    method Save(id: PolicyId, data: PolicyFormData) returns (p: Policy)
      requires IsValid(data).Valid?
      requires data.masterPolicy == null || data.masterPolicy in masterChoices
      requires ChoicesTopLevel()
      ensures fresh(p)
      ensures p.id == id && p.client == data.client && p.masterPolicy == data.masterPolicy
      ensures p.policyNumber == data.policyNumber && p.isActive == data.isActive
      ensures p.provider == (if data.masterPolicy != null then data.masterPolicy.provider else data.provider)
      ensures p.masterPolicy != null ==> p.masterPolicy.masterPolicy == null
      ensures p.provider.Some? || p.IsSubsidiary()
      ensures p.Clean().None?
    {
      p := new Policy(id, data.client, data.masterPolicy, data.provider, data.policyNumber);
      p.isActive := data.isActive;
      p.Save();
    }
  }
}
