# Insurance brokerage core rules, in Dafny

This project models the record rules of a Django application used by a
health-insurance broker. The broker manages client companies, which may be
holding groups with subsidiaries. It also manages their insurance policies,
the policy classes of those policies, the insured members (employees and
their dependants), claims and system users. The model covers:

- the spreadsheet import of members (`process_bulk_upload`): the row-by-row
  validation loop, its duplicate, sponsor and policy-class checks, and its
  success/failure report;
- the member record (gender and relation choices, the unique national ID,
  the cascade from a deleted sponsor to its dependants);
- the member edit form: how it scopes the client, class and sponsor choices,
  and how `clean` restores hidden values and enforces the sponsor rule;
- the `.xlsx` check of the upload form;
- claims: the year-scoped claim reference `CLM-<year>-<nnnnn>` and the
  attachment storage path;
- master and subsidiary policies: provider inheritance, `clean`, `save` and
  inherited classes; the policy form and its `is_valid()`; the co-pay bounds of a class benefit
  and the declared unique pairs;
- user role normalisation on save and the role-to-group synchronisation
  that runs after every save.

The database is represented by values: maps keyed by national ID or primary
key, sequences of table rows in primary-key order, and a `SaveOracle`
function that says whether an insert succeeds. Objects whose fields the
source updates in place are Dafny classes: `Claim`, `Policy`, `PolicyForm`,
`MemberForm`, `User` and `GroupRegistry`.

One module per source file:

| file | module | source |
|---|---|---|
| wrappers.dfy | `Wrappers` | `Option` / `Result` |
| text.dfy | `Text` | the ASCII part of the Python string operations the source uses (strip, upper/lower, `int()` on plain digit strings, `{n:05d}`, `split('-')[-1]`, string ordering) |
| tables.dfy | `Tables` | identifiers and the flat policy-class row the member screens query |
| members.dfy | `Members` | members/models.py |
| member_bulk_upload.dfy | `MemberBulkUpload` | members/utils.py |
| member_forms.dfy | `MemberForms` | members/forms.py |
| member_upload_form.dfy | `MemberUploadForm` | members/forms_upload.py |
| claims.dfy | `Claims` | claims/models.py |
| policies.dfy | `Policies` | policies/models.py |
| policy_forms.dfy | `PolicyForms` | policies/forms.py |
| accounts.dfy | `Accounts` | accounts/models.py |
| account_signals.dfy | `AccountSignals` | accounts/signals.py |

The bulk import is specified in two layers.

- `BulkUpload` folds a pure `Step` over the rows. `Step` performs the checks
  of one row in the source's order: required fields, in-file duplicate,
  existing member, sponsor or class, gender, save.
- `ProcessBulkUpload` is the imperative loop. It keeps a `processed` set, a
  `cache` map and the `success` and `failed` lists, and its postcondition is
  that it returns `BulkUpload` of its inputs.

The properties of the import are lemmas about `BulkUpload`:

- every non-empty row is reported exactly once, under its spreadsheet row
  number;
- the saved national IDs are distinct and new;
- every saved dependant has a sponsor in the same client and shares its
  class;
- a repeated national ID is refused, even when its first row failed;
- missing fields are reported before anything else.

## Model

| member | source | states |
|---|---|---|
| Text.ParseFormatRoundTrip | claims/models.py:87-91 | parsing the zero-padded decimal `{n:05d}` with `int()` gives back `n` |
| Text.StripTrims | members/utils.py:91-100 | `str.strip()` leaves a contiguous slice of the input with no blank at either end and removes only blanks |
| Text.LastSegment | claims/models.py:87 | `split('-')[-1]` contains no dash and is a suffix of the input |
| Claims.Reference | claims/models.py:91 | a reference starts with `CLM-<year>-`, so the year lookup finds it |
| Claims.YearReferences | claims/models.py:85 | the lookup sees exactly the stored references that start with `CLM-<year>` |
| Claims.Greatest | claims/models.py:85 | `order_by(...).last()` is a stored reference that no other stored reference exceeds in string order; none exists only for an empty table |
| Claims.NextReference | claims/models.py:83-91 | with no reference for the year the result is `CLM-<year>-00001`; any result is `CLM-<year>-<n>` with n >= 1 |
| Claims.SequenceRoundTrip | claims/models.py:87-91 | the last dash segment of `CLM-<year>-<n:05d>` parses back to n |
| Claims.ReferenceRoundTrip | claims/models.py:91 | a reference parses back to its year and sequence number |
| Claims.ReferenceLength | claims/models.py:54-91 | a 4-digit year and a sequence below 100000 give 14 characters, within `max_length=20` |
| Claims.LexOrderIsNumericOrder | claims/models.py:85-88 | for sequence numbers below 100000, string order of references is numeric order |
| Claims.LexOrderBreaksPast99999 | claims/models.py:85-88 | `CLM-<year>-100000` sorts before `CLM-<year>-99999` |
| Claims.NextReferenceIsFresh | claims/models.py:84-91 | when all stored references of the year have sequences below 99999, the new one is defined, not stored, and sorts after all of them |
| Claims.NextReferenceRepeatsPast99999 | claims/models.py:84-91 | with `-99999` and `-100000` stored, the generator produces the stored `-100000` again |
| Claims.NextReferenceNumeric | claims/models.py:84-91 | corrected rule (numeric maximum plus one); with no reference for the year it gives `-00001` |
| Claims.NextReferenceNumericIsFresh | claims/models.py:84-91 | the corrected rule never repeats a stored reference of the year, at any width |
| Claims.RulesAgreeBelowLimit | claims/models.py:84-91 | below 99999 the as-written and corrected rules assign the same reference |
| Claims.ClaimFileUploadPath | claims/models.py:9-22 | the path is `claims/docs/<reference>/<file>`, or `claims/docs/unsorted/<file>` for an empty reference; an absolute file name replaces the whole path (`os.path.join`) |
| Claims.IssuedReferenceFolder | claims/models.py:16-22 | an issued reference contains no `/`, so its attachments go in their own folder |
| Claims.Claim.constructor | claims/models.py:54-57 | a new claim has no reference and status DRAFT |
| Claims.Claim.Save | claims/models.py:82-92 | a claim that has a reference keeps it; one without gets `NextReference`, and the insert succeeds iff that reference is not already stored |
| Claims.SaveNewClaim | claims/models.py:82-92 | in the five-digit regime a new claim is saved with a fresh `CLM-<year>-<n>` reference and status DRAFT |
| Members.GenderFromCode | members/models.py:7-9 | only `M` and `F` are gender choices, and each reads back to its code |
| Members.GenderCodeRoundTrip | members/models.py:7-9 | every gender's code reads back to that gender |
| Members.RelationFromCode | members/models.py:11-18 | exactly the seven relation codes are choices |
| Members.RelationCodeRoundTrip | members/models.py:11-18 | every relation's code reads back to that relation |
| Members.NewMember | members/models.py:81 | a new member is active |
| Members.Orphans | members/models.py:48-54 | the members with a dangling sponsor; none exist iff every sponsor reference resolves |
| Members.RemoveOrphans | members/models.py:48-54 | the cascade leaves no dangling sponsor; a member is removed exactly when its sponsor is gone; kept members are unchanged; a consistent table is unchanged |
| Members.RemoveOrphansKeepsClosed | members/models.py:48-54 | any group of members that contains the sponsors of its members survives the cascade, so it removes no more than it must |
| Members.DeleteMember | members/models.py:48-54 | deleting a member removes it; any other member is removed exactly when its sponsor is removed; kept members are unchanged and no sponsor reference dangles |
| Members.DeleteKeepsUnrelated | members/models.py:48-54 | members whose sponsor chain does not reach the deleted member survive the deletion |
| Members.InsertKeepsUniqueNationalIds | members/models.py:60-63 | the unique `national_id` column accepts a new member iff no stored member has its national ID |
| Members.DeleteWithoutDependants | members/models.py:48-54 | a member that sponsors no one is deleted alone |
| MemberBulkUpload.Cleaned | members/utils.py:91-99 | a cell yields a value iff it is truthy |
| MemberBulkUpload.CleanedUpper | members/utils.py:95-96 | gender and relation cells yield upper-case values |
| MemberBulkUpload.MapGender | members/utils.py:191-205 | MALE/M map to M and FEMALE/F to F; anything else is refused |
| MemberBulkUpload.MapRelation | members/utils.py:192-201 | PRINCIPAL and EMPLOYEE map to PRINCIPAL and nothing else does; each relation code maps to itself; SON and DAUGHTER map to CHILD; anything else maps to OTHER |
| MemberBulkUpload.FirstClass | members/utils.py:171-187 | a class is found iff one matches (name ignoring case, owner, master-only); the result is the first match in table order |
| MemberBulkUpload.LookupClass | members/utils.py:169-187 | the client's own classes are searched first; the parent's master-policy classes only when none matches (fallback, not union); a result has the requested name |
| MemberBulkUpload.BulkUpload | members/utils.py:75-76 | `total_rows` counts every row, empty ones included |
| MemberBulkUpload.ProcessBulkUpload | members/utils.py:60-230 | the imperative loop returns exactly the report of the row-by-row specification |
| MemberBulkUpload.StepAppendsOne | members/utils.py:84-107 | an empty row changes nothing; any other row adds exactly one entry, success or failure, tagged with its row number |
| MemberBulkUpload.ScanIsTagged | members/utils.py:84-228 | after n rows, the entries are tagged with the numbers of the non-empty rows among them, in increasing order |
| MemberBulkUpload.ResultsAccountForRows | members/utils.py:84-228 | success plus failed entries equal the non-empty rows (at most `total_rows`); tags are increasing row numbers from 2; no row number is in both lists |
| MemberBulkUpload.SaveRowKeeps | members/utils.py:189-224 | a save keeps the cache equal to the saved members, all new, of the client, with resolved sponsor or class |
| MemberBulkUpload.CheckRowKeeps | members/utils.py:109-228 | the checks of one row preserve that consistency |
| MemberBulkUpload.ScanConsistent | members/utils.py:84-228 | consistency holds after every row |
| MemberBulkUpload.UploadIsConsistent | members/utils.py:115-224 | the saved national IDs are pairwise distinct and none belonged to a stored member; every saved dependant's sponsor is in the client with the same class |
| MemberBulkUpload.CheckRowProcessed | members/utils.py:109-118 | a row with all required fields adds its national ID to the processed set before any other check; other rows add nothing |
| MemberBulkUpload.ScanProcessedGrows | members/utils.py:118 | the processed set only grows |
| MemberBulkUpload.LaterDuplicateFails | members/utils.py:114-118 | a later row with the same national ID fails as a duplicate, whatever happened to the first |
| MemberBulkUpload.MissingFieldsReported | members/utils.py:109-112 | a row missing a required field fails with "Missing required fields" under its name or `Unknown`, before any duplicate check |
| MemberBulkUpload.DependantClassMismatchFails | members/utils.py:150-162 | a dependant naming a class other than its sponsor's (ignoring case) fails with a class mismatch |
| MemberForms.TargetClient | members/forms.py:42-58 | an HR user's client always wins; then `client_id`, then the posted client, then the instance's client |
| MemberForms.EligibleClasses | members/forms.py:68-101 | with no target client there is no choice; otherwise exactly the eligible classes are offered |
| MemberForms.EligibleIsUnion | members/forms.py:75-89 | the class choices are the client's own classes together with the parent's master-policy classes |
| MemberForms.UnknownClientOwnClassesOnly | members/forms.py:79-85 | a client id that names no stored client gets only its own classes |
| MemberForms.SponsorChoices | members/forms.py:91-101 | the sponsor choices are exactly the principal members of the target client |
| MemberForms.CleanSpec | members/forms.py:135-166 | the relation is kept and the client restored; a principal has an error iff it has a sponsor, and its data is otherwise unchanged; a dependant's missing sponsor comes from the initial value, else the instance, and its missing class from the sponsor, else the initial class, else the instance; a dependant has an error iff no sponsor is found; an error drops the sponsor from the cleaned data (`add_error`); at most one error |
| MemberForms.DependantInheritsSponsorClass | members/forms.py:153-158 | a dependant with no class takes its sponsor's class |
| MemberForms.ClientRestored | members/forms.py:143-146 | a missing client comes from the field's initial value, else from the instance |
| MemberForms.MemberForm.constructor | members/forms.py:29-133 | choices, initial values, hidden client and disabled sponsor/class fields as `__init__` sets them |
| MemberForms.MemberForm.Clean | members/forms.py:135-166 | `clean` produces `CleanSpec`, with the sponsor dropped on an error, and records its data and errors on the form |
| MemberUploadForm.CleanFile | members/forms_upload.py:13-17 | a file is accepted iff its name ends in `.xlsx`, and an accepted file is returned unchanged |
| MemberUploadForm.XlsxNameAccepted | members/forms_upload.py:15-17 | any `<stem>.xlsx` is accepted, whatever its content |
| MemberUploadForm.UpperCaseSuffixRejected | members/forms_upload.py:15 | `<stem>.XLSX` is rejected (case-sensitive) |
| MemberUploadForm.OnlyNameExamined | members/forms_upload.py:13-17 | files with the same name get the same verdict |
| Policies.Policy.constructor | policies/models.py:21-39 | a new policy holds the given fields and is active |
| Policies.Policy.Clean | policies/models.py:56-64 | valid iff a master or a provider is set and a subsidiary's provider, if given, is its master's; neither set gives the first error |
| Policies.CleanFields | policies/models.py:56-64 | the first check fails iff neither master nor provider is set; the second iff a subsidiary names a provider other than its master's |
| Policies.Policy.Save | policies/models.py:66-75 | the stored provider becomes the effective provider, which itself is unchanged; a top-level policy keeps its provider; a saved subsidiary passes `clean`; only `provider` is written |
| Policies.Policy.EffectiveClasses | policies/models.py:88-97 | a subsidiary sees its master's classes, a top-level policy its own |
| Policies.ClassesOf | policies/models.py:95-97 | `classes.all()` contains exactly the classes of that policy |
| Policies.SubsidiaryInheritsMaster | policies/models.py:45-97 | a subsidiary of a top-level master has the master's effective provider and classes |
| Policies.DeductibleErrors | policies/models.py:158-163 | the co-pay percentage is valid iff it lies in [0, 100]; below 0 and above 100 give the matching error |
| Policies.NewClassBenefit | policies/models.py:149-165 | a new benefit has co-pay 0 (valid), limit 0 and an empty description |
| Policies.AppendKeepsDistinct | policies/models.py:167-168 | a table of unique pairs accepts a new row iff its pair is not taken |
| Policies.AddPolicyAccepted | policies/models.py:42-43 | a new policy is accepted iff the client has no policy with that number |
| Policies.AddClassAccepted | policies/models.py:120-121 | a new class is accepted iff its policy has no class with that name |
| Policies.AddBenefitAccepted | policies/models.py:167-168 | a new benefit is accepted iff its class has no benefit of that type |
| Policies.ClassNameIdentifiesClass | policies/models.py:120-121 | within a policy a class name identifies at most one class |
| PolicyForms.CleanPolicyForm | policies/forms.py:26-34 | the form refuses data iff both master and provider are empty, and otherwise returns it unchanged |
| PolicyForms.TopLevel | policies/forms.py:23 | the master choices are exactly the stored policies without a master |
| PolicyForms.FormRefusesLikeModel | policies/forms.py:31-32 | the form refuses exactly what the model refuses for lacking both master and provider |
| PolicyForms.ModelValidIsFormValid | policies/forms.py:26-34 | whatever the model's `clean` accepts, the form accepts |
| PolicyForms.IsValid | policies/forms.py:26-34 | `is_valid()` succeeds iff the model's `clean` accepts the data, and then returns it unchanged; when the form's own `clean` fails, the model's `clean` raises as well |
| PolicyForms.ValidIffModelValid | policies/forms.py:26-34 | `is_valid()` accepts a policy's data iff `Policy.clean` accepts the policy |
| PolicyForms.FormAcceptsProviderMismatch | policies/forms.py:26-34 | `PolicyForm.clean` accepts a subsidiary with a provider other than its master's; `Policy.clean` refuses it, so `is_valid()` raises |
| PolicyForms.PolicyForm.constructor | policies/forms.py:19-24 | the provider is optional and only top-level policies are master choices |
| PolicyForms.PolicyForm.Save | policies/forms.py:23 | a form that passed `is_valid()` saves a policy that passes `clean`; with a chosen master it nests one level only and stores the inherited provider |
| Accounts.Normalize | accounts/models.py:84-104 | a superuser's role becomes SUPER_ADMIN; `is_superuser` iff SUPER_ADMIN; `is_staff` iff SUPER_ADMIN, BROKER_ADMIN or BROKER_STAFF |
| Accounts.NormalizeIdempotent | accounts/models.py:84-104 | normalising twice equals normalising once |
| Accounts.SuperuserNotDemoted | accounts/models.py:86-87 | once saved as superuser, changing the role alone does not demote |
| Accounts.User.constructor | accounts/models.py:44-49 | a new user's role is MEMBER |
| Accounts.User.Save | accounts/models.py:84-104 | role and flags become `Normalize` of the old role and superuser flag; nothing else is written |
| Accounts.SaveTwice | accounts/models.py:84-104 | saving twice leaves the role and flags of one save |
| AccountSignals.RoleGroupNames | accounts/signals.py:31 | the role group names are exactly the role values |
| AccountSignals.SyncedGroups | accounts/signals.py:18-37 | the user is in the role's group, in no other role group, and keeps every group whose name is not a role value |
| AccountSignals.SyncIdempotent | accounts/signals.py:6-37 | synchronising twice equals synchronising once |
| AccountSignals.SyncKeepsSettled | accounts/signals.py:21-24 | a user already in exactly the right role group keeps their groups |
| AccountSignals.MoveUserToGroup | accounts/signals.py:6-37 | an empty role changes nothing; otherwise the groups become `SyncedGroups`, and the global groups grow by the role group only |
| AccountSignals.SaveAndSync | accounts/signals.py:6-37 | after a save and its post-save signal the flags follow the role and the groups are synchronised |

Stated through other members:

- `Policies.Policy.EffectiveProvider` and `Policies.Policy.IsSubsidiary` are stated through `Clean`, `Save` and `SubsidiaryInheritsMaster`.

## Left out

- Excel reading: `openpyxl`, the template generator and the cell types. Rows are sequences of cells, and a cell is empty or holds text. A non-text cell such as the number 0 is not modelled; Python treats it as falsy.
- `MemberBulkUpload.Cleaned`, `MemberBulkUpload.CleanedUpper`: Unicode whitespace and Unicode case mapping are not modelled. Only ASCII blanks are stripped and only ASCII letters change case.
- Database queries, `save()` and transactions: they are replaced by maps, row sequences and the `SaveOracle`. Concurrent allocation of claim references is not modelled; the generator is sequential over the stored references.
- The import calls `save()` without `full_clean()`, so the 10-character national ID is not enforced there. The model does not assume it.
- `MemberBulkUpload.UploadIsConsistent`: a dependant's sponsor may itself be a dependant saved earlier in the same file. The source allows this; the lemma only states that the sponsor is in the client with the same class.
- Policy classes and members are identified by primary key; UUIDs become natural numbers.
- Falsy primary keys (id 0) are not modelled.
- `MemberForms.TargetClient`: a posted client id that is malformed or list-valued is not modelled. This is the `ValueError`/`TypeError` branch at members/forms.py:96-98.
- `MemberForms.TargetClient`: an HR user without a related client is not modelled. The source would raise there.
- `MemberForms.MemberForm.constructor`: widget attributes, labels and the HTMX attributes are not modelled.
- Permission lookups (`is_hr`, `is_broker`, ...) become the `Requester` input; permission tables are not modelled.
- `Policies.Policy.Clean`: in the source, `ValidationError` is not imported in policies/models.py, so both failures would surface as `NameError`. The model reports them as two distinct failures; `PolicyForms.IsValid` treats either as an exception that escapes `is_valid()`.
- The member table's declared field lengths (`max_length`) and its unique `medical_card_number` column are not modelled; whether an insert succeeds is the `SaveOracle`.
- `Text.ParseNat`: only plain ASCII digit strings parse. Python's `int()` also accepts surrounding whitespace, a sign and `_` separators; the references it reads are generated by `Claims.Reference`, which never produces those.
- `Text.IsSpace`: only ASCII whitespace (including the separators U+001C to U+001F) is stripped. Non-ASCII whitespace such as U+0085 and U+00A0, which `str.strip()` also removes, is not modelled.
- Dates, decimal money amounts, files, exchange rates and encrypted fields are left out. No arithmetic is done on them.
- Django's own field validation before `clean` (choice membership, required fields) is only modelled where a property needs it. `PolicyForms.PolicyForm.Save` requires the chosen master to be one of the choices.
- Views, management commands, admin, URLs and settings are not part of this model, nor is chronic_care/models.py.

## Findings

| source | as written | input that shows it | evidently intended | confidence | as-written member | corrected member |
|---|---|---|---|---|---|---|
| claims/models.py:85-91 | the next reference is one more than the suffix of the lexicographically greatest `CLM-<year>` reference | stored `CLM-2025-99999` and `CLM-2025-100000`: the greatest string is `-99999`, so the new reference is `CLM-2025-100000` again, which the unique constraint rejects | one more than the numerically greatest suffix | not executed | Claims.NextReferenceRepeatsPast99999 | Claims.NextReferenceNumericIsFresh |
