/**
 * The member bulk import of members/utils.py (`process_bulk_upload`): every
 * spreadsheet row below the header is checked in order (required fields,
 * national ID repeated in the file, national ID already stored, sponsor of a
 * dependant, policy class, gender) and either saved or reported with the
 * reason it was refused.
 *
 * The database is seen through `UploadContext`: the members stored before the
 * upload, keyed by national ID, and the policy classes in primary-key order.
 * Members saved earlier in the same upload are seen through the cache, as in
 * the source. Saving is an oracle that may refuse a member.
 */
module MemberBulkUpload {
  import opened Wrappers
  import opened Text
  import opened Tables
  import opened Members

  /** A cell as read with `values_only`: empty, or the text `str()` gives for its value. */
  datatype Cell = Empty | Filled(text: string)

  /** Python truthiness of a cell value. */
  predicate Truthy(c: Cell) { c.Filled? && c.text != "" }

  type Row = seq<Cell>

  /** Columns the template defines; a shorter non-empty row fails to unpack. */
  const RowWidth: nat := 10

  /** Spreadsheet number of the first data row (row 1 is the header). */
  const FirstRowNumber: nat := 2

  predicate AnyTruthy(row: Row) { exists i :: 0 <= i < |row| && Truthy(row[i]) }

  /** `str(cell).strip() if cell else None`. */
  function Cleaned(c: Cell): (r: Option<string>)
    ensures r.Some? <==> Truthy(c)
  {
    if Truthy(c) then Some(Strip(c.text)) else None
  }

  /** `str(cell).strip().upper() if cell else None`. */
  function CleanedUpper(c: Cell): (r: Option<string>)
    ensures r.Some? <==> Truthy(c)
    ensures r.Some? ==> Upper(r.value) == r.value
  {
    if Truthy(c) then UpperIdempotent(Strip(c.text)); Some(Upper(Strip(c.text))) else None
  }

  /** Truthiness of a cleaned value: present and not empty. */
  predicate Given(o: Option<string>) { o.Some? && o.value != "" }

  /** The ten columns of a row after cleaning. */
  datatype RowFields = RowFields(
    nid: Option<string>,
    fullName: Option<string>,
    mobile: Option<string>,
    birthDate: Cell,
    gender: Option<string>,
    relation: Option<string>,
    sponsorNid: Option<string>,
    className: Option<string>,
    medicalCard: Option<string>,
    address: string)

  function ReadRow(row: Row): RowFields
    requires |row| >= RowWidth
  {
    RowFields(
      Cleaned(row[0]), Cleaned(row[1]), Cleaned(row[2]), row[3],
      CleanedUpper(row[4]), CleanedUpper(row[5]), Cleaned(row[6]), Cleaned(row[7]),
      Cleaned(row[8]), if Truthy(row[9]) then Strip(row[9].text) else "")
  }

  /** All six required columns are given. */
  predicate HasRequired(f: RowFields)
  {
    Given(f.nid) && Given(f.fullName) && Given(f.mobile) && Truthy(f.birthDate) &&
    Given(f.gender) && Given(f.relation)
  }

  /** Why a row was refused. */
  datatype RowError =
    | FormattingError
    | MissingRequiredFields
    | DuplicateInFile
    | ExistsInThisCompany
    | ExistsInAnotherCompany(client: ClientId)
    | SponsorRequired
    | SponsorNotFound(sponsorNid: string)
    | PolicyClassMismatch(sponsorClass: string, provided: string)
    | PolicyClassRequired
    | InvalidPolicyClass(provided: string)
    | InvalidGender
    | SaveError

  datatype Succeeded = Succeeded(row: int, name: string, nid: string)
  datatype Failed = Failed(row: int, name: string, error: RowError, nid: Option<string>)
  datatype UploadResults = UploadResults(success: seq<Succeeded>, failed: seq<Failed>, totalRows: nat)

  /** A member stored before the upload, as the lookups by national ID see it. */
  datatype StoredMember = StoredMember(client: ClientId, policyClass: PolicyClassRow)

  datatype UploadContext = UploadContext(
    client: ClientId,
    parent: Option<ClientId>,
    stored: map<string, StoredMember>,
    classes: seq<PolicyClassRow>)

  /** The values the upload passes to `Member(...)`; the sponsor is named by its national ID. */
  datatype MemberDraft = MemberDraft(
    client: ClientId,
    fullName: string,
    nationalId: string,
    phoneNumber: string,
    birthDate: Cell,
    gender: Gender,
    relation: RelationType,
    sponsorNid: Option<string>,
    policyClass: PolicyClassRow,
    medicalCardNumber: Option<string>,
    nationalAddress: string)

  /** Whether `member.save()` succeeds for a draft. */
  type SaveOracle = MemberDraft -> bool

  /** Relations the upload treats as an employee; every other relation is a dependant. */
  predicate IsPrincipalRelation(rel: string) { rel == "PRINCIPAL" || rel == "EMPLOYEE" }

  /** The gender table: MALE/M and FEMALE/F. */
  function MapGender(g: string): (r: Option<Gender>)
    ensures r == Some(Male) <==> g == "MALE" || g == "M"
    ensures r == Some(Female) <==> g == "FEMALE" || g == "F"
  {
    match g
    case "MALE" => Some(Male)
    case "M" => Some(Male)
    case "FEMALE" => Some(Female)
    case "F" => Some(Female)
    case _ => None
  }

  /** The relation table; anything not in it becomes OTHER. */
  function MapRelation(rel: string): (r: RelationType)
    ensures r == Principal <==> IsPrincipalRelation(rel)
    ensures rel in RelationCodes ==> r.Code() == rel
    ensures rel == "SON" || rel == "DAUGHTER" ==> r == Child
    ensures rel !in RelationCodes && !IsPrincipalRelation(rel) && rel != "SON" && rel != "DAUGHTER" ==> r == Other
  {
    match rel
    case "PRINCIPAL" => Principal
    case "EMPLOYEE" => Principal
    case "SPOUSE" => Spouse
    case "CHILD" => Child
    case "SON" => Child
    case "DAUGHTER" => Child
    case "PARENT" => Parent
    case "BROTHER" => Brother
    case "SISTER" => Sister
    case _ => Other
  }

  /** `name__iexact=name`, on a policy of `owner`, and with no master policy when `mastersOnly`. */
  predicate ClassMatches(c: PolicyClassRow, name: string, owner: ClientId, mastersOnly: bool)
  {
    Lower(c.name) == Lower(name) && c.policyClient == owner && (mastersOnly ==> !c.policyHasMaster)
  }

  predicate HasClass(classes: seq<PolicyClassRow>, name: string, owner: ClientId, mastersOnly: bool)
  {
    exists i :: 0 <= i < |classes| && ClassMatches(classes[i], name, owner, mastersOnly)
  }

  /** `.first()` of a class query: the first matching class in primary-key order. */
  function FirstClass(classes: seq<PolicyClassRow>, name: string, owner: ClientId, mastersOnly: bool)
    : (r: Option<PolicyClassRow>)
    ensures r.Some? <==> HasClass(classes, name, owner, mastersOnly)
    ensures r.Some? ==>
      exists i :: 0 <= i < |classes| && classes[i] == r.value &&
        ClassMatches(r.value, name, owner, mastersOnly) &&
        (forall j :: 0 <= j < i ==> !ClassMatches(classes[j], name, owner, mastersOnly))
  {
    if classes == [] then None
    else if ClassMatches(classes[0], name, owner, mastersOnly) then Some(classes[0])
    else
      var r := FirstClass(classes[1..], name, owner, mastersOnly);
      assert HasClass(classes, name, owner, mastersOnly) ==> HasClass(classes[1..], name, owner, mastersOnly) by {
        if HasClass(classes, name, owner, mastersOnly) {
          var i :| 0 <= i < |classes| && ClassMatches(classes[i], name, owner, mastersOnly);
          assert classes[1..][i - 1] == classes[i];
        }
      }
      if r.Some? then
        var i :| 0 <= i < |classes[1..]| && classes[1..][i] == r.value &&
          ClassMatches(r.value, name, owner, mastersOnly) &&
          (forall j :: 0 <= j < i ==> !ClassMatches(classes[1..][j], name, owner, mastersOnly));
        assert classes[i + 1] == r.value;
        assert forall j :: 0 <= j < i + 1 ==> !ClassMatches(classes[j], name, owner, mastersOnly) by {
          forall j | 0 <= j < i + 1 ensures !ClassMatches(classes[j], name, owner, mastersOnly) {
            if j > 0 { assert classes[j] == classes[1..][j - 1]; }
          }
        }
        r
      else r
  }

  /**
   * The policy class of an employee row: a class of the client's own
   * policies; only when there is none, a class of the parent company's
   * master policies.
   */
  function LookupClass(name: string, ctx: UploadContext): (r: Option<PolicyClassRow>)
    ensures HasClass(ctx.classes, name, ctx.client, false) ==>
      r == FirstClass(ctx.classes, name, ctx.client, false) && r.Some? && r.value.policyClient == ctx.client
    ensures !HasClass(ctx.classes, name, ctx.client, false) ==>
      r == if ctx.parent.Some? then FirstClass(ctx.classes, name, ctx.parent.value, true) else None
    ensures r.Some? ==> r.value in ctx.classes && Lower(r.value.name) == Lower(name)
  {
    var own := FirstClass(ctx.classes, name, ctx.client, false);
    if own.Some? then own
    else if ctx.parent.Some? then FirstClass(ctx.classes, name, ctx.parent.value, true)
    else None
  }

  /** The scan state: `processed_nids`, `member_cache` and the two result lists. */
  datatype Scan = Scan(
    processed: set<string>,
    cache: map<string, MemberDraft>,
    success: seq<Succeeded>,
    failed: seq<Failed>)

  const EmptyScan: Scan := Scan({}, map[], [], [])

  function Fail(st: Scan, index: int, name: string, error: RowError, nid: Option<string>): Scan
  {
    st.(failed := st.failed + [Failed(index, name, error, nid)])
  }

  /** The client of the member a national ID already belongs to: the cache first, then the table. */
  function ExistingClient(nid: string, st: Scan, ctx: UploadContext): Option<ClientId>
  {
    if nid in st.cache then Some(st.cache[nid].client)
    else if nid in ctx.stored then Some(ctx.stored[nid].client)
    else None
  }

  /** The sponsor a dependant names: the cache first, then the table restricted to the client. */
  function FindSponsor(sponsorNid: string, st: Scan, ctx: UploadContext): Option<StoredMember>
  {
    if sponsorNid in st.cache then
      Some(StoredMember(st.cache[sponsorNid].client, st.cache[sponsorNid].policyClass))
    else if sponsorNid in ctx.stored && ctx.stored[sponsorNid].client == ctx.client then
      Some(ctx.stored[sponsorNid])
    else None
  }

  /** The gender check and the save, once sponsor and class are settled. */
  function SaveRow(
    st: Scan, index: int, f: RowFields, ctx: UploadContext, save: SaveOracle,
    sponsorNid: Option<string>, cls: PolicyClassRow): Scan
    requires HasRequired(f)
  {
    var nid, name := f.nid.value, f.fullName.value;
    match MapGender(Upper(f.gender.value))
    case None => Fail(st, index, name, InvalidGender, None)
    case Some(g) =>
      var m := MemberDraft(ctx.client, name, nid, f.mobile.value, f.birthDate, g,
                           MapRelation(Upper(f.relation.value)), sponsorNid, cls,
                           f.medicalCard, f.address);
      if save(m) then
        st.(success := st.success + [Succeeded(index, name, nid)], cache := st.cache[nid := m])
      else Fail(st, index, name, SaveError, None)
  }

  /** A dependant row: its sponsor must be found in the client, and a given class must match the sponsor's. */
  function CheckDependant(st: Scan, index: int, f: RowFields, ctx: UploadContext, save: SaveOracle): Scan
    requires HasRequired(f)
  {
    var name := f.fullName.value;
    if !Given(f.sponsorNid) then Fail(st, index, name, SponsorRequired, None)
    else
      var sn := f.sponsorNid.value;
      match FindSponsor(sn, st, ctx)
      case None => Fail(st, index, name, SponsorNotFound(sn), None)
      case Some(sponsor) =>
        if sponsor.client != ctx.client then Fail(st, index, name, SponsorNotFound(sn), None)
        else if Given(f.className) && Lower(f.className.value) != Lower(sponsor.policyClass.name) then
          Fail(st, index, name, PolicyClassMismatch(sponsor.policyClass.name, f.className.value), None)
        else SaveRow(st, index, f, ctx, save, Some(sn), sponsor.policyClass)
  }

  /** An employee row: it must name a class the client (or its parent's master policies) has. */
  function CheckPrincipal(st: Scan, index: int, f: RowFields, ctx: UploadContext, save: SaveOracle): Scan
    requires HasRequired(f)
  {
    var name := f.fullName.value;
    if !Given(f.className) then Fail(st, index, name, PolicyClassRequired, None)
    else match LookupClass(f.className.value, ctx)
      case None => Fail(st, index, name, InvalidPolicyClass(f.className.value), None)
      case Some(cls) => SaveRow(st, index, f, ctx, save, None, cls)
  }

  /** The checks of one unpacked row, in the order the source makes them. */
  function CheckRow(st: Scan, index: int, f: RowFields, ctx: UploadContext, save: SaveOracle): Scan
  {
    if !HasRequired(f) then
      Fail(st, index, if Given(f.fullName) then f.fullName.value else "Unknown", MissingRequiredFields, None)
    else
      var nid, name := f.nid.value, f.fullName.value;
      if nid in st.processed then Fail(st, index, name, DuplicateInFile, None)
      else
        var st1 := st.(processed := st.processed + {nid});
        match ExistingClient(nid, st, ctx)
        case Some(c) =>
          Fail(st1, index, name, if c == ctx.client then ExistsInThisCompany else ExistsInAnotherCompany(c), Some(nid))
        case None =>
          if IsPrincipalRelation(f.relation.value) then CheckPrincipal(st1, index, f, ctx, save)
          else CheckDependant(st1, index, f, ctx, save)
  }

  /** One loop iteration: empty rows are skipped, short rows fail to unpack. */
  function Step(st: Scan, index: int, row: Row, ctx: UploadContext, save: SaveOracle): Scan
  {
    if !AnyTruthy(row) then st
    else if |row| < RowWidth then Fail(st, index, "Unknown", FormattingError, None)
    else CheckRow(st, index, ReadRow(row), ctx, save)
  }

  /** The scan state after the first `n` rows. */
  function ScanUpTo(rows: seq<Row>, n: nat, ctx: UploadContext, save: SaveOracle): Scan
    requires n <= |rows|
  {
    if n == 0 then EmptyScan
    else Step(ScanUpTo(rows, n - 1, ctx, save), n - 1 + FirstRowNumber, rows[n - 1], ctx, save)
  }

  /** The scan after `n` rows is one step past the scan after `n - 1`. */
  lemma ScanUnfold(rows: seq<Row>, n: nat, ctx: UploadContext, save: SaveOracle)
    requires 0 < n <= |rows|
    ensures ScanUpTo(rows, n, ctx, save) == Step(ScanUpTo(rows, n - 1, ctx, save), n - 1 + FirstRowNumber, rows[n - 1], ctx, save)
  {
  }

  /** `ScanUnfold` counted by the row's position `i` rather than by the number of rows scanned. */
  lemma ScanUnfoldAt(rows: seq<Row>, i: nat, ctx: UploadContext, save: SaveOracle)
    requires i < |rows|
    ensures ScanUpTo(rows, i + 1, ctx, save) == Step(ScanUpTo(rows, i, ctx, save), i + FirstRowNumber, rows[i], ctx, save)
  {
    ScanUnfold(rows, i + 1, ctx, save);
  }

  /** The results of an upload. */
  function BulkUpload(rows: seq<Row>, ctx: UploadContext, save: SaveOracle): (r: UploadResults)
    ensures r.totalRows == |rows|
  {
    var s := ScanUpTo(rows, |rows|, ctx, save);
    UploadResults(s.success, s.failed, |rows|)
  }

  /** `process_bulk_upload`: the row loop with its set, cache and result lists. */
  method ProcessBulkUpload(rows: seq<Row>, ctx: UploadContext, save: SaveOracle)
    returns (results: UploadResults)
    ensures results == BulkUpload(rows, ctx, save)
  {
    var processed: set<string> := {};
    var cache: map<string, MemberDraft> := map[];
    var success: seq<Succeeded> := [];
    var failed: seq<Failed> := [];
    for k := 0 to |rows|
      invariant Scan(processed, cache, success, failed) == ScanUpTo(rows, k, ctx, save)
    {
      var index := k + FirstRowNumber;
      var row := rows[k];
      ScanUnfoldAt(rows, k, ctx, save);
      if !AnyTruthy(row) {
        continue;
      }
      if |row| < RowWidth {
        failed := failed + [Failed(index, "Unknown", FormattingError, None)];
        continue;
      }
      var f := ReadRow(row);
      if !HasRequired(f) {
        var name := if Given(f.fullName) then f.fullName.value else "Unknown";
        failed := failed + [Failed(index, name, MissingRequiredFields, None)];
        continue;
      }
      var nid, name := f.nid.value, f.fullName.value;
      if nid in processed {
        failed := failed + [Failed(index, name, DuplicateInFile, None)];
        continue;
      }
      processed := processed + {nid};

      var existing := if nid in cache then Some(cache[nid].client)
                      else if nid in ctx.stored then Some(ctx.stored[nid].client)
                      else None;
      if existing.Some? {
        var error := if existing.value == ctx.client then ExistsInThisCompany
                     else ExistsInAnotherCompany(existing.value);
        failed := failed + [Failed(index, name, error, Some(nid))];
        continue;
      }

      var sponsorNid: Option<string> := None;
      var cls: PolicyClassRow;
      if !IsPrincipalRelation(f.relation.value) {
        if !Given(f.sponsorNid) {
          failed := failed + [Failed(index, name, SponsorRequired, None)];
          continue;
        }
        var sn := f.sponsorNid.value;
        var sponsor := if sn in cache then Some(StoredMember(cache[sn].client, cache[sn].policyClass))
                       else if sn in ctx.stored && ctx.stored[sn].client == ctx.client then Some(ctx.stored[sn])
                       else None;
        if sponsor.None? || sponsor.value.client != ctx.client {
          failed := failed + [Failed(index, name, SponsorNotFound(sn), None)];
          continue;
        }
        cls := sponsor.value.policyClass;
        if Given(f.className) && Lower(f.className.value) != Lower(cls.name) {
          failed := failed + [Failed(index, name, PolicyClassMismatch(cls.name, f.className.value), None)];
          continue;
        }
        sponsorNid := Some(sn);
      } else {
        if !Given(f.className) {
          failed := failed + [Failed(index, name, PolicyClassRequired, None)];
          continue;
        }
        var found := LookupClass(f.className.value, ctx);
        if found.None? {
          failed := failed + [Failed(index, name, InvalidPolicyClass(f.className.value), None)];
          continue;
        }
        cls := found.value;
      }
      var gender := MapGender(Upper(f.gender.value));
      var relation := MapRelation(Upper(f.relation.value));
      if gender.None? {
        failed := failed + [Failed(index, name, InvalidGender, None)];
        continue;
      }
      var member := MemberDraft(ctx.client, name, nid, f.mobile.value, f.birthDate, gender.value,
                                relation, sponsorNid, cls, f.medicalCard, f.address);
      if !save(member) {
        failed := failed + [Failed(index, name, SaveError, None)];
        continue;
      }
      success := success + [Succeeded(index, name, nid)];
      cache := cache[nid := member];
    }
    results := UploadResults(success, failed, |rows|);
  }

  // ----- Every non-empty row is reported exactly once, under its own row number -----

  /** Number of non-empty rows among the first `n`. */
  function NonEmptyCount(rows: seq<Row>, n: nat): (c: nat)
    requires n <= |rows|
    ensures c <= n
  {
    if n == 0 then 0 else NonEmptyCount(rows, n - 1) + if AnyTruthy(rows[n - 1]) then 1 else 0
  }

  /** Row number `r` is that of a non-empty row among the first `n`. */
  predicate ReportsRow(rows: seq<Row>, n: nat, r: int)
    requires n <= |rows|
  {
    FirstRowNumber <= r < n + FirstRowNumber && AnyTruthy(rows[r - FirstRowNumber])
  }

  function SuccessTags(entries: seq<Succeeded>): (tags: seq<int>)
    ensures |tags| == |entries| && forall i :: 0 <= i < |entries| ==> tags[i] == entries[i].row
  {
    seq(|entries|, i requires 0 <= i < |entries| => entries[i].row)
  }

  function FailedTags(entries: seq<Failed>): (tags: seq<int>)
    ensures |tags| == |entries| && forall i :: 0 <= i < |entries| ==> tags[i] == entries[i].row
  {
    seq(|entries|, i requires 0 <= i < |entries| => entries[i].row)
  }

  /** Row numbers of non-empty rows among the first `n`, in increasing order. */
  predicate TagsReport(tags: seq<int>, rows: seq<Row>, n: nat)
    requires n <= |rows|
  {
    (forall i :: 0 <= i < |tags| ==> ReportsRow(rows, n, tags[i])) &&
    (forall i, j :: 0 <= i < j < |tags| ==> tags[i] < tags[j])
  }

  /** The row numbers in the two result lists after the first `n` rows. */
  predicate Tagged(st: Scan, rows: seq<Row>, n: nat)
    requires n <= |rows|
  {
    var ok, bad := SuccessTags(st.success), FailedTags(st.failed);
    TagsReport(ok, rows, n) && TagsReport(bad, rows, n) &&
    (forall i, j :: 0 <= i < |ok| && 0 <= j < |bad| ==> ok[i] != bad[j]) &&
    |ok| + |bad| == NonEmptyCount(rows, n)
  }

  /** `s` is `st` with exactly one entry, tagged `index`, appended to one of the two lists. */
  predicate AppendsOne(st: Scan, s: Scan, index: int)
  {
    (s.failed == st.failed && |s.success| == |st.success| + 1 &&
     s.success[..|st.success|] == st.success && s.success[|st.success|].row == index) ||
    (s.success == st.success && |s.failed| == |st.failed| + 1 &&
     s.failed[..|st.failed|] == st.failed && s.failed[|st.failed|].row == index)
  }

  lemma SaveRowAppends(
    st: Scan, index: int, f: RowFields, ctx: UploadContext, save: SaveOracle,
    sponsorNid: Option<string>, cls: PolicyClassRow)
    requires HasRequired(f)
    ensures AppendsOne(st, SaveRow(st, index, f, ctx, save, sponsorNid, cls), index)
  {
  }

  lemma CheckRowAppends(st: Scan, index: int, f: RowFields, ctx: UploadContext, save: SaveOracle)
    ensures AppendsOne(st, CheckRow(st, index, f, ctx, save), index)
  {
    if HasRequired(f) && f.nid.value !in st.processed && ExistingClient(f.nid.value, st, ctx).None? {
      var st1 := st.(processed := st.processed + {f.nid.value});
      if IsPrincipalRelation(f.relation.value) {
        if Given(f.className) && LookupClass(f.className.value, ctx).Some? {
          SaveRowAppends(st1, index, f, ctx, save, None, LookupClass(f.className.value, ctx).value);
        }
      } else if Given(f.sponsorNid) {
        var sp := FindSponsor(f.sponsorNid.value, st1, ctx);
        if sp.Some? {
          SaveRowAppends(st1, index, f, ctx, save, f.sponsorNid, sp.value.policyClass);
        }
      }
    }
  }

  /** One iteration skips an empty row and otherwise appends exactly one entry, tagged `index`. */
  lemma StepAppendsOne(st: Scan, index: int, row: Row, ctx: UploadContext, save: SaveOracle)
    ensures !AnyTruthy(row) ==> Step(st, index, row, ctx, save) == st
    ensures AnyTruthy(row) ==> AppendsOne(st, Step(st, index, row, ctx, save), index)
  {
    if AnyTruthy(row) && |row| >= RowWidth {
      CheckRowAppends(st, index, ReadRow(row), ctx, save);
    }
  }

  /** Tags of the first `n - 1` rows are tags of the first `n`, and all lie below row `n`'s number. */
  lemma TagsReportGrows(tags: seq<int>, rows: seq<Row>, n: nat)
    requires 0 < n <= |rows| && TagsReport(tags, rows, n - 1)
    ensures TagsReport(tags, rows, n)
    ensures forall i :: 0 <= i < |tags| ==> tags[i] < n - 1 + FirstRowNumber
  {
  }

  /** Appending row `n`'s number to the tags of the first `n - 1` rows. */
  lemma TagsReportAppend(tags: seq<int>, rows: seq<Row>, n: nat)
    requires 0 < n <= |rows| && TagsReport(tags, rows, n - 1) && AnyTruthy(rows[n - 1])
    ensures TagsReport(tags + [n - 1 + FirstRowNumber], rows, n)
  {
    TagsReportGrows(tags, rows, n);
  }

  lemma TaggedAfterStep(st: Scan, s: Scan, rows: seq<Row>, n: nat)
    requires 0 < n <= |rows| && Tagged(st, rows, n - 1)
    requires !AnyTruthy(rows[n - 1]) ==> s == st
    requires AnyTruthy(rows[n - 1]) ==> AppendsOne(st, s, n - 1 + FirstRowNumber)
    ensures Tagged(s, rows, n)
  {
    var index := n - 1 + FirstRowNumber;
    var ok, bad := SuccessTags(st.success), FailedTags(st.failed);
    TagsReportGrows(ok, rows, n);
    TagsReportGrows(bad, rows, n);
    if !AnyTruthy(rows[n - 1]) {
    } else if s.failed == st.failed {
      assert SuccessTags(s.success) == ok + [index];
      TagsReportAppend(ok, rows, n);
    } else {
      assert FailedTags(s.failed) == bad + [index];
      TagsReportAppend(bad, rows, n);
    }
  }

  /** Row `n` leaves the scan unchanged when empty and otherwise appends one entry tagged with its number. */
  lemma ScanAppendsOne(rows: seq<Row>, n: nat, ctx: UploadContext, save: SaveOracle)
    requires 0 < n <= |rows|
    ensures var st, s := ScanUpTo(rows, n - 1, ctx, save), ScanUpTo(rows, n, ctx, save);
      (!AnyTruthy(rows[n - 1]) ==> s == st) &&
      (AnyTruthy(rows[n - 1]) ==> AppendsOne(st, s, n - 1 + FirstRowNumber))
  {
    ScanUnfold(rows, n, ctx, save);
    StepAppendsOne(ScanUpTo(rows, n - 1, ctx, save), n - 1 + FirstRowNumber, rows[n - 1], ctx, save);
  }

  lemma {:induction false} ScanIsTagged(rows: seq<Row>, n: nat, ctx: UploadContext, save: SaveOracle)
    requires n <= |rows|
    ensures Tagged(ScanUpTo(rows, n, ctx, save), rows, n)
  {
    if n > 0 {
      ScanIsTagged(rows, n - 1, ctx, save);
      ScanAppendsOne(rows, n, ctx, save);
      TaggedAfterStep(ScanUpTo(rows, n - 1, ctx, save), ScanUpTo(rows, n, ctx, save), rows, n);
    }
  }

  /** The results hold one entry per non-empty row, no more than the rows counted. */
  lemma ResultsAccountForRows(rows: seq<Row>, ctx: UploadContext, save: SaveOracle)
    ensures var r := BulkUpload(rows, ctx, save);
      |r.success| + |r.failed| == NonEmptyCount(rows, |rows|) <= r.totalRows &&
      TagsReport(SuccessTags(r.success), rows, |rows|) && TagsReport(FailedTags(r.failed), rows, |rows|) &&
      (forall i, j :: 0 <= i < |r.success| && 0 <= j < |r.failed| ==> r.success[i].row != r.failed[j].row)
  {
    ScanIsTagged(rows, |rows|, ctx, save);
  }

  // ----- What the saved members satisfy -----

  /** The national IDs in a success list, in order of appearance. */
  function SuccessNids(success: seq<Succeeded>): (r: set<string>)
    ensures forall i :: 0 <= i < |success| ==> success[i].nid in r
  {
    if success == [] then {} else SuccessNids(success[..|success| - 1]) + {success[|success| - 1].nid}
  }

  /** The class of an employee: one of the client's policies, or a master policy of the parent company. */
  predicate ClassAvailable(c: PolicyClassRow, ctx: UploadContext)
  {
    c in ctx.classes &&
    (c.policyClient == ctx.client || (ctx.parent.Some? && c.policyClient == ctx.parent.value && !c.policyHasMaster))
  }

  /** A dependant's sponsor: saved earlier in the upload or stored under the client, with the same class. */
  predicate SponsorAvailable(nid: string, sn: string, cls: PolicyClassRow, cache: map<string, MemberDraft>, ctx: UploadContext)
  {
    sn != nid &&
    ((sn in cache && cache[sn].policyClass == cls) ||
     (sn in ctx.stored && ctx.stored[sn].client == ctx.client && ctx.stored[sn].policyClass == cls))
  }

  /** The sponsor of a saved dependant is available. */
  predicate DraftSponsorAvailable(d: MemberDraft, cache: map<string, MemberDraft>, ctx: UploadContext)
    requires d.sponsorNid.Some?
  {
    SponsorAvailable(d.nationalId, d.sponsorNid.value, d.policyClass, cache, ctx)
  }

  /** The cache holds exactly the members saved so far, each once, each processed. */
  ghost predicate CacheIsSuccess(st: Scan)
  {
    st.cache.Keys <= st.processed &&
    st.cache.Keys == SuccessNids(st.success) &&
    (forall i, j :: 0 <= i < j < |st.success| ==> st.success[i].nid != st.success[j].nid)
  }

  /** Every saved member is new to the database and belongs to the uploading client. */
  ghost predicate CacheIsNew(cache: map<string, MemberDraft>, ctx: UploadContext)
  {
    forall nid :: nid in cache ==>
      nid !in ctx.stored && cache[nid].nationalId == nid && cache[nid].client == ctx.client
  }

  /** Employees have no sponsor and an available class; dependants a sponsor whose class they share. */
  ghost predicate CacheIsResolved(cache: map<string, MemberDraft>, ctx: UploadContext)
  {
    (forall nid :: nid in cache ==> (cache[nid].relation == Principal <==> cache[nid].sponsorNid.None?)) &&
    (forall nid :: nid in cache && cache[nid].sponsorNid.Some? ==> DraftSponsorAvailable(cache[nid], cache, ctx)) &&
    (forall nid :: nid in cache && cache[nid].sponsorNid.None? ==> ClassAvailable(cache[nid].policyClass, ctx))
  }

  /** What holds of the scan state after every row. */
  ghost predicate Consistent(st: Scan, ctx: UploadContext)
  {
    CacheIsSuccess(st) && CacheIsNew(st.cache, ctx) && CacheIsResolved(st.cache, ctx)
  }

  lemma CacheIsSuccessAfterSave(st: Scan, e: Succeeded, m: MemberDraft)
    requires CacheIsSuccess(st)
    requires e.nid == m.nationalId && m.nationalId in st.processed && m.nationalId !in st.cache
    ensures CacheIsSuccess(st.(success := st.success + [e], cache := st.cache[m.nationalId := m]))
  {
    SuccessNidsAppend(st.success, e);
    assert st.cache[m.nationalId := m].Keys == st.cache.Keys + {e.nid};
    DistinctNidsAppend(st.success, e);
  }

  lemma SuccessNidsAppend(success: seq<Succeeded>, e: Succeeded)
    ensures SuccessNids(success + [e]) == SuccessNids(success) + {e.nid}
  {
    assert (success + [e])[..|success|] == success;
  }

  lemma DistinctNidsAppend(success: seq<Succeeded>, e: Succeeded)
    requires forall i, j :: 0 <= i < j < |success| ==> success[i].nid != success[j].nid
    requires e.nid !in SuccessNids(success)
    ensures forall i, j :: 0 <= i < j < |success + [e]| ==> (success + [e])[i].nid != (success + [e])[j].nid
  {
    var s := success + [e];
    forall i, j | 0 <= i < j < |s|
      ensures s[i].nid != s[j].nid
    {
      if j == |success| {
        assert s[i].nid in SuccessNids(success);
      } else {
        assert s[i] == success[i] && s[j] == success[j];
      }
    }
  }

  lemma CacheIsResolvedAfterSave(cache: map<string, MemberDraft>, m: MemberDraft, ctx: UploadContext)
    requires CacheIsResolved(cache, ctx) && m.nationalId !in cache
    requires m.relation == Principal <==> m.sponsorNid.None?
    requires m.sponsorNid.Some? ==> DraftSponsorAvailable(m, cache, ctx)
    requires m.sponsorNid.None? ==> ClassAvailable(m.policyClass, ctx)
    ensures CacheIsResolved(cache[m.nationalId := m], ctx)
  {
    var c := cache[m.nationalId := m];
    forall k | k in c && c[k].sponsorNid.Some?
      ensures DraftSponsorAvailable(c[k], c, ctx)
    {
      if k != m.nationalId {
        assert DraftSponsorAvailable(cache[k], cache, ctx);
      }
    }
  }

  /** Saving a draft whose national ID is new, with an available sponsor or class, keeps the state consistent. */
  lemma ConsistentAfterSave(st: Scan, e: Succeeded, m: MemberDraft, ctx: UploadContext)
    requires Consistent(st, ctx)
    requires e.nid == m.nationalId && m.nationalId in st.processed
    requires m.nationalId !in st.cache && m.nationalId !in ctx.stored && m.client == ctx.client
    requires m.relation == Principal <==> m.sponsorNid.None?
    requires m.sponsorNid.Some? ==> DraftSponsorAvailable(m, st.cache, ctx)
    requires m.sponsorNid.None? ==> ClassAvailable(m.policyClass, ctx)
    ensures Consistent(st.(success := st.success + [e], cache := st.cache[m.nationalId := m]), ctx)
  {
    CacheIsSuccessAfterSave(st, e, m);
    CacheIsResolvedAfterSave(st.cache, m, ctx);
  }

  lemma SaveRowKeeps(
    st: Scan, index: int, f: RowFields, ctx: UploadContext, save: SaveOracle,
    sponsorNid: Option<string>, cls: PolicyClassRow)
    requires HasRequired(f) && Consistent(st, ctx)
    requires f.nid.value in st.processed && f.nid.value !in st.cache && f.nid.value !in ctx.stored
    requires Upper(f.relation.value) == f.relation.value
    requires sponsorNid.None? <==> IsPrincipalRelation(f.relation.value)
    requires sponsorNid.Some? ==>
      SponsorAvailable(f.nid.value, sponsorNid.value, cls, st.cache, ctx)
    requires sponsorNid.None? ==> ClassAvailable(cls, ctx)
    ensures var s := SaveRow(st, index, f, ctx, save, sponsorNid, cls);
      Consistent(s, ctx)
  {
    var nid, name := f.nid.value, f.fullName.value;
    match MapGender(Upper(f.gender.value))
    case None =>
    case Some(g) =>
      var m := MemberDraft(ctx.client, name, nid, f.mobile.value, f.birthDate, g,
                           MapRelation(Upper(f.relation.value)), sponsorNid, cls,
                           f.medicalCard, f.address);
      if save(m) {
        ConsistentAfterSave(st, Succeeded(index, name, nid), m, ctx);
      }
  }

  lemma FailKeeps(st: Scan, index: int, name: string, error: RowError, nid: Option<string>, ctx: UploadContext)
    requires Consistent(st, ctx)
    ensures Consistent(Fail(st, index, name, error, nid), ctx)
  {
  }

  lemma CheckRowKeeps(st: Scan, index: int, f: RowFields, ctx: UploadContext, save: SaveOracle)
    requires Consistent(st, ctx)
    requires f.relation.Some? ==> Upper(f.relation.value) == f.relation.value
    ensures var s := CheckRow(st, index, f, ctx, save);
      Consistent(s, ctx)
  {
    if HasRequired(f) && f.nid.value !in st.processed {
      var nid := f.nid.value;
      var st1 := st.(processed := st.processed + {nid});
      assert Consistent(st1, ctx);
      if ExistingClient(nid, st, ctx).None? {
        if IsPrincipalRelation(f.relation.value) {
          if Given(f.className) && LookupClass(f.className.value, ctx).Some? {
            SaveRowKeeps(st1, index, f, ctx, save, None, LookupClass(f.className.value, ctx).value);
          }
        } else if Given(f.sponsorNid) {
          var sp := FindSponsor(f.sponsorNid.value, st1, ctx);
          if sp.Some? && sp.value.client == ctx.client {
            SaveRowKeeps(st1, index, f, ctx, save, f.sponsorNid, sp.value.policyClass);
          }
        }
      }
    }
  }

  lemma StepKeeps(st: Scan, index: int, row: Row, ctx: UploadContext, save: SaveOracle)
    requires Consistent(st, ctx)
    ensures var s := Step(st, index, row, ctx, save);
      Consistent(s, ctx)
  {
    if AnyTruthy(row) && |row| >= RowWidth {
      CheckRowKeeps(st, index, ReadRow(row), ctx, save);
    }
  }

  lemma ScanStepKeeps(rows: seq<Row>, n: nat, ctx: UploadContext, save: SaveOracle)
    requires 0 < n <= |rows| && Consistent(ScanUpTo(rows, n - 1, ctx, save), ctx)
    ensures Consistent(ScanUpTo(rows, n, ctx, save), ctx)
  {
    ScanUnfold(rows, n, ctx, save);
    StepKeeps(ScanUpTo(rows, n - 1, ctx, save), n - 1 + FirstRowNumber, rows[n - 1], ctx, save);
  }

  lemma {:induction false} ScanConsistent(rows: seq<Row>, n: nat, ctx: UploadContext, save: SaveOracle)
    requires n <= |rows|
    ensures Consistent(ScanUpTo(rows, n, ctx, save), ctx)
  {
    if n > 0 {
      ScanConsistent(rows, n - 1, ctx, save);
      ScanStepKeeps(rows, n, ctx, save);
    }
  }

  /**
   * After an upload: no national ID is saved twice or was stored before,
   * every employee got a class of the client or of a parent master policy,
   * and every dependant got the class of a sponsor of the same client.
   */
  lemma UploadIsConsistent(rows: seq<Row>, ctx: UploadContext, save: SaveOracle)
    ensures Consistent(ScanUpTo(rows, |rows|, ctx, save), ctx)
    ensures var r := BulkUpload(rows, ctx, save);
      forall i, j :: 0 <= i < j < |r.success| ==> r.success[i].nid != r.success[j].nid
    ensures var r := BulkUpload(rows, ctx, save);
      forall i :: 0 <= i < |r.success| ==> r.success[i].nid !in ctx.stored
  {
    ScanConsistent(rows, |rows|, ctx, save);
  }

  lemma SaveRowProcessed(
    st: Scan, index: int, f: RowFields, ctx: UploadContext, save: SaveOracle,
    sponsorNid: Option<string>, cls: PolicyClassRow)
    requires HasRequired(f)
    ensures SaveRow(st, index, f, ctx, save, sponsorNid, cls).processed == st.processed
  {
  }

  /** A complete row marks its national ID as processed, whatever happens to it afterwards. */
  lemma CheckRowProcessed(st: Scan, index: int, f: RowFields, ctx: UploadContext, save: SaveOracle)
    ensures CheckRow(st, index, f, ctx, save).processed ==
      if HasRequired(f) then st.processed + {f.nid.value} else st.processed
  {
    if HasRequired(f) && f.nid.value !in st.processed && ExistingClient(f.nid.value, st, ctx).None? {
      var st1 := st.(processed := st.processed + {f.nid.value});
      if IsPrincipalRelation(f.relation.value) {
        if Given(f.className) && LookupClass(f.className.value, ctx).Some? {
          SaveRowProcessed(st1, index, f, ctx, save, None, LookupClass(f.className.value, ctx).value);
        }
      } else if Given(f.sponsorNid) {
        var sp := FindSponsor(f.sponsorNid.value, st1, ctx);
        if sp.Some? {
          SaveRowProcessed(st1, index, f, ctx, save, f.sponsorNid, sp.value.policyClass);
        }
      }
    }
  }

  /** The national ID of complete row `i` is processed once the scan has passed it. */
  lemma ScanRecordsNid(rows: seq<Row>, i: nat, ctx: UploadContext, save: SaveOracle)
    requires i < |rows| && |rows[i]| >= RowWidth && HasRequired(ReadRow(rows[i]))
    ensures ReadRow(rows[i]).nid.value in ScanUpTo(rows, i + 1, ctx, save).processed
  {
    var st, f := ScanUpTo(rows, i, ctx, save), ReadRow(rows[i]);
    assert Truthy(rows[i][0]);
    ScanUnfoldAt(rows, i, ctx, save);
    CheckRowProcessed(st, i + FirstRowNumber, f, ctx, save);
  }

  lemma StepProcessed(st: Scan, index: int, row: Row, ctx: UploadContext, save: SaveOracle)
    ensures st.processed <= Step(st, index, row, ctx, save).processed
  {
    if AnyTruthy(row) && |row| >= RowWidth {
      CheckRowProcessed(st, index, ReadRow(row), ctx, save);
    }
  }

  lemma ScanStepProcessed(rows: seq<Row>, n: nat, ctx: UploadContext, save: SaveOracle)
    requires 0 < n <= |rows|
    ensures ScanUpTo(rows, n - 1, ctx, save).processed <= ScanUpTo(rows, n, ctx, save).processed
  {
    ScanUnfold(rows, n, ctx, save);
    StepProcessed(ScanUpTo(rows, n - 1, ctx, save), n - 1 + FirstRowNumber, rows[n - 1], ctx, save);
  }

  /** National IDs once processed stay processed. */
  lemma {:induction false} ScanProcessedGrows(rows: seq<Row>, a: nat, b: nat, ctx: UploadContext, save: SaveOracle)
    requires a <= b <= |rows|
    ensures ScanUpTo(rows, a, ctx, save).processed <= ScanUpTo(rows, b, ctx, save).processed
  {
    if a < b {
      ScanProcessedGrows(rows, a, b - 1, ctx, save);
      ScanStepProcessed(rows, b, ctx, save);
    }
  }

  lemma ProcessedBefore(rows: seq<Row>, i: nat, j: nat, ctx: UploadContext, save: SaveOracle)
    requires i < j <= |rows| && |rows[i]| >= RowWidth && HasRequired(ReadRow(rows[i]))
    ensures ReadRow(rows[i]).nid.value in ScanUpTo(rows, j, ctx, save).processed
  {
    ScanRecordsNid(rows, i, ctx, save);
    ScanProcessedGrows(rows, i + 1, j, ctx, save);
  }

  /** A complete row `j` whose national ID is already processed is refused as a duplicate. */
  lemma ScanRefusesDuplicate(rows: seq<Row>, j: nat, ctx: UploadContext, save: SaveOracle)
    requires j < |rows| && |rows[j]| >= RowWidth && HasRequired(ReadRow(rows[j]))
    requires ReadRow(rows[j]).nid.value in ScanUpTo(rows, j, ctx, save).processed
    ensures var s, st := ScanUpTo(rows, j + 1, ctx, save), ScanUpTo(rows, j, ctx, save);
      s == Fail(st, j + FirstRowNumber, ReadRow(rows[j]).fullName.value, DuplicateInFile, None)
  {
    assert Truthy(rows[j][0]);
    ScanUnfoldAt(rows, j, ctx, save);
  }

  /** A later row repeating the national ID of an earlier complete row is refused as a duplicate. */
  lemma LaterDuplicateFails(rows: seq<Row>, i: nat, j: nat, ctx: UploadContext, save: SaveOracle)
    requires i < j < |rows|
    requires |rows[i]| >= RowWidth && |rows[j]| >= RowWidth
    requires HasRequired(ReadRow(rows[i])) && HasRequired(ReadRow(rows[j]))
    requires ReadRow(rows[i]).nid == ReadRow(rows[j]).nid
    ensures var s := ScanUpTo(rows, j + 1, ctx, save);
      |s.failed| > 0 &&
      s.failed[|s.failed| - 1] == Failed(j + FirstRowNumber, ReadRow(rows[j]).fullName.value, DuplicateInFile, None)
  {
    ProcessedBefore(rows, i, j, ctx, save);
    ScanRefusesDuplicate(rows, j, ctx, save);
  }

  /**
   * A non-empty row missing one of the six required values is refused as such,
   * before any duplicate check, and its national ID is not marked as processed.
   */
  lemma MissingFieldsReported(rows: seq<Row>, i: nat, ctx: UploadContext, save: SaveOracle)
    requires i < |rows| && AnyTruthy(rows[i]) && |rows[i]| >= RowWidth && !HasRequired(ReadRow(rows[i]))
    ensures var st, s := ScanUpTo(rows, i, ctx, save), ScanUpTo(rows, i + 1, ctx, save);
      var name := if Given(ReadRow(rows[i]).fullName) then ReadRow(rows[i]).fullName.value else "Unknown";
      s.processed == st.processed && s.success == st.success &&
      s.failed == st.failed + [Failed(i + FirstRowNumber, name, MissingRequiredFields, None)]
  {
    ScanUnfoldAt(rows, i, ctx, save);
  }

  /**
   * A new dependant whose sponsor is found but who names a different class
   * (ignoring case) is refused with a class mismatch; the national ID still
   * counts as seen.
   */
  lemma DependantClassMismatchFails(st: Scan, index: int, f: RowFields, ctx: UploadContext, save: SaveOracle)
    requires HasRequired(f) && f.nid.value !in st.processed && ExistingClient(f.nid.value, st, ctx).None?
    requires !IsPrincipalRelation(f.relation.value) && Given(f.sponsorNid)
    requires FindSponsor(f.sponsorNid.value, st, ctx).Some?
    requires FindSponsor(f.sponsorNid.value, st, ctx).value.client == ctx.client
    requires Given(f.className)
    requires Lower(f.className.value) != Lower(FindSponsor(f.sponsorNid.value, st, ctx).value.policyClass.name)
    ensures var sponsorClass := FindSponsor(f.sponsorNid.value, st, ctx).value.policyClass.name;
      CheckRow(st, index, f, ctx, save) ==
      Fail(st.(processed := st.processed + {f.nid.value}), index, f.fullName.value,
           PolicyClassMismatch(sponsorClass, f.className.value), None)
  {
  }
}
