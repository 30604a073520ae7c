/**
 * Claims (claims/models.py): the claim status values and default, the
 * year-scoped claim reference assigned on first save, and the storage path
 * of a claim attachment.
 */
module Claims {
  import opened Wrappers
  import opened Text

  /** The declared status values of a claim. */
  datatype ClaimStatus =
    | Draft | Submitted | HrReview | ReturnMissingDocsHr | BrokerReview
    | ReturnMissingDocsBroker | ReSubmitted | Approved | Rejected | Paid

  /** Declared width of the `claim_reference` column. */
  const ReferenceMaxLength: nat := 20

  /** Width of the zero-padded sequence number. */
  const SequenceWidth: nat := 5

  /** `CLM-<year>`: the prefix the lookup of the last reference filters on (no trailing dash). */
  function YearPrefix(year: nat): string
  {
    "CLM-" + Digits(year)
  }

  /** `CLM-<year>-`: everything before the sequence number. */
  function SequencePrefix(year: nat): string
  {
    YearPrefix(year) + "-"
  }

  /** `CLM-<year>-<n:05d>`. */
  function Reference(year: nat, n: nat): (r: string)
    ensures StartsWith(r, YearPrefix(year)) && StartsWith(r, SequencePrefix(year))
  {
    var r := SequencePrefix(year) + FormatZeroPadded(n, SequenceWidth);
    assert r[..|YearPrefix(year)|] == YearPrefix(year);
    r
  }

  /** The references of `refs` that the lookup for `year` sees, in table order. */
  function YearReferences(refs: seq<string>, year: nat): (r: seq<string>)
    ensures forall x :: x in r <==> x in refs && StartsWith(x, YearPrefix(year))
  {
    if refs == [] then []
    else if StartsWith(refs[0], YearPrefix(year)) then [refs[0]] + YearReferences(refs[1..], year)
    else YearReferences(refs[1..], year)
  }

  /** The lexicographically greatest reference (`order_by('claim_reference').last()`). */
  function Greatest(refs: seq<string>): (r: Option<string>)
    ensures r.None? <==> refs == []
    ensures r.Some? ==> r.value in refs && forall x :: x in refs ==> !LexLess(r.value, x)
  {
    if refs == [] then None
    else match Greatest(refs[1..])
      case None =>
        LexIrreflexive(refs[0]);
        Some(refs[0])
      case Some(m) =>
        if LexLess(m, refs[0]) then
          assert forall x :: x in refs[1..] ==> !LexLess(refs[0], x) by {
            forall x | x in refs[1..] ensures !LexLess(refs[0], x) {
              if LexLess(refs[0], x) { LexTransitive(m, refs[0], x); }
            }
          }
          LexIrreflexive(refs[0]);
          Some(refs[0])
        else Some(m)
  }

  /**
   * The reference `Claim.save` assigns in `year` given every reference
   * already stored: one more than the last `-` segment of the greatest
   * reference starting with `CLM-<year>`, or 1 when there is none. `None`
   * stands for the `int(...)` conversion raising on a segment that is not a
   * decimal number.
   */
  function NextReference(year: nat, refs: seq<string>): (r: Option<string>)
    ensures YearReferences(refs, year) == [] ==> r == Some(Reference(year, 1))
    ensures r.Some? ==> exists n :: n >= 1 && r.value == Reference(year, n)
  {
    match Greatest(YearReferences(refs, year))
    case None => Some(Reference(year, 1))
    case Some(last) =>
      match ParseNat(LastSegment(last, '-'))
      case None => None
      case Some(k) => Some(Reference(year, k + 1))
  }

  /** The sequence number a reference of `year` carries is recovered by the suffix parse. */
  lemma SequenceRoundTrip(year: nat, n: nat)
    ensures LastSegment(Reference(year, n), '-') == FormatZeroPadded(n, SequenceWidth)
    ensures ParseNat(LastSegment(Reference(year, n), '-')) == Some(n)
  {
    var pad := FormatZeroPadded(n, SequenceWidth);
    assert forall i :: 0 <= i < |pad| ==> IsDigit(pad[i]);
    assert '-' !in pad;
    assert Reference(year, n) == YearPrefix(year) + ['-'] + pad;
    LastSegmentAfterSeparator(YearPrefix(year), '-', pad);
    ParseFormatRoundTrip(n, SequenceWidth);
  }

  /** Parses a reference of the form `CLM-<year digits>-<sequence digits>`. */
  function ParseReference(s: string): (r: Option<(nat, nat)>)
  {
    if !StartsWith(s, "CLM-") then None
    else
      var rest := s[4..];
      var year := FirstSegment(rest, '-');
      if |year| == |rest| then None
      else
        match (ParseNat(year), ParseNat(rest[|year| + 1..]))
        case (Some(y), Some(n)) => Some((y, n))
        case _ => None
  }

  /** The text before the first `sep`, or all of `s`. */
  function FirstSegment(s: string, sep: char): (r: string)
    ensures |r| <= |s| && r == s[..|r|] && sep !in r
    ensures |r| < |s| ==> s[|r|] == sep
  {
    if s == [] || s[0] == sep then [] else [s[0]] + FirstSegment(s[1..], sep)
  }

  lemma {:induction false} FirstSegmentOfDigits(d: string, t: string)
    requires AllDigits(d)
    ensures FirstSegment(d + "-" + t, '-') == d
  {
    if d != [] {
      assert (d + "-" + t)[1..] == d[1..] + "-" + t;
      FirstSegmentOfDigits(d[1..], t);
    }
  }

  /** Formatting a reference and parsing it back gives the year and the sequence number. */
  lemma ReferenceRoundTrip(year: nat, n: nat)
    ensures ParseReference(Reference(year, n)) == Some((year, n))
  {
    var s := Reference(year, n);
    var pad := FormatZeroPadded(n, SequenceWidth);
    var rest := s[4..];
    assert rest == Digits(year) + "-" + pad;
    FirstSegmentOfDigits(Digits(year), pad);
    assert rest[|Digits(year)| + 1..] == pad;
    ValueOfDigits(year);
    ParseFormatRoundTrip(n, SequenceWidth);
  }

  /** Below 100000 the sequence part is exactly five digits. */
  lemma FiveDigitSequence(n: nat)
    requires n < 100000
    ensures |FormatZeroPadded(n, SequenceWidth)| == 5
  {
    assert Pow10(5) == 100000;
    DigitsBound(n, 5);
  }

  /** A four-digit year and a five-digit sequence give a 14-character reference, within the column width. */
  lemma ReferenceLength(year: nat, n: nat)
    requires 1000 <= year <= 9999 && n < 100000
    ensures |Reference(year, n)| == 14 <= ReferenceMaxLength
  {
    FourDigits(year);
    FiveDigitSequence(n);
  }

  /** For five-digit sequence numbers the lexicographic order of references is the numeric order. */
  lemma LexOrderIsNumericOrder(year: nat, m: nat, n: nat)
    requires m < 100000 && n < 100000
    ensures LexLess(Reference(year, m), Reference(year, n)) <==> m < n
  {
    var a, b := FormatZeroPadded(m, SequenceWidth), FormatZeroPadded(n, SequenceWidth);
    FiveDigitSequence(m);
    FiveDigitSequence(n);
    LexCommonPrefix(SequencePrefix(year), a, b);
    LexMatchesValue(a, b);
    ParseFormatRoundTrip(m, SequenceWidth);
    ParseFormatRoundTrip(n, SequenceWidth);
  }

  /** Past 99999 the order breaks: `CLM-<year>-100000` sorts before `CLM-<year>-99999`. */
  lemma LexOrderBreaksPast99999(year: nat)
    ensures LexLess(Reference(year, 100000), Reference(year, 99999))
  {
    ValueOfDigits(100000);
    ValueOfDigits(99999);
    var a, b := Digits(100000), Digits(99999);
    assert FormatZeroPadded(100000, SequenceWidth) == a;
    assert FormatZeroPadded(99999, SequenceWidth) == b;
    assert a[0] == '1' by {
      assert Digits(1) == ['1'];
      assert Digits(10) == Digits(1) + ['0'];
      assert Digits(100) == Digits(10) + ['0'];
      assert Digits(1000) == Digits(100) + ['0'];
      assert Digits(10000) == Digits(1000) + ['0'];
    }
    assert b[0] == '9' by {
      assert Digits(9) == ['9'];
      assert Digits(99) == Digits(9) + ['9'];
      assert Digits(999) == Digits(99) + ['9'];
      assert Digits(9999) == Digits(999) + ['9'];
    }
    LexCommonPrefix(SequencePrefix(year), a, b);
  }

  /** Every reference the lookup for `year` sees was issued for `year` with a five-digit sequence below 99999. */
  ghost predicate IssuedBelowLimit(refs: seq<string>, year: nat)
  {
    forall x :: x in refs && StartsWith(x, YearPrefix(year)) ==>
      exists k: nat :: k < 99999 && x == Reference(year, k)
  }

  /**
   * While every stored reference of the year has a five-digit sequence below
   * 99999, the new reference is defined, differs from every stored one and
   * its sequence number is strictly greater than theirs.
   */
  lemma NextReferenceIsFresh(year: nat, refs: seq<string>)
    requires IssuedBelowLimit(refs, year)
    ensures NextReference(year, refs).Some?
    ensures NextReference(year, refs).value !in refs
    ensures forall k :: Reference(year, k) in refs && k < 100000 ==>
      LexLess(Reference(year, k), NextReference(year, refs).value)
  {
    var yr := YearReferences(refs, year);
    match Greatest(yr)
    case None =>
      assert Reference(year, 1) !in yr;
    case Some(last) =>
      var k: nat :| k < 99999 && last == Reference(year, k);
      SequenceRoundTrip(year, k);
      var next := Reference(year, k + 1);
      assert NextReference(year, refs) == Some(next);
      LexOrderIsNumericOrder(year, k, k + 1);
      forall j | Reference(year, j) in refs && j < 100000
        ensures LexLess(Reference(year, j), next)
      {
        assert Reference(year, j) in yr;
        LexOrderIsNumericOrder(year, k, j);
        LexOrderIsNumericOrder(year, j, k + 1);
      }
      assert LexLess(last, next);
      assert next !in yr;
  }

  /**
   * As written, the generator can repeat a stored reference once a year
   * passes 99999 claims: with `CLM-<year>-99999` and `CLM-<year>-100000`
   * stored, the greatest reference is the first and the "next" one is the
   * second again.
   */
  lemma NextReferenceRepeatsPast99999(year: nat)
    ensures var refs := [Reference(year, 99999), Reference(year, 100000)];
      (NextReference(year, refs) == Some(Reference(year, 100000)) &&
       Reference(year, 100000) in refs)
  {
    var refs := [Reference(year, 99999), Reference(year, 100000)];
    assert YearReferences(refs[1..][1..], year) == [];
    assert YearReferences(refs[1..], year) == refs[1..];
    assert YearReferences(refs, year) == refs;
    LexOrderBreaksPast99999(year);
    LexAsymmetric(Reference(year, 100000), Reference(year, 99999));
    assert Greatest(refs[1..]) == Some(Reference(year, 100000));
    assert Greatest(refs) == Some(Reference(year, 99999));
    SequenceRoundTrip(year, 99999);
  }

  /** The sequence numbers of the year's references, with `None` when one does not parse. */
  function SequenceNumbers(refs: seq<string>): (r: Option<seq<nat>>)
    ensures r.Some? ==> |r.value| == |refs|
    ensures r.Some? ==> forall i :: 0 <= i < |refs| ==> ParseNat(LastSegment(refs[i], '-')) == Some(r.value[i])
  {
    if refs == [] then Some([])
    else match (ParseNat(LastSegment(refs[0], '-')), SequenceNumbers(refs[1..]))
      case (Some(k), Some(ks)) => Some([k] + ks)
      case _ => None
  }

  function MaxOf(ks: seq<nat>): (m: nat)
    ensures forall i :: 0 <= i < |ks| ==> ks[i] <= m
    ensures ks != [] ==> m in ks
  {
    if ks == [] then 0
    else var rest := MaxOf(ks[1..]); if ks[0] >= rest then ks[0] else rest
  }

  /**
   * The evidently intended rule: one more than the numerically greatest
   * sequence number of the year (1 when there is none).
   */
  function NextReferenceNumeric(year: nat, refs: seq<string>): (r: Option<string>)
    ensures YearReferences(refs, year) == [] ==> r == Some(Reference(year, 1))
  {
    match SequenceNumbers(YearReferences(refs, year))
    case None => None
    case Some(ks) => Some(Reference(year, MaxOf(ks) + 1))
  }

  /**
   * Whatever their width, if every stored reference of the year was issued
   * for that year, the numeric rule produces a reference that is not stored.
   */
  lemma NextReferenceNumericIsFresh(year: nat, refs: seq<string>)
    requires forall x :: x in refs && StartsWith(x, YearPrefix(year)) ==> exists k: nat :: x == Reference(year, k)
    ensures NextReferenceNumeric(year, refs).Some?
    ensures NextReferenceNumeric(year, refs).value !in refs
  {
    var yr := YearReferences(refs, year);
    var ks := SequenceNumbersOfIssued(yr, year);
    var next := Reference(year, MaxOf(ks) + 1);
    SequenceRoundTrip(year, MaxOf(ks) + 1);
    forall i | 0 <= i < |yr| ensures yr[i] != next {
      assert ks[i] <= MaxOf(ks);
    }
    assert next !in yr;
  }

  lemma {:induction false} SequenceNumbersOfIssued(yr: seq<string>, year: nat) returns (ks: seq<nat>)
    requires forall x :: x in yr ==> exists k: nat :: x == Reference(year, k)
    ensures SequenceNumbers(yr) == Some(ks)
  {
    if yr == [] {
      ks := [];
    } else {
      assert yr[0] in yr;
      var k: nat :| yr[0] == Reference(year, k);
      SequenceRoundTrip(year, k);
      assert forall x :: x in yr[1..] ==> x in yr;
      var rest := SequenceNumbersOfIssued(yr[1..], year);
      ks := [k] + rest;
    }
  }

  /** In the five-digit regime the as-written rule and the numeric rule assign the same reference. */
  lemma RulesAgreeBelowLimit(year: nat, refs: seq<string>)
    requires IssuedBelowLimit(refs, year)
    ensures NextReference(year, refs) == NextReferenceNumeric(year, refs)
  {
    var yr := YearReferences(refs, year);
    assert forall x :: x in yr ==> exists k: nat :: k < 99999 && x == Reference(year, k);
    if yr != [] {
      var k := GreatestSequence(yr, year);
    }
  }

  /** Among issued five-digit references, the greatest one carries the greatest sequence number. */
  lemma GreatestSequence(yr: seq<string>, year: nat) returns (k: nat)
    requires yr != []
    requires forall x :: x in yr ==> exists j: nat :: j < 99999 && x == Reference(year, j)
    ensures Greatest(yr) == Some(Reference(year, k))
    ensures ParseNat(LastSegment(Reference(year, k), '-')) == Some(k)
    ensures SequenceNumbers(yr).Some? && MaxOf(SequenceNumbers(yr).value) == k
  {
    assert forall x :: x in yr ==> exists j: nat :: x == Reference(year, j);
    var ks := SequenceNumbersOfIssued(yr, year);
    var last := Greatest(yr).value;
    assert last in yr;
    k :| k < 99999 && last == Reference(year, k);
    SequenceRoundTrip(year, k);
    assert forall i :: 0 <= i < |yr| ==> yr[i] in yr;
    GreatestHasMaxSequence(yr, year, k, ks);
  }

  lemma GreatestHasMaxSequence(yr: seq<string>, year: nat, k: nat, ks: seq<nat>)
    requires k < 99999 && Reference(year, k) in yr
    requires forall i :: 0 <= i < |yr| ==> !LexLess(Reference(year, k), yr[i])
    requires forall i :: 0 <= i < |yr| ==> exists j: nat :: j < 99999 && yr[i] == Reference(year, j)
    requires |ks| == |yr|
    requires forall i :: 0 <= i < |yr| ==> ParseNat(LastSegment(yr[i], '-')) == Some(ks[i])
    ensures MaxOf(ks) == k
  {
    forall i | 0 <= i < |ks| ensures ks[i] <= k {
      var j: nat :| j < 99999 && yr[i] == Reference(year, j);
      SequenceRoundTrip(year, j);
      LexOrderIsNumericOrder(year, k, j);
    }
    var i :| 0 <= i < |yr| && yr[i] == Reference(year, k);
    SequenceRoundTrip(year, k);
    assert ks[i] == k;
  }

  /** Python's `os.path.join(a, b)` on POSIX: an absolute `b` replaces `a`. */
  function PathJoin(a: string, b: string): string
  {
    if StartsWith(b, "/") then b
    else if a == [] || EndsWith(a, "/") then a + b
    else a + "/" + b
  }

  /** Joining a relative name onto a directory without a trailing slash inserts one slash. */
  lemma JoinSeparated(a: string, b: string)
    requires a != [] && a[|a| - 1] != '/'
    requires b != [] ==> b[0] != '/'
    ensures PathJoin(a, b) == a + "/" + b
  {
    assert a[|a| - 1..] == [a[|a| - 1]];
    if b != [] {
      assert b[..1] == [b[0]];
    }
  }

  /**
   * `claim_file_upload_path`: `claims/docs/<claim reference>/<file name>`,
   * with `unsorted` standing in for a claim that has no reference yet.
   */
  function ClaimFileUploadPath(claimReference: string, filename: string): (p: string)
    ensures claimReference == "" && !StartsWith(filename, "/") ==>
      p == "claims/docs/unsorted/" + filename
    ensures claimReference != "" && '/' !in claimReference && !StartsWith(filename, "/") ==>
      p == "claims/docs/" + claimReference + "/" + filename
    ensures StartsWith(filename, "/") ==> p == filename
  {
    var folder := if claimReference == "" then "unsorted" else claimReference;
    var dir := PathJoin(PathJoin("claims", "docs"), folder);
    if '/' in folder || StartsWith(filename, "/") then PathJoin(dir, filename)
    else
      JoinSeparated("claims", "docs");
      JoinSeparated("claims/docs", folder);
      JoinSeparated(dir, filename);
      PathJoin(dir, filename)
  }

  /** Attachments of a claim with an issued reference go to that claim's own folder. */
  lemma IssuedReferenceFolder(year: nat, n: nat, filename: string)
    requires !StartsWith(filename, "/")
    ensures ClaimFileUploadPath(Reference(year, n), filename) == "claims/docs/" + Reference(year, n) + "/" + filename
  {
    var r := Reference(year, n);
    var d, pad := Digits(year), FormatZeroPadded(n, SequenceWidth);
    assert r == "CLM-" + d + "-" + pad;
    forall i | 0 <= i < |r| ensures r[i] != '/' {
      if 4 <= i < 4 + |d| {
        assert r[i] == d[i - 4];
      } else if i > 4 + |d| {
        assert r[i] == pad[i - 5 - |d|];
      }
    }
    assert '/' !in r;
  }

  /** A claim request; `save` assigns its reference once and never changes it afterwards. */
  class Claim {
    var claimReference: string
    var status: ClaimStatus

    /** A new claim has no reference yet and is a draft. */
    constructor ()
      ensures claimReference == "" && status == Draft
    {
      claimReference := "";
      status := Draft;
    }

    /**
     * `save` in `year` with `stored` the references already in the table:
     * a claim without a reference gets `NextReference` (the attribute is
     * set before the insert, so it stays set when the unique constraint
     * rejects the insert); a claim with a reference keeps it. `saved` is
     * false when the suffix does not parse or the new reference is taken.
     */
    method Save(year: nat, stored: seq<string>) returns (saved: bool)
      modifies this`claimReference
      ensures old(claimReference) != "" ==> saved && claimReference == old(claimReference)
      ensures old(claimReference) == "" ==>
        match NextReference(year, stored)
        case None => !saved && claimReference == ""
        case Some(r) => claimReference == r && (saved <==> r !in stored)
    {
      if claimReference == "" {
        var next := NextReference(year, stored);
        if next.None? {
          return false;
        }
        claimReference := next.value;
        saved := claimReference !in stored;
      } else {
        saved := true;
      }
    }
  }

  /** Saving a new claim in the five-digit regime succeeds with a fresh reference. */
  method SaveNewClaim(year: nat, stored: seq<string>) returns (c: Claim, saved: bool)
    requires IssuedBelowLimit(stored, year)
    ensures saved && c.claimReference !in stored && c.status == Draft
    ensures exists n :: n >= 1 && c.claimReference == Reference(year, n)
  {
    c := new Claim();
    NextReferenceIsFresh(year, stored);
    saved := c.Save(year, stored);
  }
}
