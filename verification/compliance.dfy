/**
  The status evaluator of `ProductTemplate._compute_compliance_status`: the
  checklist lines of one product and its two optional dates give one of four
  statuses, by a priority-ordered decision table.
 */
module Compliance {
  import opened Wrappers
  import opened Dates
  import opened Text

  /** `ProductComplianceLine.status`. */
  datatype LineStatus = Yes | No | Na

  /** `ProductTemplate.compliance_status`. */
  datatype ComplianceStatus = Approved | Warning | NotApproved | NoCompliance

  /** A checklist line: the name of its compliance type (possibly unset) and its status. */
  datatype Line = Line(typeName: Option<string>, status: LineStatus)

  /** The one way evaluation fails: `relativedelta` leaves the years `date` holds. */
  datatype EvalError = DateOutOfRange

  const TestReports: string := "test reports"
  const Labeling: string := "labeling"
  const TrackingOnItem: string := "tracking on item"

  /** The three category names the decision reads. */
  predicate IsDecisive(k: string) {
    k == TestReports || k == Labeling || k == TrackingOnItem
  }

  /** The key a line is filed under: its lower-cased type name, or '' when the name is unset or empty. */
  function Key(l: Line): (k: string)
    ensures Lower(k) == k
    ensures l.typeName.Some? ==> k == Lower(l.typeName.value)
    ensures l.typeName.None? ==> k == ""
  {
    match l.typeName
    case Some(name) => if name != "" then Lower(name) else ""
    case None => ""
  }

  /** `compliance_dict`: every line in order, each overwriting the entry for its key. */
  function CategoryMap(lines: seq<Line>): map<string, LineStatus> {
    if lines == [] then map[]
    else
      var last := lines[|lines| - 1];
      CategoryMap(lines[..|lines| - 1])[Key(last) := last.status]
  }

  /** The map's keys are exactly the keys of the lines. */
  lemma {:induction false} CategoryMapKeys(lines: seq<Line>, k: string)
    ensures k in CategoryMap(lines) <==> exists i :: 0 <= i < |lines| && Key(lines[i]) == k
  {
    if lines != [] {
      var n := |lines| - 1;
      CategoryMapKeys(lines[..n], k);
      if k in CategoryMap(lines[..n]) {
        var i :| 0 <= i < n && Key(lines[..n][i]) == k;
        assert Key(lines[i]) == k;
      } else if k in CategoryMap(lines) {
        assert Key(lines[n]) == k;
      } else {
        forall i | 0 <= i < |lines|
          ensures Key(lines[i]) != k
        {
          if i < n {
            assert lines[i] == lines[..n][i];
          }
        }
      }
    }
  }

  /** `compliance_dict.get(k, 'no')`. */
  function Lookup(m: map<string, LineStatus>, k: string): LineStatus {
    if k in m then m[k] else No
  }

  /** Reference reading of a category: the status of the last line filed under it, `No` if none is. */
  function LastStatus(lines: seq<Line>, k: string): LineStatus {
    if lines == [] then No
    else if Key(lines[|lines| - 1]) == k then lines[|lines| - 1].status
    else LastStatus(lines[..|lines| - 1], k)
  }

  lemma {:induction false} LookupIsLastStatus(lines: seq<Line>, k: string)
    ensures Lookup(CategoryMap(lines), k) == LastStatus(lines, k)
  {
    if lines != [] {
      LookupIsLastStatus(lines[..|lines| - 1], k);
    }
  }

  /** When a category appears more than once, the last line wins. */
  lemma {:induction false} LastLineWins(lines: seq<Line>, i: int)
    requires 0 <= i < |lines|
    requires forall j :: i < j < |lines| ==> Key(lines[j]) != Key(lines[i])
    ensures Lookup(CategoryMap(lines), Key(lines[i])) == lines[i].status
  {
    if i < |lines| - 1 {
      LastLineWins(lines[..|lines| - 1], i);
    }
  }

  /** A category no line is filed under reads as `No`. */
  lemma AbsentCategoryIsNo(lines: seq<Line>, k: string)
    requires forall i :: 0 <= i < |lines| ==> Key(lines[i]) != k
    ensures Lookup(CategoryMap(lines), k) == No
  {
    CategoryMapKeys(lines, k);
  }

  /** The values the decision reads, one per decisive category. */
  datatype Checklist = Checklist(testReports: LineStatus, labeling: LineStatus, trackingOnItem: LineStatus)

  function ChecklistOf(lines: seq<Line>): Checklist {
    var m := CategoryMap(lines);
    Checklist(Lookup(m, TestReports), Lookup(m, Labeling), Lookup(m, TrackingOnItem))
  }

  /** `tracking_ok`. */
  predicate TrackingOk(c: Checklist) {
    c.trackingOnItem == Yes || c.trackingOnItem == Na
  }

  /** `all_fields_ok`. */
  predicate AllFieldsOk(c: Checklist) {
    && c.testReports == Yes
    && (c.labeling == Yes || c.labeling == Na)
    && (c.trackingOnItem == Yes || c.trackingOnItem == Na)
  }

  /** Both dates are set and the test date is in year 1 or 9999, so a window bound cannot be computed. */
  predicate DateOverflow(testDate: Option<PyDate>, trackingDate: Option<PyDate>) {
    testDate.Some? && trackingDate.Some? && (testDate.value.year == MinYear || testDate.value.year == MaxYear)
  }

  /** The decision table, for a product that has at least one line. */
  function Decide(c: Checklist, testDate: Option<PyDate>, trackingDate: Option<PyDate>)
    : (r: Result<ComplianceStatus, EvalError>)
    ensures r.Failure? <==> DateOverflow(testDate, trackingDate)
    ensures r.Success? ==> r.value != NoCompliance
    ensures r == Success(Approved) ==> testDate.Some? && trackingDate.Some?
    ensures r == Success(Warning) ==> trackingDate.Some? && TrackingOk(c)
  {
    var bothDatesFilled := testDate.Some? && trackingDate.Some?;
    if bothDatesFilled && TwelveMonthWindow(testDate.value).None? then Failure(DateOutOfRange)
    else
      var dateRangeValid := bothDatesFilled && InWindow(testDate.value, trackingDate.value);
      if AllFieldsOk(c) && bothDatesFilled && dateRangeValid then Success(Approved)
      else if TrackingOk(c) && trackingDate.Some? then Success(Warning)
      else Success(NotApproved)
  }

  /** The status `_compute_compliance_status` derives for one product. */
  function Evaluate(lines: seq<Line>, testDate: Option<PyDate>, trackingDate: Option<PyDate>)
    : (r: Result<ComplianceStatus, EvalError>)
    ensures r == Success(NoCompliance) <==> lines == []
    ensures r.Failure? <==> lines != [] && DateOverflow(testDate, trackingDate)
  {
    if lines == [] then Success(NoCompliance)
    else Decide(ChecklistOf(lines), testDate, trackingDate)
  }

  /** The approval rule, stated over the last line of each category. */
  predicate ApprovalRule(lines: seq<Line>, testDate: Option<PyDate>, trackingDate: Option<PyDate>) {
    && LastStatus(lines, TestReports) == Yes
    && LastStatus(lines, Labeling) != No
    && LastStatus(lines, TrackingOnItem) != No
    && testDate.Some? && trackingDate.Some?
    && InWindow(testDate.value, trackingDate.value)
  }

  /** The checklist the evaluator builds holds the last status of each decisive category. */
  lemma ChecklistIsLastStatuses(lines: seq<Line>)
    ensures ChecklistOf(lines)
         == Checklist(LastStatus(lines, TestReports), LastStatus(lines, Labeling), LastStatus(lines, TrackingOnItem))
  {
    LookupIsLastStatus(lines, TestReports);
    LookupIsLastStatus(lines, Labeling);
    LookupIsLastStatus(lines, TrackingOnItem);
  }

  /** A product without lines is `no_compliance`, whatever its dates. */
  lemma NoLinesIsNoCompliance(testDate: Option<PyDate>, trackingDate: Option<PyDate>)
    ensures Evaluate([], testDate, trackingDate) == Success(NoCompliance)
  {
  }

  /** `approved` exactly when the approval rule holds. */
  lemma ApprovedExactly(lines: seq<Line>, testDate: Option<PyDate>, trackingDate: Option<PyDate>)
    ensures Evaluate(lines, testDate, trackingDate) == Success(Approved)
        <==> lines != [] && ApprovalRule(lines, testDate, trackingDate)
  {
    ChecklistIsLastStatuses(lines);
  }

  /**
    Otherwise `warning` exactly when tracking on item is yes or n/a and a
    tracking date is set; the test date may be missing.
   */
  lemma WarningExactly(lines: seq<Line>, testDate: Option<PyDate>, trackingDate: Option<PyDate>)
    ensures Evaluate(lines, testDate, trackingDate) == Success(Warning)
        <==> && lines != []
             && !DateOverflow(testDate, trackingDate)
             && !ApprovalRule(lines, testDate, trackingDate)
             && LastStatus(lines, TrackingOnItem) != No
             && trackingDate.Some?
  {
    ChecklistIsLastStatuses(lines);
  }

  /** In every remaining case with lines and computable bounds, `not_approved`. */
  lemma NotApprovedExactly(lines: seq<Line>, testDate: Option<PyDate>, trackingDate: Option<PyDate>)
    ensures Evaluate(lines, testDate, trackingDate) == Success(NotApproved)
        <==> && lines != []
             && !DateOverflow(testDate, trackingDate)
             && !ApprovalRule(lines, testDate, trackingDate)
             && (LastStatus(lines, TrackingOnItem) == No || trackingDate.None?)
  {
    ChecklistIsLastStatuses(lines);
  }

  /** Two names are the same category when they agree after lower-casing (unset and empty are alike). */
  predicate SameNameIgnoringCase(a: Option<string>, b: Option<string>) {
    var x := if a.Some? then a.value else "";
    var y := if b.Some? then b.value else "";
    Lower(x) == Lower(y)
  }

  lemma {:induction false} CategoryMapFollowsKeys(lines: seq<Line>, other: seq<Line>)
    requires |lines| == |other|
    requires forall i :: 0 <= i < |lines| ==> Key(lines[i]) == Key(other[i]) && lines[i].status == other[i].status
    ensures CategoryMap(lines) == CategoryMap(other)
  {
    if lines != [] {
      CategoryMapFollowsKeys(lines[..|lines| - 1], other[..|other| - 1]);
    }
  }

  /** Category names are matched without regard to case. */
  lemma CaseInsensitive(lines: seq<Line>, other: seq<Line>, testDate: Option<PyDate>, trackingDate: Option<PyDate>)
    requires |lines| == |other|
    requires forall i :: 0 <= i < |lines| ==>
      SameNameIgnoringCase(lines[i].typeName, other[i].typeName) && lines[i].status == other[i].status
    ensures Evaluate(lines, testDate, trackingDate) == Evaluate(other, testDate, trackingDate)
  {
    forall i | 0 <= i < |lines|
      ensures Key(lines[i]) == Key(other[i])
    {
    }
    CategoryMapFollowsKeys(lines, other);
  }

  /** The lines filed under one of the three decisive categories, in order. */
  function Decisive(lines: seq<Line>): (r: seq<Line>)
    ensures |r| <= |lines|
    ensures forall i :: 0 <= i < |r| ==> IsDecisive(Key(r[i]))
  {
    if lines == [] then []
    else
      var last := lines[|lines| - 1];
      Decisive(lines[..|lines| - 1]) + (if IsDecisive(Key(last)) then [last] else [])
  }

  lemma {:induction false} LastStatusOfDecisive(lines: seq<Line>, k: string)
    requires IsDecisive(k)
    ensures LastStatus(Decisive(lines), k) == LastStatus(lines, k)
  {
    if lines != [] {
      var init := lines[..|lines| - 1];
      var last := lines[|lines| - 1];
      LastStatusOfDecisive(init, k);
      if IsDecisive(Key(last)) {
        assert (Decisive(init) + [last])[..|Decisive(init)|] == Decisive(init);
      } else {
        assert Decisive(lines) == Decisive(init);
      }
    }
  }

  /**
    Lines of any other category never change the status, as long as the
    product keeps at least one line.
   */
  lemma OtherCategoriesAreInert(lines: seq<Line>, other: seq<Line>, testDate: Option<PyDate>, trackingDate: Option<PyDate>)
    requires lines != [] && other != []
    requires Decisive(lines) == Decisive(other)
    ensures Evaluate(lines, testDate, trackingDate) == Evaluate(other, testDate, trackingDate)
  {
    LastStatusOfDecisive(lines, TestReports);
    LastStatusOfDecisive(lines, Labeling);
    LastStatusOfDecisive(lines, TrackingOnItem);
    LastStatusOfDecisive(other, TestReports);
    LastStatusOfDecisive(other, Labeling);
    LastStatusOfDecisive(other, TrackingOnItem);
    ChecklistIsLastStatuses(lines);
    ChecklistIsLastStatuses(other);
  }

  /** A missing test date does not block `warning`. */
  lemma WarningWithoutTestDate(lines: seq<Line>, trackingDate: PyDate)
    requires lines != []
    requires LastStatus(lines, TrackingOnItem) != No
    ensures Evaluate(lines, None, Some(trackingDate)) == Success(Warning)
  {
    WarningExactly(lines, None, Some(trackingDate));
  }

  /** The names as users type them are filed under the decisive keys. */
  lemma DisplayNamesAreDecisive()
    ensures Lower("Test Reports") == TestReports && Lower("TEST REPORTS") == TestReports
    ensures Lower("Labeling") == Labeling
    ensures Lower("Tracking on Item") == TrackingOnItem
  {
  }

  /** The checklist of the three display names with statuses yes, yes, n/a. */
  lemma ExampleChecklist()
    ensures ChecklistOf([Line(Some("Test Reports"), Yes), Line(Some("Labeling"), Yes), Line(Some("Tracking on Item"), Na)])
         == Checklist(Yes, Yes, Na)
  {
    var lines := [Line(Some("Test Reports"), Yes), Line(Some("Labeling"), Yes), Line(Some("Tracking on Item"), Na)];
    DisplayNamesAreDecisive();
    assert lines[..1] == [lines[0]] && lines[..2] == [lines[0], lines[1]];
    assert CategoryMap(lines[..1]) == map[TestReports := Yes];
    assert CategoryMap(lines[..2]) == map[TestReports := Yes, Labeling := Yes];
    assert CategoryMap(lines) == map[TestReports := Yes, Labeling := Yes, TrackingOnItem := Na];
  }

  /**
    Test date 2024-01-15 with every category satisfied: tracking date
    2025-01-15 is the upper bound and approves; 2025-01-16 falls to `warning`
    because tracking on item is n/a and a tracking date is set.
   */
  lemma WorkedExample()
    ensures var lines := [Line(Some("Test Reports"), Yes), Line(Some("Labeling"), Yes), Line(Some("Tracking on Item"), Na)];
      && Evaluate(lines, Some(Date(2024, 1, 15)), Some(Date(2025, 1, 15))) == Success(Approved)
      && Evaluate(lines, Some(Date(2024, 1, 15)), Some(Date(2025, 1, 16))) == Success(Warning)
  {
    ExampleChecklist();
  }

  /**
    `warning` needs no earlier approval: a product whose only line is
    tracking on item = yes, with a tracking date and no test date, is
    `warning` on its first evaluation.
   */
  lemma WarningWithoutApproval()
    ensures Evaluate([Line(Some("Tracking on Item"), Yes)], None, Some(Date(2025, 1, 1))) == Success(Warning)
  {
    var lines := [Line(Some("Tracking on Item"), Yes)];
    DisplayNamesAreDecisive();
    assert Key(lines[0]) == TrackingOnItem;
    WarningWithoutTestDate(lines, Date(2025, 1, 1));
  }

  /**
    A product whose lines all belong to other categories reads tracking on
    item as `no`, so it is never `approved` or `warning`: it is `not_approved`,
    or the evaluation fails on a date overflow.
   */
  lemma OnlyOtherCategoriesIsNotApproved(lines: seq<Line>, testDate: Option<PyDate>, trackingDate: Option<PyDate>)
    requires lines != []
    requires forall i :: 0 <= i < |lines| ==> !IsDecisive(Key(lines[i]))
    ensures Evaluate(lines, testDate, trackingDate) == Success(NotApproved)
         || Evaluate(lines, testDate, trackingDate).Failure?
  {
    AbsentCategoryIsNo(lines, TestReports);
    AbsentCategoryIsNo(lines, TrackingOnItem);
    LookupIsLastStatus(lines, TestReports);
    LookupIsLastStatus(lines, TrackingOnItem);
    NotApprovedExactly(lines, testDate, trackingDate);
  }
}
