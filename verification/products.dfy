/**
  `ProductTemplate` as a stateful object: its inputs, the two stored status
  fields the evaluator overwrites, and the notifications it has left behind;
  the batch recomputation over a set of products and the daily cron job.
 */
module Products {
  import opened Wrappers
  import opened Dates
  import opened Text
  import opened Compliance
  import opened Transitions
  import opened Notification

  class Product {
    var lines: seq<Line>
    var testDate: Option<PyDate>
    var trackingDate: Option<PyDate>
    var complianceStatus: Option<ComplianceStatus>
    var previousComplianceStatus: Option<ComplianceStatus>
    /** The e-mails and chatter notes the notifier posts for this product, oldest first. */
    var log: seq<Event>

    constructor (lines: seq<Line>, testDate: Option<PyDate>, trackingDate: Option<PyDate>)
      ensures this.lines == lines && this.testDate == testDate && this.trackingDate == trackingDate
      ensures complianceStatus.None? && previousComplianceStatus.None? && log == []
    {
      this.lines := lines;
      this.testDate := testDate;
      this.trackingDate := trackingDate;
      complianceStatus := None;
      previousComplianceStatus := None;
      log := [];
    }

    function StoredState(): Stored
      reads this
    {
      Stored(complianceStatus, previousComplianceStatus)
    }

    /** The evaluator applied to this product's current inputs. */
    function Derived(): Result<ComplianceStatus, EvalError>
      reads this
    {
      Evaluate(lines, testDate, trackingDate)
    }

    /** `_send_compliance_status_notification`: an e-mail when anyone is to be told, then always a chatter note. */
    method SendNotification(setting: Option<string>, group: seq<string>)
      modifies this`log
      ensures log == old(log) + NotificationEvents(Recipients(setting, group))
      ensures log[|log| - 1] == ChatterNote
    {
      var emails := CollectRecipients(setting, group);
      if emails != [] {
        log := log + [EmailSent(Join(emails, ','))];
      }
      log := log + [ChatterNote];
    }

    /**
      One pass of the loop body of `_compute_compliance_status`. It fails,
      writing nothing, when a bound of the date window leaves the years a date
      holds.
     */
    method Recompute(setting: Option<string>, group: seq<string>) returns (ok: bool)
      modifies this`complianceStatus, this`previousComplianceStatus, this`log
      ensures ok <==> Derived().Success?
      ensures !ok ==> StoredState() == old(StoredState()) && log == old(log)
      ensures ok ==> Recomputed(this, setting, group)
    {
      if lines == [] {
        complianceStatus := Some(NoCompliance);
        return true;
      }
      var dict := BuildCategoryMap(lines);
      var checklist := Checklist(Lookup(dict, TestReports), Lookup(dict, Labeling), Lookup(dict, TrackingOnItem));
      var decision := Decide(checklist, testDate, trackingDate);
      assert decision == Derived();
      if decision.Failure? {
        return false;
      }
      var newStatus := decision.value;
      ghost var e := Evaluation(true, newStatus);
      var oldStatus := if previousComplianceStatus.Some? then previousComplianceStatus else complianceStatus;
      assert oldStatus == OldStatus(old(StoredState()));
      if oldStatus == Some(Approved) && newStatus == NotApproved {
        SendNotification(setting, group);
      }
      assert log == old(log) + (if Fires(old(StoredState()), e) then NotificationEvents(Recipients(setting, group)) else []);
      complianceStatus := Some(newStatus);
      previousComplianceStatus := Some(newStatus);
      ok := true;
    }
  }

  /** `compliance_dict`, filled line by line; a later line overwrites an earlier one with the same key. */
  method BuildCategoryMap(lines: seq<Line>) returns (dict: map<string, LineStatus>)
    ensures dict == CategoryMap(lines)
    ensures forall k :: Lookup(dict, k) == LastStatus(lines, k)
  {
    dict := map[];
    var i := 0;
    while i < |lines|
      invariant 0 <= i <= |lines|
      invariant dict == CategoryMap(lines[..i])
    {
      assert lines[..i + 1][..i] == lines[..i];
      dict := dict[Key(lines[i]) := lines[i].status];
      i := i + 1;
    }
    assert lines[..|lines|] == lines;
    forall k
      ensures Lookup(dict, k) == LastStatus(lines, k)
    {
      LookupIsLastStatus(lines, k);
    }
  }

  /** The inputs of the evaluator are never written by it. */
  twostate predicate InputsUnchanged(p: Product)
    reads p
  {
    p.lines == old(p.lines) && p.testDate == old(p.testDate) && p.trackingDate == old(p.trackingDate)
  }

  /**
    `p` went through one successful evaluation: the stored pair moved as the
    state machine says, and a notification was logged exactly when it fires.
   */
  twostate predicate Recomputed(p: Product, setting: Option<string>, group: seq<string>)
    reads p
  {
    && InputsUnchanged(p)
    && p.Derived().Success?
    && var e := Evaluation(p.lines != [], p.Derived().value);
       && p.StoredState() == After(old(p.StoredState()), e)
       && p.log == old(p.log)
                   + (if Fires(old(p.StoredState()), e) then NotificationEvents(Recipients(setting, group)) else [])
  }

  predicate Distinct(products: seq<Product>) {
    forall i, j :: 0 <= i < j < |products| ==> products[i] != products[j]
  }

  /**
    `_compute_compliance_status` over a record set: each product is evaluated
    and checked against its own stored pair. The first product whose window
    cannot be computed stops the loop; those before it are already written.
   */
  method ComputeComplianceStatus(products: seq<Product>, setting: Option<string>, group: seq<string>)
    returns (ok: bool)
    requires Distinct(products)
    modifies set p | p in products
    ensures forall p :: p in products ==> InputsUnchanged(p)
    ensures ok <==> forall p :: p in products ==> p.Derived().Success?
    ensures ok ==> forall p :: p in products ==> Recomputed(p, setting, group)
    ensures !ok ==> exists k :: 0 <= k < |products| && StoppedAt(products, k, setting, group)
  {
    var i := 0;
    while i < |products|
      invariant 0 <= i <= |products|
      invariant forall p :: p in products ==> InputsUnchanged(p)
      invariant forall j :: 0 <= j < i ==> Recomputed(products[j], setting, group)
      invariant forall j :: i <= j < |products| ==> unchanged(products[j])
    {
      assert forall j :: 0 <= j < |products| && j != i ==> products[j] != products[i];
      var done := products[i].Recompute(setting, group);
      if !done {
        assert StoppedAt(products, i, setting, group);
        return false;
      }
      i := i + 1;
    }
    return true;
  }

  /** The batch stopped at `products[k]`: it fails, those before it were recomputed, it and those after are untouched. */
  twostate predicate StoppedAt(products: seq<Product>, k: int, setting: Option<string>, group: seq<string>)
    requires 0 <= k < |products|
    reads set p | p in products
  {
    && products[k].Derived().Failure?
    && (forall j :: 0 <= j < k ==> Recomputed(products[j], setting, group))
    && (forall j :: k <= j < |products| ==> unchanged(products[j]))
  }

  /** The search domain of the cron: at least one line and both dates set. */
  predicate Selected(p: Product)
    reads p
  {
    p.lines != [] && p.testDate.Some? && p.trackingDate.Some?
  }

  /** The products the cron's search returns, in their order. */
  function CronSelection(products: seq<Product>): (r: seq<Product>)
    reads set p | p in products
    ensures forall i :: 0 <= i < |r| ==> r[i] in products && Selected(r[i])
    ensures forall i :: 0 <= i < |products| && Selected(products[i]) ==> products[i] in r
    ensures Distinct(products) ==> Distinct(r)
  {
    if products == [] then []
    else
      var rest := CronSelection(products[1..]);
      assert forall i :: 0 <= i < |products| - 1 ==> products[1..][i] == products[i + 1];
      if Selected(products[0]) then
        assert Distinct(products) ==> products[0] !in products[1..];
        [products[0]] + rest
      else rest
  }

  /**
    `_cron_recompute_compliance_status`: recompute exactly the selected
    products and return True. Nothing else is touched.
   */
  method CronRecompute(products: seq<Product>, setting: Option<string>, group: seq<string>)
    returns (r: Result<bool, EvalError>)
    requires Distinct(products)
    modifies set p | p in products
    ensures forall p :: p in products ==> InputsUnchanged(p)
    ensures forall p :: p in products && !Selected(p) ==> unchanged(p)
    ensures r.Success? <==> forall p :: p in products && Selected(p) ==> p.Derived().Success?
    ensures r.Success? ==> r.value && forall p :: p in products && Selected(p) ==> Recomputed(p, setting, group)
  {
    var selected := CronSelection(products);
    var ok := ComputeComplianceStatus(selected, setting, group);
    r := if ok then Success(true) else Failure(DateOutOfRange);
  }

  /**
    Evaluating a product twice with unchanged inputs leaves it as one
    evaluation does: the second pass writes the same fields and sends nothing.
   */
  method RecomputeTwiceIsRecomputeOnce(p: Product, setting: Option<string>, group: seq<string>)
    returns (ok: bool)
    modifies p`complianceStatus, p`previousComplianceStatus, p`log
    ensures ok <==> p.Derived().Success?
    ensures ok ==> Recomputed(p, setting, group)
    ensures !ok ==> unchanged(p)
  {
    ok := p.Recompute(setting, group);
    if ok {
      ghost var e := Evaluation(p.lines != [], p.Derived().value);
      RerunIsQuiet(old(p.StoredState()), e);
      var again := p.Recompute(setting, group);
    }
  }
}
