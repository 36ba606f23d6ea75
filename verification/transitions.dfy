/**
  The stored pair `compliance_status` / `previous_compliance_status` as a
  state machine: what one evaluation writes, and when it notifies.
 */
module Transitions {
  import opened Wrappers
  import opened Compliance

  /** The two stored fields; `None` is an unset selection. */
  datatype Stored = Stored(status: Option<ComplianceStatus>, previous: Option<ComplianceStatus>)

  /** `previous_compliance_status or compliance_status`. */
  function OldStatus(s: Stored): Option<ComplianceStatus> {
    if s.previous.Some? then s.previous else s.status
  }

  /**
    One successful evaluation of a product: whether it had lines, and the status
    derived. The type also admits pairs no product yields (no lines with a status
    other than `no_compliance`, lines with `no_compliance`), so the laws about runs
    below hold over a superset of the real evaluations.
   */
  datatype Evaluation = Evaluation(hasLines: bool, status: ComplianceStatus)

  /** The notifier is called. A product without lines skips the check altogether. */
  predicate Fires(s: Stored, e: Evaluation) {
    e.hasLines && OldStatus(s) == Some(Approved) && e.status == NotApproved
  }

  /**
    The fields after the evaluation: with lines both are set to the new status;
    without lines only the status becomes `no_compliance`.
   */
  function After(s: Stored, e: Evaluation): Stored {
    if e.hasLines then Stored(Some(e.status), Some(e.status))
    else s.(status := Some(NoCompliance))
  }

  /** The notifier fires exactly on a degrade from a remembered `approved` to `not_approved`. */
  lemma FiresExactly(s: Stored, e: Evaluation)
    ensures Fires(s, e) <==>
      && e.hasLines && e.status == NotApproved
      && (s.previous == Some(Approved) || (s.previous.None? && s.status == Some(Approved)))
  {
  }

  /** After an evaluation with lines, both fields hold the new status; without lines the previous one is kept. */
  lemma AfterWritesBothOrKeepsPrevious(s: Stored, e: Evaluation)
    ensures e.hasLines ==> After(s, e).status == After(s, e).previous == Some(e.status)
    ensures !e.hasLines ==> After(s, e) == Stored(Some(NoCompliance), s.previous)
  {
  }

  /** The first evaluation of a product, with nothing stored, never notifies. */
  lemma FirstEvaluationIsQuiet(e: Evaluation)
    ensures !Fires(Stored(None, None), e)
  {
  }

  /** Re-evaluating with unchanged inputs writes the same fields and sends nothing. */
  lemma RerunIsQuiet(s: Stored, e: Evaluation)
    ensures After(After(s, e), e) == After(s, e)
    ensures !Fires(After(s, e), e)
  {
  }

  /**
    When the remembered status (previous, else current) is not `approved`,
    no evaluation notifies: `not_approved` -> `approved`, `warning` ->
    `not_approved` and a first `no_compliance` -> `not_approved` are quiet.
   */
  lemma RememberedNonApprovedIsQuiet(s: Stored, e: Evaluation)
    requires OldStatus(s) != Some(Approved)
    ensures !Fires(s, e)
  {
  }

  /**
    Removing every line of an approved product leaves `approved` in the
    previous field, so adding a failing line later notifies although the
    displayed status goes from `no_compliance` to `not_approved`.
   */
  lemma DegradeThroughNoCompliance()
    ensures var s := After(Stored(Some(Approved), Some(Approved)), Evaluation(false, NoCompliance));
      s.status == Some(NoCompliance) && Fires(s, Evaluation(true, NotApproved))
  {
  }

  /** The fields after the first `m` evaluations of a run. */
  function StateAfter(init: Stored, run: seq<Evaluation>, m: nat): Stored
    requires m <= |run|
  {
    if m == 0 then init else After(StateAfter(init, run, m - 1), run[m - 1])
  }

  /** An evaluation of the run, with lines, that derived `approved`. */
  predicate ApprovedAt(run: seq<Evaluation>, k: int)
    requires 0 <= k < |run|
  {
    run[k].hasLines && run[k].status == Approved
  }

  lemma {:induction false} PreviousStaysUnapproved(init: Stored, run: seq<Evaluation>, i: nat, m: nat)
    requires i < m <= |run|
    requires Fires(StateAfter(init, run, i), run[i])
    requires forall k :: i < k < m ==> !ApprovedAt(run, k)
    ensures StateAfter(init, run, m).previous.Some?
    ensures StateAfter(init, run, m).previous != Some(Approved)
  {
    if m > i + 1 {
      PreviousStaysUnapproved(init, run, i, m - 1);
      assert !ApprovedAt(run, m - 1);
    }
  }

  /**
    The notifier fires once per edge: between two notifications of one
    product some evaluation with lines must have derived `approved` again.
   */
  lemma OncePerEdge(init: Stored, run: seq<Evaluation>, i: nat, j: nat)
    requires i < j < |run|
    requires Fires(StateAfter(init, run, i), run[i])
    requires Fires(StateAfter(init, run, j), run[j])
    ensures exists k :: i < k < j && ApprovedAt(run, k)
  {
    if forall k :: i < k < j ==> !ApprovedAt(run, k) {
      PreviousStaysUnapproved(init, run, i, j);
      assert false;
    }
  }
}
