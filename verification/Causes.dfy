/**
 * Exceptions as the job machine sees them, and how a finishing job turns the
 * exceptions it has collected into its final cause
 * (`Finishing::seal_locked`, `get_final_root_cause`).
 */
module Causes {
  import opened Options

  /** An exception object. `id` is its identity, as `std::exception_ptr` compares identities. */
  datatype Exn =
    | Cancellation(id: nat)   // CancellationException
    | Timeout(id: nat)        // TimeoutCancellationException, a CancellationException too
    | Failure(id: nat)        // anything else

  /** The exception made by `default_cancellation_exception`. */
  const DEFAULT_CANCELLATION := Cancellation(0)

  predicate IsCancellation(e: Exn) {
    !e.Failure?
  }

  /** What `seal_locked` returns: root cause first, then the one stored extra, then the proposed one. */
  function Sealed(root: Option<Exn>, extra: Option<Exn>, proposed: Option<Exn>): seq<Exn> {
    (if root.Some? then [root.value] else []) +
    (if extra.Some? then [extra.value] else []) +
    (if proposed.Some? && proposed != root then [proposed.value] else [])
  }

  /** Index of the first failure at or after `from`, or |es|. */
  function FirstFailure(es: seq<Exn>, from: nat): (i: nat)
    requires from <= |es|
    ensures from <= i <= |es|
    ensures i < |es| ==> es[i].Failure?
    ensures forall k :: from <= k < i ==> IsCancellation(es[k])
    decreases |es| - from
  {
    if from == |es| || es[from].Failure? then from else FirstFailure(es, from + 1)
  }

  /** Index of the first timeout at or after `from`, or |es|. */
  function FirstTimeout(es: seq<Exn>, from: nat): (i: nat)
    requires from <= |es|
    ensures from <= i <= |es|
    ensures i < |es| ==> es[i].Timeout?
    ensures forall k :: from <= k < i ==> !es[k].Timeout?
    decreases |es| - from
  {
    if from == |es| || es[from].Timeout? then from else FirstTimeout(es, from + 1)
  }

  predicate NoFailure(es: seq<Exn>, to: nat) {
    forall k :: 0 <= k < to && k < |es| ==> IsCancellation(es[k])
  }

  predicate NoTimeout(es: seq<Exn>, from: nat, to: nat) {
    forall k :: from <= k < to && k < |es| ==> !es[k].Timeout?
  }

  /**
   * Which of the exceptions is the final cause: the first failure; if there is none, the second timeout when a
   * timeout leads; otherwise the first exception.
   */
  predicate Chosen(es: seq<Exn>, i: nat)
    requires i < |es|
  {
    if es[i].Failure? then NoFailure(es, i)
    else
      && NoFailure(es, |es|)
      && (if i == 0 then es[0].Timeout? ==> NoTimeout(es, 1, |es|)
          else es[0].Timeout? && es[i].Timeout? && NoTimeout(es, 1, i))
  }

  /** There is exactly one such exception. */
  lemma ChosenOnce(es: seq<Exn>, i: nat, k: nat)
    requires i < |es| && k < |es| && Chosen(es, i) && Chosen(es, k)
    ensures i == k
  {
  }

  /** The rule of `get_final_root_cause`, as one expression. */
  function FinalRootCause(cancelling: bool, es: seq<Exn>): Option<Exn> {
    if es == [] then (if cancelling then Some(DEFAULT_CANCELLATION) else None)
    else if FirstFailure(es, 0) < |es| then Some(es[FirstFailure(es, 0)])
    else if es[0].Timeout? && FirstTimeout(es, 1) < |es| then Some(es[FirstTimeout(es, 1)])
    else Some(es[0])
  }

  /** The final cause of a job whose finishing state holds `root` and `extra`. */
  function FinalCause(root: Option<Exn>, extra: Option<Exn>, proposed: Option<Exn>): Option<Exn> {
    FinalRootCause(root.Some?, Sealed(root, extra, proposed))
  }

  /** The two scans of `get_final_root_cause`, as loops. */
  method GetFinalRootCause(cancelling: bool, es: seq<Exn>) returns (cause: Option<Exn>)
    ensures cause == FinalRootCause(cancelling, es)
    ensures es == [] ==> cause == if cancelling then Some(DEFAULT_CANCELLATION) else None
    ensures es != [] ==> exists i: nat :: i < |es| && cause == Some(es[i]) && Chosen(es, i)
    ensures (exists e :: e in es && e.Failure?) <==> cause.Some? && cause.value.Failure?
  {
    if es == [] {
      return if cancelling then Some(DEFAULT_CANCELLATION) else None;
    }
    var i := 0;
    while i < |es| && IsCancellation(es[i])
      invariant 0 <= i <= |es|
      invariant forall k :: 0 <= k < i ==> IsCancellation(es[k])
      invariant FirstFailure(es, i) == FirstFailure(es, 0)
    {
      i := i + 1;
    }
    if i < |es| {
      return Some(es[i]);
    }
    var first := es[0];
    if first.Timeout? {
      var k := 1;
      while k < |es| && !es[k].Timeout?
        invariant 1 <= k <= |es|
        invariant FirstTimeout(es, k) == FirstTimeout(es, 1)
      {
        k := k + 1;
      }
      if k < |es| {
        return Some(es[k]);
      }
    }
    return Some(first);
  }

  /** A failure that cancelled the job stays its final cause, whatever is added or proposed later. */
  lemma FailureRootIsFinal(root: Option<Exn>, extra: Option<Exn>, proposed: Option<Exn>)
    requires root.Some? && root.value.Failure?
    ensures FinalCause(root, extra, proposed) == root
  {
    var es := Sealed(root, extra, proposed);
    assert es[0] == root.value;
    assert FirstFailure(es, 0) == 0;
  }

  predicate IsFailure(e: Option<Exn>) { e.Some? && e.value.Failure? }
  predicate IsTimeout(e: Option<Exn>) { e.Some? && e.value.Timeout? }

  /**
   * Who prevails among root cause, extra and proposed exception: the first failure in this order, otherwise the
   * root cause, unless that is a timeout and another timeout came after it.
   */
  function Prevails(root: Option<Exn>, extra: Option<Exn>, proposed: Option<Exn>): Option<Exn> {
    if IsFailure(root) then root
    else if IsFailure(extra) then extra
    else if IsFailure(proposed) then proposed
    else if IsTimeout(root) && IsTimeout(extra) then extra
    else if IsTimeout(root) && IsTimeout(proposed) then proposed
    else root
  }

  lemma WhoPrevails(root: Option<Exn>, extra: Option<Exn>, proposed: Option<Exn>)
    requires root.Some?
    ensures FinalCause(root, extra, proposed) == Prevails(root, extra, proposed)
  {
    var es := Sealed(root, extra, proposed);
    assert es[0] == root.value;
    assert extra.Some? ==> es[1] == extra.value;
    if proposed.Some? && proposed != root {
      assert es[|es| - 1] == proposed.value;
    }
  }

  /**
   * When every exception of a finishing job was recorded under a root cause, the job ends
   * exceptionally exactly when it has one, and it ends with a failure exactly when it saw one.
   */
  lemma FinalCauseKind(root: Option<Exn>, extra: Option<Exn>, proposed: Option<Exn>)
    requires root.None? ==> extra.None? && proposed.None?
    ensures FinalCause(root, extra, proposed).Some? <==> root.Some?
    ensures FinalCause(root, extra, proposed).Some? && FinalCause(root, extra, proposed).value.Failure? <==>
            (root.Some? && root.value.Failure?) || (extra.Some? && extra.value.Failure?)
            || (proposed.Some? && proposed.value.Failure?)
    ensures FinalCause(root, extra, proposed).Some? ==>
              FinalCause(root, extra, proposed) in {root, extra, proposed}
  {
    var es := Sealed(root, extra, proposed);
    if root.Some? {
      assert es[0] == root.value;
      assert extra.Some? ==> es[1] == extra.value;
      if proposed.Some? && proposed != root {
        assert es[|es| - 1] == proposed.value;
      }
      assert forall e :: e in es ==> Some(e) in {root, extra, proposed};
    }
  }
}
