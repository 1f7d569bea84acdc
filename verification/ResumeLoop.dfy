/**
 * `BaseContinuationImpl::resume_with`: the recursion "resume me, then resume my completion" written as a loop.
 */
module ResumeLoop {
  /** A result: a value, or an exception. */
  datatype Outcome = Success(value: int) | Failure(error: int)

  /** What `invoke_suspend` does: suspend, return, or throw. */
  datatype Invoked = Suspended | Returned(value: int) | Threw(error: int)

  /** The frames from one continuation on, linked by `completion`; it may be null, or not a frame. */
  datatype Chain = Frame(id: nat, completion: Chain) | TopLevel(id: nat) | Null

  /** What happens, in order. */
  datatype Event = Invoke(frame: nat, param: Outcome) | Release(frame: nat) | ResumeTop(id: nat, result: Outcome)

  /** The frames are code of their own: W is whatever they read and change. */
  type Code<!W> = (W, nat, Outcome) -> (W, Invoked)

  function OutcomeOf(i: Invoked): Outcome
    requires !i.Suspended?
  {
    if i.Returned? then Success(i.value) else Failure(i.error)
  }

  /** The recursive definition: a frame that ends resumes its completion with its outcome. */
  function Resume<W>(code: Code<W>, w: W, current: Chain, param: Outcome): (W, seq<Event>)
    decreases current
  {
    match current
    case Null => (w, [])
    case TopLevel(id) => (w, [ResumeTop(id, param)])
    case Frame(id, completion) =>
      if completion.Null? then (w, [])
      else
        var (w', invoked) := code(w, id, param);
        if invoked.Suspended? then (w', [Invoke(id, param)])
        else
          var (w'', rest) := Resume(code, w', completion, OutcomeOf(invoked));
          (w'', [Invoke(id, param), Release(id)] + rest)
  }

  /** What is still to come, after the given trace. */
  function After<W>(trace: seq<Event>, rest: (W, seq<Event>)): (W, seq<Event>) {
    (rest.0, trace + rest.1)
  }

  lemma AfterRound<W>(code: Code<W>, w: W, current: Chain, param: Outcome, trace: seq<Event>)
    requires current.Frame? && !current.completion.Null? && !code(w, current.id, param).1.Suspended?
    ensures var (w', invoked) := code(w, current.id, param);
            After(trace, Resume(code, w, current, param))
            == After(trace + [Invoke(current.id, param)] + [Release(current.id)],
                     Resume(code, w', current.completion, OutcomeOf(invoked)))
  {
    var (w', invoked) := code(w, current.id, param);
    var rest := Resume(code, w', current.completion, OutcomeOf(invoked)).1;
    assert trace + ([Invoke(current.id, param), Release(current.id)] + rest)
        == trace + [Invoke(current.id, param)] + [Release(current.id)] + rest;
  }

  // ---------------------------------------------------------------- what the frames are resumed with

  /** What the frames see just before event i. */
  function World<W>(code: Code<W>, start: W, trace: seq<Event>, i: nat): W
    requires i <= |trace|
  {
    if i == 0 then start
    else
      var w := World(code, start, trace, i - 1);
      if trace[i - 1].Invoke? then code(w, trace[i - 1].frame, trace[i - 1].param).0 else w
  }

  /** What the frame that is invoked at event i answers. */
  function Answer<W>(code: Code<W>, start: W, trace: seq<Event>, i: nat): Invoked
    requires i < |trace| && trace[i].Invoke?
  {
    code(World(code, start, trace, i), trace[i].frame, trace[i].param).1
  }

  /** A frame or the top level is resumed with this result. */
  predicate ResumedWith(e: Event, result: Outcome) {
    match e
    case Invoke(_, param) => param == result
    case ResumeTop(_, top) => top == result
    case Release(_) => false
  }

  /** After its answer the frame at event i is released, and whoever comes next is resumed with that answer. */
  predicate PassedOn<W>(code: Code<W>, start: W, trace: seq<Event>, i: nat)
    requires i < |trace| && trace[i].Invoke?
  {
    var answer := Answer(code, start, trace, i);
    if answer.Suspended? then i + 1 == |trace|
    else
      && i + 1 < |trace| && trace[i + 1] == Release(trace[i].frame)
      && (i + 2 < |trace| ==>
            && (answer.Returned? ==> ResumedWith(trace[i + 2], Success(answer.value)))
            && (answer.Threw? ==> ResumedWith(trace[i + 2], Failure(answer.error))))
  }

  /**
   * The first frame is resumed with the given result, every later one and the top level with the answer of the one
   * before, a value as a success and an exception as a failure; and the frames have seen nothing else.
   */
  ghost predicate Relayed<W>(code: Code<W>, start: W, result: Outcome, w: W, trace: seq<Event>) {
    && (trace != [] ==> ResumedWith(trace[0], result))
    && (forall i :: 0 <= i < |trace| && trace[i].Invoke? ==> PassedOn(code, start, trace, i))
    && w == World(code, start, trace, |trace|)
  }

  lemma {:induction false} LaterWorld<W>(code: Code<W>, start: W, two: seq<Event>, rest: seq<Event>, i: nat)
    requires |two| == 2 && two[0].Invoke? && two[1].Release? && i <= |rest|
    ensures World(code, start, two + rest, i + 2) == World(code, code(start, two[0].frame, two[0].param).0, rest, i)
  {
    if i == 0 {
      assert World(code, start, two + rest, 1) == code(start, two[0].frame, two[0].param).0;
    } else {
      LaterWorld(code, start, two, rest, i - 1);
      assert (two + rest)[i + 1] == rest[i - 1];
    }
  }

  lemma OneMoreRelayed<W>(code: Code<W>, start: W, id: nat, param: Outcome, next: Outcome, w: W, rest: seq<Event>)
    requires var (w', answer) := code(start, id, param);
             && !answer.Suspended? && Relayed(code, w', next, w, rest)
             && next == if answer.Returned? then Success(answer.value) else Failure(answer.error)
    ensures Relayed(code, start, param, w, [Invoke(id, param), Release(id)] + rest)
  {
    var two := [Invoke(id, param), Release(id)];
    var trace, w' := two + rest, code(start, id, param).0;
    forall i | 0 <= i < |trace| && trace[i].Invoke? ensures PassedOn(code, start, trace, i) {
      if i >= 2 {
        LaterWorld(code, start, two, rest, i - 2);
        assert trace[i] == rest[i - 2] && PassedOn(code, w', rest, i - 2);
      }
    }
    LaterWorld(code, start, two, rest, |rest|);
  }

  lemma {:induction false} ResumeRelays<W>(code: Code<W>, start: W, current: Chain, param: Outcome)
    ensures Relayed(code, start, param, Resume(code, start, current, param).0, Resume(code, start, current, param).1)
    decreases current
  {
    if current.Frame? && !current.completion.Null? {
      var (w', answer) := code(start, current.id, param);
      if answer.Suspended? {
        assert World(code, start, [Invoke(current.id, param)], 1) == w';
      } else {
        var (w, rest) := Resume(code, w', current.completion, OutcomeOf(answer));
        ResumeRelays(code, w', current.completion, OutcomeOf(answer));
        OneMoreRelayed(code, start, current.id, param, OutcomeOf(answer), w, rest);
      }
    }
  }

  // ---------------------------------------------------------------- the loop

  /** `resume_with`, called on a frame. */
  method ResumeWith<W>(code: Code<W>, start: W, frame: Chain, result: Outcome) returns (w: W, trace: seq<Event>)
    requires frame.Frame?
    ensures (w, trace) == Resume(code, start, frame, result)
    ensures Relayed(code, start, result, w, trace)
  {
    ResumeRelays(code, start, frame, result);
    var current, param := frame, result;
    w, trace := start, [];
    ghost var whole := Resume(code, start, frame, result);
    assert [] + whole.1 == whole.1;
    while true
      invariant current.Frame? && whole == After(trace, Resume(code, w, current, param))
      decreases current
    {
      var completion := current.completion;
      if completion.Null? {
        assert trace + [] == trace;
        return;
      }
      var (w', invoked) := code(w, current.id, param);
      if !invoked.Suspended? {
        AfterRound(code, w, current, param, trace);
      }
      w := w';
      trace := trace + [Invoke(current.id, param)];
      if invoked.Suspended? {
        return;
      }
      var outcome := if invoked.Returned? then Success(invoked.value) else Failure(invoked.error);
      trace := trace + [Release(current.id)];
      if completion.Frame? {
        current := completion;
        param := outcome;
      } else {
        trace := trace + [ResumeTop(completion.id, outcome)];
        return;
      }
    }
  }

  // ---------------------------------------------------------------- what a resumption looks like

  /** The frames of a chain, innermost first. */
  function Frames(c: Chain): seq<nat> {
    if c.Frame? then [c.id] + Frames(c.completion) else []
  }

  function Ending(c: Chain): Chain {
    if c.Frame? then Ending(c.completion) else c
  }

  function InvokedIn(trace: seq<Event>): seq<nat> {
    if trace == [] then []
    else (if trace[0].Invoke? then [trace[0].frame] else []) + InvokedIn(trace[1..])
  }

  function ReleasedIn(trace: seq<Event>): seq<nat> {
    if trace == [] then []
    else (if trace[0].Release? then [trace[0].frame] else []) + ReleasedIn(trace[1..])
  }

  function ToppedIn(trace: seq<Event>): seq<nat> {
    if trace == [] then []
    else (if trace[0].ResumeTop? then [trace[0].id] else []) + ToppedIn(trace[1..])
  }

  /** How many frames run to their end before one suspends, or the chain is over. */
  function Ended<W>(code: Code<W>, w: W, current: Chain, param: Outcome): (n: nat)
    ensures n <= |Frames(current)|
    decreases current
  {
    if !current.Frame? || current.completion.Null? then 0
    else
      var (w', invoked) := code(w, current.id, param);
      if invoked.Suspended? then 0 else 1 + Ended(code, w', current.completion, OutcomeOf(invoked))
  }

  lemma TwoEvents(id: nat, param: Outcome, rest: seq<Event>)
    ensures var trace := [Invoke(id, param), Release(id)] + rest;
            && InvokedIn(trace) == [id] + InvokedIn(rest)
            && ReleasedIn(trace) == [id] + ReleasedIn(rest)
            && ToppedIn(trace) == ToppedIn(rest)
  {
    var trace := [Invoke(id, param), Release(id)] + rest;
    assert trace[1..] == [Release(id)] + rest && trace[1..][1..] == rest;
  }

  /**
   * Frames run from the inside out, each once. The first that suspends ends the resumption: it is not released and
   * the top level is not called. If none does, the top level is called once, and every frame is released, unless
   * the chain ends in null: then its last frame is not even invoked.
   */
  predicate Shape(trace: seq<Event>, n: nat, current: Chain)
    requires n <= |Frames(current)|
  {
    var frames := Frames(current);
    && ReleasedIn(trace) == frames[..n]
    && (n == |frames| ==>
          InvokedIn(trace) == frames && Ending(current).TopLevel? && ToppedIn(trace) == [Ending(current).id])
    && (n < |frames| ==>
          && ToppedIn(trace) == []
          && InvokedIn(trace) == if Ending(current).Null? && n == |frames| - 1 then frames[..n] else frames[..n + 1])
  }

  lemma OneMoreFrame(trace: seq<Event>, n: nat, current: Chain, param: Outcome)
    requires current.Frame? && current.completion.Frame?
    requires n <= |Frames(current.completion)| && Shape(trace, n, current.completion)
    ensures Shape([Invoke(current.id, param), Release(current.id)] + trace, n + 1, current)
  {
    var frames, inner := Frames(current), Frames(current.completion);
    TwoEvents(current.id, param, trace);
    assert frames[..n + 1] == [current.id] + inner[..n];
    if n < |inner| {
      assert frames[..n + 2] == [current.id] + inner[..n + 1];
    }
  }

  lemma {:induction false} Resumption<W>(code: Code<W>, w: W, current: Chain, param: Outcome)
    requires current.Frame?
    ensures Shape(Resume(code, w, current, param).1, Ended(code, w, current, param), current)
    decreases current
  {
    var frames := Frames(current);
    if !current.completion.Null? {
      var (w', invoked) := code(w, current.id, param);
      if invoked.Suspended? {
        assert frames[..0] == [] && frames[..1] == [current.id];
      } else {
        var outcome := OutcomeOf(invoked);
        if current.completion.Frame? {
          Resumption(code, w', current.completion, outcome);
          OneMoreFrame(Resume(code, w', current.completion, outcome).1, Ended(code, w', current.completion, outcome),
                       current, param);
        } else {
          TwoEvents(current.id, param, [ResumeTop(current.completion.id, outcome)]);
          assert frames[..1] == [current.id];
        }
      }
    }
  }
}
