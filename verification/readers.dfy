/**
 The open/retry loop of `RfidReaderManager.run` in juliana.py, as a step
 function over the manager's state.

 One pass of the `while self.running` loop is one `Step`. The reader driver is
 abstract: a pass either finds `clf.device` set (the manager only sleeps) or
 closes the frontend and calls `clf.open`, whose result is an input of the
 step. A reader that disappears while open is the input `ReaderDetached`
 (the driver clears `clf.device`). The card managers the reader manager has
 created are kept, in creation order, with their `running` flags.

 The `except Exception` branch (juliana.py:213-218) is modelled twice, as the
 code is written and as it is evidently meant; every property of the loop
 except the error report holds for both.
 */
module Readers {
  import opened Base

  /** The result of `clf.open(target)`: a device, False, or an exception. */
  datatype OpenResult = Opened(device: nat) | NotFound | OpenRaised

  datatype Input =
    | Pass(open: OpenResult)   // one pass of the loop; `open` is used only if no device is set
    | ReaderDetached           // the driver lost the reader: `clf.device` becomes unset

  /** An `RfidCardManager` thread: the device it was created for and its `running` flag. */
  datatype CardManager = CardManager(device: nat, running: bool)

  /** What a pass reports: each also goes to the console and, with a GUI, to a toast. */
  datatype Event =
    | ReaderFound(device: nat)   // "Found NFC card reader", info
    | NoReaders                  // "No readers found.", warning
    | OpenError                  // "Could not open card reader", error

  /** The `except Exception` branch taken when `clf.open` raises.
      `AsWritten`: the branch calls `traceback.format_exc(e)`, which hands the
      exception to the `limit` parameter. Python's traceback module compares
      `limit >= 0`, so the call itself raises `TypeError`. The error line, the
      toast and `sys.exit(2)` are never reached, and the thread dies of the
      uncaught `TypeError` without an `OpenError` report.
      `Intended`: the traceback is formatted without an argument, the error is
      reported, and `sys.exit(2)` ends the thread. Either way only this thread
      ends, not the process. */
  datatype ExceptBranch = AsWritten | Intended

  /** `device` is `clf.device`; `justStarted` and `managers`/`current` are the manager's
      fields (`current` indexes `managers`, standing for `self.card_manager`); `alive`
      is false once `sys.exit(2)` has ended the thread. */
  datatype State = State(
    device: Option<nat>,
    justStarted: bool,
    managers: seq<CardManager>,
    current: Option<nat>,
    alive: bool)

  datatype StepResult = StepResult(state: State, events: seq<Event>)

  /** The state right after `__init__`, before the first pass. */
  const Init := State(None, true, [], None, true)

  /** `card_manager` refers to a created manager, and only that one may still be running. */
  predicate Valid(s: State) {
    && (s.current.Some? ==> s.current.value < |s.managers|)
    && (forall i :: 0 <= i < |s.managers| && s.managers[i].running ==> s.current == Some(i))
  }

  /** The number of managers whose `running` flag is set. */
  function RunningCount(ms: seq<CardManager>): nat {
    if |ms| == 0 then 0
    else RunningCount(ms[..|ms| - 1]) + (if ms[|ms| - 1].running then 1 else 0)
  }

  /** `self.card_manager.running = False`, when there is a card manager. */
  function StopCurrent(s: State): (ms: seq<CardManager>)
    requires Valid(s)
    ensures |ms| == |s.managers|
    ensures forall i :: 0 <= i < |ms| ==> !ms[i].running
    ensures forall i :: 0 <= i < |ms| ==> ms[i].device == s.managers[i].device
  {
    match s.current
    case None => s.managers
    case Some(i) => s.managers[i := s.managers[i].(running := false)]
  }

  /** One pass of the loop, or a detach, which only unsets the device. With a device
      set, a pass only sleeps. Otherwise the frontend is reopened: on success every
      earlier card manager is stopped and one new running manager is created for the
      device; on "no reader" the warning is given only while `just_started` holds,
      which the pass then clears; on an exception the thread ends, reporting the
      error only in the `Intended` branch. */
  function Step(s: State, input: Input, branch: ExceptBranch): (r: StepResult)
    requires Valid(s)
    ensures Valid(r.state)
    ensures input == ReaderDetached ==> r.state == s.(device := None) && r.events == []
    ensures !s.alive ==> r.state == s.(device := r.state.device) && r.events == []
    ensures !s.alive && input.Pass? ==> r == StepResult(s, [])
    ensures s.alive && input.Pass? && s.device.Some? ==> r.state == s && r.events == []
    ensures s.alive && s.device.None? && input == Pass(NotFound) ==>
      r == StepResult(s.(justStarted := false), if s.justStarted then [NoReaders] else [])
    ensures s.alive && s.device.None? && input == Pass(OpenRaised) ==>
      && r.state == s.(alive := false)
      && (r.events == [OpenError] <==> branch == Intended)
      && (r.events == [] <==> branch == AsWritten)
    ensures s.alive && s.device.None? && input.Pass? && input.open.Opened? ==>
      && r.state.current == Some(|s.managers|)
      && r.state.justStarted == s.justStarted
      && r.state.alive
    ensures NoReaders in r.events ==> s.justStarted && !r.state.justStarted && r.events == [NoReaders]
    ensures r.state.justStarted ==> s.justStarted
    ensures r.state.alive ==> s.alive
    ensures |s.managers| <= |r.state.managers|
    ensures s.alive && input.Pass? && input.open.Opened? && s.device.None? ==> |r.state.managers| > |s.managers|
    ensures |r.state.managers| > |s.managers| ==>
      && s.alive && input.Pass? && input.open.Opened? && s.device.None?
      && |r.state.managers| == |s.managers| + 1
      && r.state.managers[|s.managers|] == CardManager(input.open.device, true)
      && (forall i :: 0 <= i < |s.managers| ==> !r.state.managers[i].running)
      && (forall i :: 0 <= i < |s.managers| ==> r.state.managers[i].device == s.managers[i].device)
      && r.state.device == Some(input.open.device)
      && r.events == [ReaderFound(input.open.device)]
  {
    match input
    case ReaderDetached => StepResult(s.(device := None), [])
    case Pass(open) =>
      if !s.alive || s.device.Some? then StepResult(s, [])
      else
        match open
        case Opened(d) =>
          var ms := StopCurrent(s);
          StepResult(s.(device := Some(d), managers := ms + [CardManager(d, true)], current := Some(|ms|)),
                     [ReaderFound(d)])
        case NotFound =>
          if s.justStarted then StepResult(s.(justStarted := false), [NoReaders])
          else StepResult(s, [])
        case OpenRaised =>
          StepResult(s.(alive := false), if branch == Intended then [OpenError] else [])
  }

  /** A run of the loop over a sequence of inputs: the final state and every event. */
  function Run(s: State, inputs: seq<Input>, branch: ExceptBranch): (r: StepResult)
    requires Valid(s)
    ensures Valid(r.state)
    decreases |inputs|
  {
    if |inputs| == 0 then StepResult(s, [])
    else
      var first := Step(s, inputs[0], branch);
      var rest := Run(first.state, inputs[1..], branch);
      StepResult(rest.state, first.events + rest.events)
  }

  /** How many "No readers found." warnings a list of events holds. */
  function Warnings(es: seq<Event>): nat {
    if |es| == 0 then 0 else (if es[0] == NoReaders then 1 else 0) + Warnings(es[1..])
  }

  lemma {:induction false} WarningsAppend(a: seq<Event>, b: seq<Event>)
    ensures Warnings(a + b) == Warnings(a) + Warnings(b)
  {
    if |a| > 0 {
      WarningsAppend(a[1..], b);
      assert (a + b)[1..] == a[1..] + b;
    } else {
      assert a + b == b;
    }
  }

  /** A step warns at most once, and only when `just_started` held before it. */
  lemma StepWarnings(s: State, input: Input, branch: ExceptBranch)
    requires Valid(s)
    ensures Warnings(Step(s, input, branch).events) <= (if s.justStarted then 1 else 0)
  {
  }

  /** Over any run, the warning appears at most once, and never once `just_started`
      has been cleared. */
  lemma {:induction false} RunWarnsAtMostOnce(s: State, inputs: seq<Input>, branch: ExceptBranch)
    requires Valid(s)
    ensures Warnings(Run(s, inputs, branch).events) <= (if s.justStarted then 1 else 0)
    decreases |inputs|
  {
    if |inputs| > 0 {
      var first := Step(s, inputs[0], branch);
      StepWarnings(s, inputs[0], branch);
      RunWarnsAtMostOnce(first.state, inputs[1..], branch);
      WarningsAppend(first.events, Run(first.state, inputs[1..], branch).events);
      if Warnings(first.events) == 1 {
        assert NoReaders in first.events;
      }
    }
  }

  /** From start-up, any run gives the "No readers found." warning at most once. */
  lemma WarnsAtMostOnce(inputs: seq<Input>, branch: ExceptBranch)
    ensures Warnings(Run(Init, inputs, branch).events) <= 1
  {
    RunWarnsAtMostOnce(Init, inputs, branch);
  }

  /** In a valid state at most one card manager is marked running. */
  lemma {:induction false} ValidRunningCount(ms: seq<CardManager>, current: Option<nat>)
    requires forall i :: 0 <= i < |ms| && ms[i].running ==> current == Some(i)
    ensures RunningCount(ms) <= 1
    ensures RunningCount(ms) == 1 ==> current.Some? && current.value < |ms| && ms[current.value].running
  {
    if |ms| > 0 {
      var last := |ms| - 1;
      var pre := ms[..last];
      if ms[last].running {
        forall i | 0 <= i < |pre|
          ensures !pre[i].running
        {
          assert ms[i] == pre[i];
        }
        NoneRunning(pre);
      } else {
        forall i | 0 <= i < |pre| && pre[i].running
          ensures current == Some(i)
        {
          assert ms[i] == pre[i];
        }
        ValidRunningCount(pre, current);
      }
    }
  }

  /** Managers none of which is running count zero. */
  lemma {:induction false} NoneRunning(ms: seq<CardManager>)
    requires forall i :: 0 <= i < |ms| ==> !ms[i].running
    ensures RunningCount(ms) == 0
  {
    if |ms| > 0 {
      var pre := ms[..|ms| - 1];
      forall i | 0 <= i < |pre|
        ensures !pre[i].running
      {
        assert pre[i] == ms[i];
      }
      NoneRunning(pre);
    }
  }

  /** After any run from start-up at most one card manager is marked running, and it
      is the reader manager's current one. */
  lemma AtMostOneRunning(inputs: seq<Input>, branch: ExceptBranch)
    ensures RunningCount(Run(Init, inputs, branch).state.managers) <= 1
    ensures RunningCount(Run(Init, inputs, branch).state.managers) == 1 ==>
      var s := Run(Init, inputs, branch).state;
      s.current.Some? && s.managers[s.current.value].running
  {
    var s := Run(Init, inputs, branch).state;
    ValidRunningCount(s.managers, s.current);
  }

  /** A run extended by one input is the run followed by one more step. */
  lemma {:induction false} RunSnoc(s: State, inputs: seq<Input>, last: Input, branch: ExceptBranch)
    requires Valid(s)
    ensures var before := Run(s, inputs, branch);
      var step := Step(before.state, last, branch);
      Run(s, inputs + [last], branch) == StepResult(step.state, before.events + step.events)
    decreases |inputs|
  {
    if |inputs| > 0 {
      var first := Step(s, inputs[0], branch);
      assert (inputs + [last])[0] == inputs[0];
      assert (inputs + [last])[1..] == inputs[1..] + [last];
      RunSnoc(first.state, inputs[1..], last, branch);
      var before := Run(first.state, inputs[1..], branch);
      var step := Step(before.state, last, branch);
      assert first.events + (before.events + step.events) == (first.events + before.events) + step.events;
    } else {
      assert inputs + [last] == [last];
    }
  }

  /** The `while self.running` loop itself, driven over a finite list of inputs. It
      mirrors the thread's loop statement for statement; `Run` is the same loop
      written as a fold, which is what the lemmas above are about, and the loop
      is proved to agree with it. */
  method RunLoop(inputs: seq<Input>, branch: ExceptBranch) returns (s: State, events: seq<Event>)
    ensures s == Run(Init, inputs, branch).state && events == Run(Init, inputs, branch).events
    ensures Warnings(events) <= 1
    ensures RunningCount(s.managers) <= 1
  {
    s, events := Init, [];
    var i := 0;
    while i < |inputs|
      invariant 0 <= i <= |inputs|
      invariant Valid(s)
      invariant Run(Init, inputs[..i], branch) == StepResult(s, events)
      decreases |inputs| - i
    {
      var r := Step(s, inputs[i], branch);
      RunSnoc(Init, inputs[..i], inputs[i], branch);
      assert inputs[..i] + [inputs[i]] == inputs[..i + 1];
      events := events + r.events;
      s := r.state;
      i := i + 1;
    }
    assert inputs[..i] == inputs;
    WarnsAtMostOnce(inputs, branch);
    AtMostOneRunning(inputs, branch);
  }

  // ---------------------------------------------------------------------------
  // The error report of the `except Exception` branch

  /** As written, the branch never reports: no run, from any state, contains an
      `OpenError`. */
  lemma {:induction false} NeverReportedAsWritten(s: State, inputs: seq<Input>)
    requires Valid(s)
    ensures OpenError !in Run(s, inputs, AsWritten).events
    decreases |inputs|
  {
    if |inputs| > 0 {
      var first := Step(s, inputs[0], AsWritten);
      NeverReportedAsWritten(first.state, inputs[1..]);
      assert OpenError !in first.events;
    }
  }

  /** The shortest run that shows the difference: at start-up, with no reader
      attached, `clf.open` raises. As written the thread ends silently; as intended
      it ends after reporting the error. */
  lemma SilentThreadDeath()
    ensures Run(Init, [Pass(OpenRaised)], AsWritten) == StepResult(Init.(alive := false), [])
    ensures Run(Init, [Pass(OpenRaised)], Intended) == StepResult(Init.(alive := false), [OpenError])
  {
  }

  /** As intended, the thread never ends unreported: a run that takes a live
      manager to a dead one contains an `OpenError`. */
  lemma {:induction false} ExitReported(s: State, inputs: seq<Input>)
    requires Valid(s) && s.alive
    ensures !Run(s, inputs, Intended).state.alive ==> OpenError in Run(s, inputs, Intended).events
    decreases |inputs|
  {
    if |inputs| > 0 {
      var first := Step(s, inputs[0], Intended);
      var rest := Run(first.state, inputs[1..], Intended);
      if first.state.alive {
        ExitReported(first.state, inputs[1..]);
        if !rest.state.alive {
          var j :| 0 <= j < |rest.events| && rest.events[j] == OpenError;
          assert (first.events + rest.events)[|first.events| + j] == OpenError;
        }
      } else {
        assert first.events == [OpenError];
        assert (first.events + rest.events)[0] == OpenError;
      }
    }
  }
}
