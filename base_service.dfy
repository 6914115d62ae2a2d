/** `BaseService`: the lifecycle of a service. `start` and `stop` move the
    status between the two stable states Stopped and Running, passing
    through a transient state while the subclass hook runs; the dependency
    and provided-interface lists may change only while Stopped. The hooks
    `onStart`/`onStop` belong to subclasses, so what they report is an
    input here; the mutex that serialises the calls is not modelled. */
module Service {
  datatype ServiceStatus = Stopped | StartingUp | Running | Stopping

  /** What a subclass hook did: reported success, reported failure, or
      threw. */
  datatype Hook = Succeeded | Failed | Raised

  /** What `start`/`stop` did: returned a boolean, or threw. */
  datatype Outcome = Returned(ok: bool) | Threw

  /** The states a service rests in between calls. */
  predicate Stable(s: ServiceStatus)
  {
    s == Stopped || s == Running
  }

  /** `start` from status `s`: the new status and the outcome. */
  function StartStep(s: ServiceStatus, hook: Hook): (ServiceStatus, Outcome)
  {
    match s
    case Running => (Running, Returned(true))
    case StartingUp => (StartingUp, Threw)
    case Stopping => (Stopping, Threw)
    case Stopped =>
      match hook
      case Succeeded => (Running, Returned(true))
      case Failed => (Stopped, Returned(false))
      case Raised => (StartingUp, Threw)
  }

  /** `stop` from status `s`: the new status and the outcome. */
  function StopStep(s: ServiceStatus, hook: Hook): (ServiceStatus, Outcome)
  {
    match s
    case Stopped => (Stopped, Returned(true))
    case StartingUp => (StartingUp, Threw)
    case Stopping => (Stopping, Threw)
    case Running =>
      match hook
      case Succeeded => (Stopped, Returned(true))
      case Failed => (Running, Returned(false))
      case Raised => (Stopping, Threw)
  }

  /** `start` reports true exactly when the service ends Running, and it
      throws exactly when it was found in a transient state or its hook
      threw. */
  lemma StartReportsRunning(s: ServiceStatus, hook: Hook)
    ensures StartStep(s, hook).1 == Returned(true) <==> StartStep(s, hook).0 == Running
    ensures StartStep(s, hook).1 == Threw <==> !Stable(s) || (s == Stopped && hook == Raised)
  {
  }

  /** `stop` reports true exactly when the service ends Stopped, and it
      throws exactly when it was found in a transient state or its hook
      threw. */
  lemma StopReportsStopped(s: ServiceStatus, hook: Hook)
    ensures StopStep(s, hook).1 == Returned(true) <==> StopStep(s, hook).0 == Stopped
    ensures StopStep(s, hook).1 == Threw <==> !Stable(s) || (s == Running && hook == Raised)
  {
  }

  /** A second `start` after one that reported true changes nothing and
      reports true again, whatever its hook would do; likewise `stop`. */
  lemma StartStopIdempotent(s: ServiceStatus, h1: Hook, h2: Hook)
    ensures StartStep(s, h1).1 == Returned(true) ==>
              StartStep(StartStep(s, h1).0, h2) == (StartStep(s, h1).0, Returned(true))
    ensures StopStep(s, h1).1 == Returned(true) ==>
              StopStep(StopStep(s, h1).0, h2) == (StopStep(s, h1).0, Returned(true))
  {
  }

  /** A hook that reports failure rolls the status back to where it was. */
  lemma FailedHookRollsBack(s: ServiceStatus, hook: Hook)
    ensures StartStep(s, hook).1 == Returned(false) ==> StartStep(s, hook).0 == s && s == Stopped
    ensures StopStep(s, hook).1 == Returned(false) ==> StopStep(s, hook).0 == s && s == Running
  {
  }

  /** Unless a hook throws, the transient states are never left behind: from
      a stable state every `start` and `stop` ends in a stable state. */
  lemma StableStaysStable(s: ServiceStatus, hook: Hook)
    requires Stable(s) && hook != Raised
    ensures Stable(StartStep(s, hook).0) && Stable(StopStep(s, hook).0)
  {
  }

  /** A hook that throws leaves the service in its transient state, after
      which every `start` and `stop` throws and changes nothing: a throwing
      `onStart` wedges it in StartingUp, a throwing `onStop` in Stopping. */
  lemma RaisingHookWedges(s: ServiceStatus, h1: Hook, h2: Hook)
    requires Stable(s)
    ensures var t := StartStep(s, h1).0;
            t != s ==> t == Running || (StartStep(t, h2) == (t, Threw) && StopStep(t, h2) == (t, Threw))
    ensures var u := StopStep(s, h1).0;
            u != s ==> u == Stopped || (StartStep(u, h2) == (u, Threw) && StopStep(u, h2) == (u, Threw))
  {
  }

  /** Starting and then stopping a resting service with hooks that do not
      throw: both calls report, the service rests again, the stop reports
      true exactly when it ends Stopped, and it ends Running only when it was
      running after the start and `onStop` reported failure; with a
      succeeding `onStop` it always ends Stopped. The same holds the other
      way round for stopping and then starting. */
  lemma StartStopRoundTrip(s: ServiceStatus, hStart: Hook, hStop: Hook)
    requires Stable(s) && hStart != Raised && hStop != Raised
    ensures var (t, o1) := StartStep(s, hStart);
            var (u, o2) := StopStep(t, hStop);
            && o1 != Threw && o2 != Threw && Stable(u)
            && (o2 == Returned(true) <==> u == Stopped)
            && (u == Running <==> t == Running && hStop == Failed)
            && (hStop == Succeeded ==> u == Stopped && o2 == Returned(true))
            && (hStart == Succeeded && hStop == Succeeded ==> o1 == Returned(true))
    ensures var (t, o1) := StopStep(s, hStop);
            var (u, o2) := StartStep(t, hStart);
            && o1 != Threw && o2 != Threw && Stable(u)
            && (o2 == Returned(true) <==> u == Running)
            && (u == Stopped <==> t == Stopped && hStart == Failed)
            && (hStart == Succeeded ==> u == Running && o2 == Returned(true))
            && (hStart == Succeeded && hStop == Succeeded ==> o1 == Returned(true))
  {
  }

  /** `starts_with(id, type)`. */
  predicate StartsWith(s: string, prefix: string)
  {
    |prefix| <= |s| && s[..|prefix|] == prefix
  }

  /** The logger source `setId` chooses: the id itself when it already
      starts with the type name, otherwise the type name, `#`, and the id. */
  function LoggerSource(typeName: string, id: string): (r: string)
    ensures StartsWith(r, typeName)
    ensures |r| >= |id| && r[|r| - |id|..] == id
    ensures r == id <==> StartsWith(id, typeName)
  {
    if StartsWith(id, typeName) then id else typeName + "#" + id
  }

  /** Using a logger source as the id again yields the same source. */
  lemma LoggerSourceIdempotent(typeName: string, id: string)
    ensures LoggerSource(typeName, LoggerSource(typeName, id)) == LoggerSource(typeName, id)
  {
  }

  /** A service of the type named `typeName`, with dependencies of type `D`
      and provided interfaces of type `I`. */
  class BaseService<D, I> {
    const typeName: string
    var status: ServiceStatus
    var id: string
    var loggerSource: string
    var provided: seq<I>
    var dependencies: seq<D>

    /** A new service is Stopped, logging under its type name. */
    constructor (typeName: string)
      ensures this.typeName == typeName && status == Stopped && loggerSource == typeName
      ensures id == [] && provided == [] && dependencies == []
    {
      this.typeName := typeName;
      status := Stopped;
      loggerSource := typeName;
      id := [];
      provided := [];
      dependencies := [];
    }

    /** `setId`: stores the id and picks the logger source for it. */
    method SetId(newId: string)
      modifies this`id, this`loggerSource
      ensures id == newId && loggerSource == LoggerSource(typeName, newId)
      ensures StartsWith(loggerSource, typeName)
    {
      id := newId;
      if StartsWith(newId, typeName) {
        loggerSource := newId;
      } else {
        loggerSource := typeName + "#" + newId;
      }
    }

    /** `start`, its hook reporting `hook`. */
    method Start(hook: Hook) returns (outcome: Outcome)
      modifies this`status
      ensures (status, outcome) == StartStep(old(status), hook)
    {
      if status == Running {
        return Returned(true);
      } else if status == StartingUp || status == Stopping {
        return Threw;
      }
      status := StartingUp;
      match hook
      case Raised =>
        outcome := Threw;
      case Failed =>
        status := Stopped;
        outcome := Returned(false);
      case Succeeded =>
        status := Running;
        outcome := Returned(true);
    }

    /** `stop`, its hook reporting `hook`. */
    method Stop(hook: Hook) returns (outcome: Outcome)
      modifies this`status
      ensures (status, outcome) == StopStep(old(status), hook)
    {
      if status == Stopped {
        return Returned(true);
      } else if status == StartingUp || status == Stopping {
        return Threw;
      }
      status := Stopping;
      match hook
      case Raised =>
        outcome := Threw;
      case Failed =>
        status := Running;
        outcome := Returned(false);
      case Succeeded =>
        status := Stopped;
        outcome := Returned(true);
    }

    /** `depends`: appends one dependency while Stopped; throws (`ok` false)
        and changes nothing otherwise. */
    method Depends(d: D) returns (ok: bool)
      modifies this`dependencies
      ensures ok <==> status == Stopped
      ensures dependencies == if ok then old(dependencies) + [d] else old(dependencies)
    {
      if status != Stopped {
        return false;
      }
      dependencies := dependencies + [d];
      ok := true;
    }

    /** `provides`: appends one interface while Stopped; throws (`ok`
        false) and changes nothing otherwise. */
    method Provides(i: I) returns (ok: bool)
      modifies this`provided
      ensures ok <==> status == Stopped
      ensures provided == if ok then old(provided) + [i] else old(provided)
    {
      if status != Stopped {
        return false;
      }
      provided := provided + [i];
      ok := true;
    }

    /** `clearDepends`, allowed in any status. */
    method ClearDepends()
      modifies this`dependencies
      ensures dependencies == []
    {
      dependencies := [];
    }

    /** `clearProvides`, allowed in any status. */
    method ClearProvides()
      modifies this`provided
      ensures provided == []
    {
      provided := [];
    }
  }
}
