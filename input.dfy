/** The `Input` class of horizon/win32/input.cpp: a hook on the message
    procedure of the process's window, with an ordered registry of observer
    callbacks. The Win32 calls it makes are not modelled; what they return
    is passed in (the enumerated windows, the value SetWindowLongPtr returns,
    the GetLastError code), and what they are asked to do is returned
    (the observer calls, where a message is forwarded, the procedure to
    restore). */
module Win32 {
  import opened InputModel

  class Input {
    /** m_window: the hooked window, or null. */
    var window: Option<WindowId>
    /** m_procedure: the window's procedure from before the hook, or null. */
    var procedure: Option<ProcId>
    /** m_event_array: the observers, in registration order. */
    var eventArray: seq<EventId>

    function State(): HookState
      reads this
    {
      HookState(window, procedure, eventArray)
    }

    /** The registry never holds one callback twice. */
    ghost predicate Valid()
      reads this
    {
      NoDuplicates(eventArray)
    }

    constructor ()
      ensures State() == Unhooked && Valid()
    {
      window, procedure, eventArray := None, None, [];
    }

    /** GetWindow: the handle SetWindow (or the enumeration) last stored. */
    function GetWindow(): Option<WindowId>
      reads this
    {
      window
    }

    method SetWindow(handle: Option<WindowId>)
      modifies this
      ensures GetWindow() == handle
      ensures procedure == old(procedure) && eventArray == old(eventArray)
    {
      window := handle;
    }

    /** The identity scan of AddEvent: is `event` already registered? */
    method IsRegistered(event: EventId) returns (found: bool)
      ensures found <==> event in eventArray
    {
      var i := 0;
      while i < |eventArray|
        invariant 0 <= i <= |eventArray|
        invariant event !in eventArray[..i]
      {
        if eventArray[i] == event {
          return true;
        }
        i := i + 1;
      }
      assert eventArray[..i] == eventArray;
      return false;
    }

    /** AddEvent: ignore a null callback and one already registered,
        otherwise append the callback. */
    method AddEvent(callback: Option<EventId>)
      modifies this
      ensures eventArray == Register(old(eventArray), callback)
      ensures window == old(window) && procedure == old(procedure)
      ensures old(Valid()) ==> Valid()
      ensures old(Valid()) && callback.Some? ==> multiset(eventArray)[callback.value] == 1
    {
      if callback.Some? {
        var found := IsRegistered(callback.value);
        if !found {
          eventArray := eventArray + [callback.value];
        }
      }
      if old(Valid()) && callback.Some? {
        RegisterPreservesNoDuplicates(old(eventArray), callback);
        OccursOnce(eventArray, callback.value);
      }
    }

    /** ExecuteEventArray: call every observer in order with the same
        message, keep only the last verdict, and either suppress the message
        (the procedure returns FALSE) or forward it to the original procedure
        if one is held, else to the default handler. `calls` is the sequence
        of observer calls made. */
    method ExecuteEventArray(hwnd: WindowId, message: Message, observe: Observer)
      returns (calls: seq<Invocation>, verdict: bool, outcome: Forward)
      ensures |calls| == |eventArray|
      ensures forall i :: 0 <= i < |calls| ==> calls[i] == Invocation(eventArray[i], message)
      ensures verdict == (|eventArray| > 0 && observe(eventArray[|eventArray| - 1], message))
      ensures verdict ==> outcome == Suppressed
      ensures !verdict && procedure.Some? ==> outcome == ForwardOriginal(procedure.value, hwnd, message)
      ensures !verdict && procedure.None? ==> outcome == ForwardDefault(hwnd, message)
      ensures outcome == Dispatch(State(), observe, hwnd, message)
    {
      var code := false;
      calls := [];
      var i := 0;
      while i < |eventArray|
        invariant 0 <= i <= |eventArray|
        invariant |calls| == i
        invariant forall j :: 0 <= j < i ==> calls[j] == Invocation(eventArray[j], message)
        invariant code == (i > 0 && observe(eventArray[i - 1], message))
      {
        code := observe(eventArray[i], message);
        calls := calls + [Invocation(eventArray[i], message)];
        i := i + 1;
      }
      verdict := code;
      if code {
        return calls, verdict, Suppressed;
      }
      outcome := ExecuteProcedure(procedure, hwnd, message);
    }

    /** Procedure: the hook installed into the window; it delegates to
        ExecuteEventArray. */
    method Procedure(hwnd: WindowId, message: Message, observe: Observer)
      returns (calls: seq<Invocation>, outcome: Forward)
      ensures |calls| == |eventArray|
      ensures forall i :: 0 <= i < |calls| ==> calls[i] == Invocation(eventArray[i], message)
      ensures outcome == Dispatch(State(), observe, hwnd, message)
    {
      var verdict;
      calls, verdict, outcome := ExecuteEventArray(hwnd, message, observe);
    }

    /** ProcedureEnum: the enumeration callback. `owner` is the process
        identifier GetWindowThreadProcessId reports for `handle`, and
        `lparam` carries the current process identifier. On a match the
        window is stored and the enumeration is stopped (FALSE). */
    method ProcedureEnum(handle: WindowId, owner: Dword, lparam: Dword) returns (proceed: bool)
      modifies this
      ensures proceed <==> owner != lparam
      ensures window == if owner == lparam then Some(handle) else old(window)
      ensures procedure == old(procedure) && eventArray == old(eventArray)
    {
      if owner == lparam {
        SetWindow(Some(handle));
        return false;
      }
      return true;
    }

    /** EnumWindows(&ProcedureEnum, pid): the platform calls ProcedureEnum
        on each top-level window in turn until it returns FALSE. `visited`
        is the number of callback calls made. */
    method EnumWindows(windows: seq<WindowEntry>, pid: Dword) returns (visited: nat)
      modifies this
      ensures window == Located(old(window), windows, pid)
      ensures procedure == old(procedure) && eventArray == old(eventArray)
      ensures visited == if FirstMatchIndex(windows, pid) < |windows| then FirstMatchIndex(windows, pid) + 1 else |windows|
    {
      var i := 0;
      while i < |windows|
        invariant 0 <= i <= |windows|
        invariant forall j :: 0 <= j < i ==> windows[j].owner != pid
        invariant window == old(window) && procedure == old(procedure) && eventArray == old(eventArray)
      {
        var proceed := ProcedureEnum(windows[i].handle, windows[i].owner, pid);
        if !proceed {
          LocatedIsFirstMatch(old(window), windows, pid, i);
          return i + 1;
        }
        i := i + 1;
      }
      LocatedKeepsCurrentWithoutMatch(old(window), windows, pid);
      return i;
    }

    /** Create: find the process's window, swap its procedure for the hook
        and keep the previous one. `previous` is what SetWindowLongPtr
        returns and `lastError` what GetLastError reports after the error
        code was cleared; `hooked` is the window the swap was made on. */
    method Create(windows: seq<WindowEntry>, pid: Dword, previous: Option<ProcId>, lastError: Dword)
      returns (ok: bool, hooked: Option<WindowId>)
      modifies this
      ensures State() == CreateStep(old(State()), windows, pid, previous, lastError).state
      ensures ok == CreateStep(old(State()), windows, pid, previous, lastError).ok
      ensures hooked == CreateStep(old(State()), windows, pid, previous, lastError).hooked
      ensures old(Valid()) ==> Valid()
    {
      var visited := EnumWindows(windows, pid);
      if window.None? {
        return false, None;
      }
      // SetLastError(0), then the swap returns the previous procedure.
      procedure := previous;
      hooked := window;
      var errorCode := lastError;
      if procedure.None? && errorCode != 0 {
        return false, hooked;
      }
      return true, hooked;
    }

    /** Destroy: write the held procedure back if there is one, then reset
        the window, the procedure and the observer registry. */
    method Destroy() returns (restore: Option<Restore>)
      modifies this
      ensures State() == Unhooked && Valid()
      ensures restore == DestroyStep(old(State())).restore
      ensures restore.Some? <==> old(procedure).Some?
    {
      restore := None;
      if procedure.Some? {
        restore := Some(Restore(window, procedure.value));
      }
      window := None;
      procedure := None;
      eventArray := [];
    }
  }

  /** A client registering `a` twice, a null callback and then `b`. */
  method RegisterObservers(input: Input, a: EventId, b: EventId)
    requires a != b && input.eventArray == []
    modifies input
    ensures input.eventArray == [a, b]
    ensures input.window == old(input.window) && input.procedure == old(input.procedure)
  {
    input.AddEvent(Some(a));
    assert input.eventArray == [a];
    assert input.eventArray == [a];
    input.AddEvent(None);
    assert input.eventArray == [a];
    input.AddEvent(Some(b));
    assert input.eventArray == [a] + [b];
  }

  /** A client of the hook: the lifecycle the component is built for, with
      what the contracts above let a caller conclude at each step. */
  method HookLifecycle(a: EventId, b: EventId, observe: Observer, message: Message,
                       hwnd: WindowId, pid: Dword, original: ProcId)
    requires a != b && !observe(a, message) && observe(b, message)
  {
    var input := new Input();
    var ok, hooked := input.Create([WindowEntry(hwnd, pid)], pid, Some(original), 0);
    assert FirstMatchIndex([WindowEntry(hwnd, pid)], pid) == 0;
    assert ok && hooked == Some(hwnd) && input.GetWindow() == Some(hwnd);

    RegisterObservers(input, a, b);

    var calls, verdict, outcome := input.ExecuteEventArray(hwnd, message, observe);
    assert calls == [Invocation(a, message), Invocation(b, message)];
    assert outcome == Suppressed;

    var restore := input.Destroy();
    assert restore == Some(Restore(Some(hwnd), original));
    assert input.GetWindow() == None && input.eventArray == [];

    var after;
    calls, verdict, after := input.ExecuteEventArray(hwnd, message, observe);
    assert calls == [] && after == ForwardDefault(hwnd, message);
  }
}
