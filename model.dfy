/** Value-level model of the window-procedure hook in horizon/win32/input.cpp:
    the handles and callbacks it holds, the state it keeps, and the pure
    specification of each operation, with the lemmas that state what the
    source promises about them. The class in input.dfy is proved against
    these functions. */
module InputModel {

  datatype Option<T> = None | Some(value: T)

  /** A non-null HWND. A null window handle is `None` of `Option<WindowId>`. */
  type WindowId = nat
  /** A non-null WNDPROC. A null procedure is `None` of `Option<ProcId>`. */
  type ProcId = nat
  /** The identity of a non-null observer callback (`EventFn`). */
  type EventId = nat
  /** A 32-bit unsigned Win32 DWORD (process identifiers, error codes). */
  type Dword = x: int | 0 <= x < 0x1_0000_0000

  /** One top-level window as the enumeration reports it: its handle and the
      process identifier GetWindowThreadProcessId writes for it (0 when that
      call fails, since the out-variable starts at 0). */
  datatype WindowEntry = WindowEntry(handle: WindowId, owner: Dword)

  /** The (message, wparam, lparam) triple a window message carries. */
  datatype Message = Message(id: Dword, wparam: nat, lparam: int)

  /** An observer is external logic; the model sees only its verdict. */
  type Observer = (EventId, Message) -> bool

  /** One call of an observer during dispatch, with the arguments it received. */
  datatype Invocation = Invocation(event: EventId, message: Message)

  /** Where a dispatched message goes: nowhere (the procedure returns FALSE),
      to the original procedure through CallWindowProc, or to DefWindowProc. */
  datatype Forward =
    | Suppressed
    | ForwardOriginal(proc: ProcId, window: WindowId, message: Message)
    | ForwardDefault(window: WindowId, message: Message)

  /** The SetWindowLongPtr(window, GWLP_WNDPROC, proc) call Destroy issues. */
  datatype Restore = Restore(window: Option<WindowId>, proc: ProcId)

  /** The three fields of `Input`: m_window, m_procedure, m_event_array. */
  datatype HookState = HookState(window: Option<WindowId>, procedure: Option<ProcId>, events: seq<EventId>)

  /** What Create reports and leaves behind; `hooked` is the window whose
      procedure was swapped, `None` when no swap was attempted. */
  datatype CreateOutcome = CreateOutcome(state: HookState, ok: bool, hooked: Option<WindowId>)

  datatype DestroyOutcome = DestroyOutcome(state: HookState, restore: Option<Restore>)

  /** The state of a fresh or torn-down hook: no window, no procedure, no observers. */
  const Unhooked: HookState := HookState(None, None, [])

  // ---------------------------------------------------------------------
  // Observer registry (AddEvent)

  predicate NoDuplicates(s: seq<EventId>)
  {
    forall i, j :: 0 <= i < j < |s| ==> s[i] != s[j]
  }

  /** The observer sequence after AddEvent(callback): a null callback and one
      already present are ignored, any other is appended. */
  function Register(events: seq<EventId>, callback: Option<EventId>): seq<EventId>
  {
    if callback.None? || callback.value in events then events else events + [callback.value]
  }

  /** Registration keeps the earlier observers, in their order, at the front,
      adds at most the given callback, and after it that callback is present. */
  lemma RegisterKeepsOrder(events: seq<EventId>, callback: Option<EventId>)
    ensures |events| <= |Register(events, callback)| <= |events| + 1
    ensures Register(events, callback)[..|events|] == events
    ensures forall e :: e in Register(events, callback) <==> e in events || callback == Some(e)
  {
  }

  /** Registration never introduces a duplicate. */
  lemma RegisterPreservesNoDuplicates(events: seq<EventId>, callback: Option<EventId>)
    requires NoDuplicates(events)
    ensures NoDuplicates(Register(events, callback))
  {
  }

  /** Registering the same callback again changes nothing. */
  lemma RegisterIdempotent(events: seq<EventId>, callback: Option<EventId>)
    ensures Register(Register(events, callback), callback) == Register(events, callback)
  {
  }

  /** In a sequence without duplicates an element occurs exactly once. */
  lemma {:induction false} OccursOnce(s: seq<EventId>, x: EventId)
    requires NoDuplicates(s) && x in s
    ensures multiset(s)[x] == 1
  {
    assert s == [s[0]] + s[1..];
    var tail := s[1..];
    assert NoDuplicates(tail) by {
      forall i, j | 0 <= i < j < |tail| ensures tail[i] != tail[j] {
        assert tail[i] == s[i + 1] && tail[j] == s[j + 1];
      }
    }
    if s[0] == x {
      assert x !in tail by {
        forall k | 0 <= k < |tail| ensures tail[k] != x {
          assert tail[k] == s[k + 1];
        }
      }
      assert multiset(tail)[x] == 0;
    } else {
      OccursOnce(tail, x);
    }
  }

  /** Adding one callback twice leaves exactly one registration of it. */
  lemma RegisterTwiceRegistersOnce(events: seq<EventId>, e: EventId)
    requires NoDuplicates(events)
    ensures multiset(Register(Register(events, Some(e)), Some(e)))[e] == 1
  {
    RegisterIdempotent(events, Some(e));
    RegisterPreservesNoDuplicates(events, Some(e));
    OccursOnce(Register(events, Some(e)), e);
  }

  // ---------------------------------------------------------------------
  // Dispatcher (ExecuteEventArray)

  /** The verdict ExecuteEventArray retains: every observer overwrites it, so
      only the last one's counts; with no observers it stays false. */
  function LastVerdict(events: seq<EventId>, observe: Observer, message: Message): bool
  {
    |events| > 0 && observe(events[|events| - 1], message)
  }

  /** The execute_procedure lambda: forward to the original procedure when one
      is held, otherwise to the default handler, with the arguments unchanged. */
  function ExecuteProcedure(procedure: Option<ProcId>, window: WindowId, message: Message): Forward
  {
    match procedure
    case Some(p) => ForwardOriginal(p, window, message)
    case None => ForwardDefault(window, message)
  }

  /** Where the hooked procedure sends a message in state `s`. */
  function Dispatch(s: HookState, observe: Observer, window: WindowId, message: Message): Forward
  {
    if LastVerdict(s.events, observe, message) then Suppressed
    else ExecuteProcedure(s.procedure, window, message)
  }

  /** Last verdict wins: whatever the earlier observers say, the observer
      registered last alone decides whether the message is suppressed. */
  lemma LastObserverDecides(s: HookState, e: EventId, observe: Observer, window: WindowId, message: Message)
    ensures Dispatch(s.(events := s.events + [e]), observe, window, message)
         == if observe(e, message) then Suppressed else ExecuteProcedure(s.procedure, window, message)
  {
  }

  /** With observers [a -> false, b -> true] the message is suppressed, and
      with [a -> true, b -> false] it is forwarded: an earlier true verdict is
      overridden, so the policy is not a disjunction of the verdicts. */
  lemma LastVerdictIsNotDisjunction(s: HookState, a: EventId, b: EventId, observe: Observer, window: WindowId, message: Message)
    requires s.events == [a, b]
    ensures !observe(a, message) && observe(b, message) ==> Dispatch(s, observe, window, message) == Suppressed
    ensures observe(a, message) && !observe(b, message) ==> Dispatch(s, observe, window, message) != Suppressed
  {
  }

  /** With no observers every message is forwarded: to the original procedure
      when one is held, otherwise to the default handler. */
  lemma EmptyRegistryForwards(s: HookState, observe: Observer, window: WindowId, message: Message)
    requires s.events == []
    ensures s.procedure.Some? ==> Dispatch(s, observe, window, message) == ForwardOriginal(s.procedure.value, window, message)
    ensures s.procedure.None? ==> Dispatch(s, observe, window, message) == ForwardDefault(window, message)
  {
  }

  /** A suppressed message reaches neither the original nor the default
      procedure; a forwarded one reaches exactly one of them, unchanged. */
  lemma DispatchForwardsUnchanged(s: HookState, observe: Observer, window: WindowId, message: Message)
    ensures Dispatch(s, observe, window, message) == Suppressed <==> LastVerdict(s.events, observe, message)
    ensures Dispatch(s, observe, window, message) != Suppressed ==>
              Dispatch(s, observe, window, message).window == window
              && Dispatch(s, observe, window, message).message == message
              && (Dispatch(s, observe, window, message).ForwardOriginal? <==> s.procedure.Some?)
  {
  }

  // ---------------------------------------------------------------------
  // Window discovery (ProcedureEnum driven by EnumWindows)

  /** Index of the first enumerated window owned by `pid`, or |windows| if none is. */
  function FirstMatchIndex(windows: seq<WindowEntry>, pid: Dword): (k: nat)
    ensures k <= |windows|
    ensures forall j :: 0 <= j < k ==> windows[j].owner != pid
    ensures k < |windows| ==> windows[k].owner == pid
  {
    if windows == [] then 0
    else if windows[0].owner == pid then 0
    else 1 + FirstMatchIndex(windows[1..], pid)
  }

  /** m_window after the enumeration: the first window of the process if there
      is one, otherwise whatever was held before (the field is not reset). */
  function Located(current: Option<WindowId>, windows: seq<WindowEntry>, pid: Dword): Option<WindowId>
  {
    var k := FirstMatchIndex(windows, pid);
    if k < |windows| then Some(windows[k].handle) else current
  }

  /** The located window is the first of the process: owned by `pid`, and
      every window enumerated before it belongs to another process. */
  lemma LocatedIsFirstMatch(current: Option<WindowId>, windows: seq<WindowEntry>, pid: Dword, i: nat)
    requires i < |windows| && windows[i].owner == pid
    requires forall j :: 0 <= j < i ==> windows[j].owner != pid
    ensures Located(current, windows, pid) == Some(windows[i].handle)
  {
  }

  /** When no window belongs to the process the held handle is kept. */
  lemma LocatedKeepsCurrentWithoutMatch(current: Option<WindowId>, windows: seq<WindowEntry>, pid: Dword)
    requires forall j :: 0 <= j < |windows| ==> windows[j].owner != pid
    ensures Located(current, windows, pid) == current
  {
  }

  // ---------------------------------------------------------------------
  // Lifecycle (Create, Destroy)

  /** Create: enumerate; fail without a swap if no window is held; otherwise
      store the value the swap returned and fail only when that value is null
      and the error code read after the swap is non-zero. */
  function CreateStep(s: HookState, windows: seq<WindowEntry>, pid: Dword, previous: Option<ProcId>, lastError: Dword): CreateOutcome
  {
    var located := Located(s.window, windows, pid);
    if located.None? then CreateOutcome(s, false, None)
    else CreateOutcome(HookState(located, previous, s.events), previous.Some? || lastError == 0, located)
  }

  /** Destroy: restore the held procedure if there is one, then reset everything. */
  function DestroyStep(s: HookState): DestroyOutcome
  {
    var restore := if s.procedure.Some? then Some(Restore(s.window, s.procedure.value)) else None;
    DestroyOutcome(Unhooked, restore)
  }

  /** Create reports success exactly when a window is held after the
      enumeration and the swap did not report an error; a null previous
      procedure with a zero error code counts as success. */
  lemma CreateSucceedsUnlessSwapRejected(s: HookState, windows: seq<WindowEntry>, pid: Dword, previous: Option<ProcId>, lastError: Dword)
    ensures CreateStep(s, windows, pid, previous, lastError).ok
        <==> Located(s.window, windows, pid).Some? && !(previous.None? && lastError != 0)
    ensures CreateStep(s, windows, pid, previous, lastError).hooked == Located(s.window, windows, pid)
    ensures CreateStep(s, windows, pid, previous, lastError).state.events == s.events
  {
  }

  /** With no window of the process and none held, Create fails, attempts no
      swap and changes nothing. */
  lemma CreateWithoutWindowFails(s: HookState, windows: seq<WindowEntry>, pid: Dword, previous: Option<ProcId>, lastError: Dword)
    requires s.window.None?
    requires forall j :: 0 <= j < |windows| ==> windows[j].owner != pid
    ensures CreateStep(s, windows, pid, previous, lastError) == CreateOutcome(s, false, None)
  {
  }

  /** m_window is not reset before the enumeration: when no window of the
      process is found, a handle held from before still passes the check and
      the swap is attempted on it. */
  lemma CreateReusesHeldWindow(s: HookState, windows: seq<WindowEntry>, pid: Dword, previous: Option<ProcId>, lastError: Dword)
    requires s.window.Some?
    requires forall j :: 0 <= j < |windows| ==> windows[j].owner != pid
    ensures CreateStep(s, windows, pid, previous, lastError).hooked == s.window
    ensures CreateStep(s, windows, pid, previous, lastError).state.procedure == previous
  {
  }

  /** A second Create neither unhooks nor restores: the procedure held from
      the first one is overwritten by what the new swap returned. */
  lemma RecreateOverwritesHeldProcedure(s: HookState, windows: seq<WindowEntry>, pid: Dword, previous: Option<ProcId>, lastError: Dword)
    requires s.procedure.Some? && Located(s.window, windows, pid).Some?
    ensures CreateStep(s, windows, pid, previous, lastError).state.procedure == previous
  {
  }

  /** Create followed by Destroy puts back exactly the procedure the swap
      replaced, on the window it was swapped on, and returns to Unhooked. */
  lemma CreateThenDestroyRestores(s: HookState, windows: seq<WindowEntry>, pid: Dword, original: ProcId, lastError: Dword)
    requires Located(s.window, windows, pid).Some?
    ensures var c := CreateStep(s, windows, pid, Some(original), lastError);
            c.ok && DestroyStep(c.state) == DestroyOutcome(Unhooked, Some(Restore(c.hooked, original)))
  {
  }

  /** Destroy always returns to Unhooked, and restores only when a procedure
      is held; a second Destroy therefore restores nothing. */
  lemma DestroyResets(s: HookState)
    ensures DestroyStep(s).state == Unhooked
    ensures DestroyStep(s).restore.Some? <==> s.procedure.Some?
    ensures DestroyStep(s).restore.Some? ==> DestroyStep(s).restore.value == Restore(s.window, s.procedure.value)
    ensures DestroyStep(DestroyStep(s).state).restore == None
  {
  }

  /** After Destroy no observer runs and messages go to the default handler. */
  lemma DispatchAfterDestroy(s: HookState, observe: Observer, window: WindowId, message: Message)
    ensures Dispatch(DestroyStep(s).state, observe, window, message) == ForwardDefault(window, message)
  {
  }

  /** Adding an observer that is already registered does not change dispatch. */
  lemma DuplicateRegistrationKeepsDispatch(s: HookState, e: EventId, observe: Observer, window: WindowId, message: Message)
    requires e in s.events
    ensures Dispatch(s.(events := Register(s.events, Some(e))), observe, window, message) == Dispatch(s, observe, window, message)
  {
  }
}
