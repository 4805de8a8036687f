# Win32 input hook — a verified model

This project models `horizon::win32::Input`, the window-procedure hook of
`performa_csgo/horizon/win32/input.cpp`. The component finds the top-level
window of the current process, replaces that window's message procedure
with its own, and keeps the procedure it replaced. Every message that
arrives goes to a registered, ordered and duplicate-free list of observer
callbacks. Then the message is either suppressed or forwarded, to the
original procedure when one is held and otherwise to the default handler.
`Destroy` writes the original procedure back and clears everything.

Layout:

- `model.dfy`, module `InputModel`: the value types and `HookState`, the
  record of the three fields. It also holds the functions that specify each
  operation (`Register`, `LastVerdict`, `ExecuteProcedure`, `Dispatch`,
  `FirstMatchIndex`, `Located`, `CreateStep`, `DestroyStep`) and the lemmas
  about them.
- `input.dfy`, module `Win32`: the class `Input`. Its fields are `window`
  (`m_window`), `procedure` (`m_procedure`) and `eventArray`
  (`m_event_array`). Each method updates them in place and is proved
  against the functions above. Also included is a client method,
  `HookLifecycle` (with its helper `RegisterObservers`), that runs create,
  register, dispatch and destroy, and asserts at each step what the
  contracts guarantee.

How the platform is represented:

- A null `HWND`, `WNDPROC` or callback is `None`. A non-null value is an
  opaque number (`WindowId`, `ProcId`, `EventId`).
- The Win32 calls are not modelled. Their results are parameters:
  - the enumerated windows, each with the process id that
    `GetWindowThreadProcessId` reports for it;
  - the value `SetWindowLongPtr` returns;
  - the code `GetLastError` returns after `SetLastError(0)`.
- What the component asks of the platform is returned instead:
  - the sequence of observer calls, as `Invocation`s;
  - where a message goes: `Suppressed` (the procedure returns `FALSE`),
    `ForwardOriginal` (`CallWindowProc`) or `ForwardDefault`
    (`DefWindowProc`);
  - the `Restore` call `Destroy` issues.
- `EnumWindows` is modelled by its documented behaviour: it calls
  `ProcedureEnum` on each window in turn and stops at the first `FALSE`.
- An observer is an oracle `(EventId, Message) -> bool`.

Behaviour the model pins down as written:

- Last verdict wins. Only the last observer's boolean decides suppression.
- `Create` does not reset `m_window` before enumerating. When no window of
  the process is enumerated, a previously held window therefore passes the
  null check, and the swap is attempted on it.
- `Create` neither unhooks nor restores a procedure it already holds. The
  procedure is overwritten by what the new swap returns.
- `Create` stores the swap's result even when it then reports failure, and
  it keeps the window in that case.
- A null previous procedure with a zero error code counts as success.

## Model

| member | source | states |
|---|---|---|
| `Win32.Input.SetWindow` | performa_csgo/horizon/win32/input.cpp:41-49 | afterwards `GetWindow` returns exactly the stored handle; the procedure and the observers are untouched |
| `Win32.Input.IsRegistered` | performa_csgo/horizon/win32/input.cpp:58-65 | the identity scan answers true exactly when the callback is already in the registry |
| `Win32.Input.AddEvent` | performa_csgo/horizon/win32/input.cpp:51-68 | the registry becomes `Register(old, callback)`: a null or already-present callback leaves it unchanged, any other is appended; the window and procedure are untouched, the no-duplicates invariant is kept, and a non-null callback then occurs exactly once |
| `InputModel.RegisterKeepsOrder` | performa_csgo/horizon/win32/input.cpp:58-67 | registration keeps the earlier observers in order at the front, adds at most one element, and the members afterwards are the old ones plus the callback |
| `InputModel.RegisterPreservesNoDuplicates` | performa_csgo/horizon/win32/input.cpp:58-67 | a duplicate-free registry stays duplicate-free after any registration |
| `InputModel.RegisterIdempotent` | performa_csgo/horizon/win32/input.cpp:58-67 | registering the same callback a second time changes nothing |
| `InputModel.RegisterTwiceRegistersOnce` | performa_csgo/horizon/win32/input.cpp:51-67 | adding one callback twice leaves exactly one occurrence of it (multiset count 1) |
| `Win32.Input.ExecuteEventArray` | performa_csgo/horizon/win32/input.cpp:70-91 | every observer is called once, in registration order, with the same message; the verdict is the last observer's, or false if there are none; a true verdict suppresses; otherwise the message goes unchanged to the original procedure if one is held, else to the default handler |
| `Win32.Input.Procedure` | performa_csgo/horizon/win32/input.cpp:109-113 | the installed hook makes the same observer calls and sends the message where `ExecuteEventArray` does |
| `InputModel.LastObserverDecides` | performa_csgo/horizon/win32/input.cpp:72-81 | whatever the earlier observers answer, appending an observer makes its answer alone decide between suppression and forwarding |
| `InputModel.LastVerdictIsNotDisjunction` | performa_csgo/horizon/win32/input.cpp:72-81 | with observers [a -> false, b -> true] the message is suppressed; with [a -> true, b -> false] it is forwarded |
| `InputModel.EmptyRegistryForwards` | performa_csgo/horizon/win32/input.cpp:72-90 | with no observers every message is forwarded: to the original procedure if held, else to the default handler |
| `InputModel.DispatchForwardsUnchanged` | performa_csgo/horizon/win32/input.cpp:80-90 | a message is suppressed exactly when the retained verdict is true; a forwarded message keeps its window and arguments and goes to the original procedure exactly when one is held |
| `InputModel.DuplicateRegistrationKeepsDispatch` | performa_csgo/horizon/win32/input.cpp:58-78 | re-adding a registered observer does not change where any message goes |
| `InputModel.FirstMatchIndex` | performa_csgo/horizon/win32/input.cpp:93-107 | the index found is that of the first window whose owner equals the process id, and every window before it has another owner; it is the length when none matches |
| `InputModel.LocatedIsFirstMatch` | performa_csgo/horizon/win32/input.cpp:93-107 | if window i is owned by the process and no earlier one is, the enumeration leaves window i in `m_window` |
| `InputModel.LocatedKeepsCurrentWithoutMatch` | performa_csgo/horizon/win32/input.cpp:93-107 | if no window is owned by the process, the handle held before is kept |
| `Win32.Input.ProcedureEnum` | performa_csgo/horizon/win32/input.cpp:93-107 | on an owner match it stores the window and stops the enumeration; otherwise it continues and changes nothing |
| `Win32.Input.EnumWindows` | performa_csgo/horizon/win32/input.cpp:11-11 | after enumeration `m_window` is the first window of the process, or the old value if there is none; exactly the windows up to the first match are visited |
| `Win32.Input.Create` | performa_csgo/horizon/win32/input.cpp:9-29 | the new fields, the result and the window swapped on are those of `CreateStep` on the old fields |
| `InputModel.CreateSucceedsUnlessSwapRejected` | performa_csgo/horizon/win32/input.cpp:13-28 | Create succeeds if and only if a window is held after enumeration and not both (previous procedure null and error code non-zero); the swap is made on that window; observers are kept |
| `InputModel.CreateWithoutWindowFails` | performa_csgo/horizon/win32/input.cpp:11-16 | with no window of the process and none held, Create fails, attempts no swap and changes nothing |
| `InputModel.CreateReusesHeldWindow` | performa_csgo/horizon/win32/input.cpp:11-19 | with no window of the process but one held from before, the swap is attempted on the held window and its result is stored |
| `InputModel.RecreateOverwritesHeldProcedure` | performa_csgo/horizon/win32/input.cpp:13-19 | a Create with a procedure already held replaces it with the new swap's result, without restoring it |
| `InputModel.CreateThenDestroyRestores` | performa_csgo/horizon/win32/input.cpp:9-39 | after a Create whose swap returned a procedure, Destroy writes exactly that procedure back to the hooked window and returns to the unhooked state |
| `Win32.Input.Destroy` | performa_csgo/horizon/win32/input.cpp:31-39 | a restore is issued exactly when a procedure is held, with that window and procedure; afterwards window and procedure are null and the registry is empty |
| `InputModel.DestroyResets` | performa_csgo/horizon/win32/input.cpp:31-39 | Destroy always ends unhooked, restores only a held procedure, and a second Destroy restores nothing |
| `InputModel.DispatchAfterDestroy` | performa_csgo/horizon/win32/input.cpp:31-39 | after Destroy no observer decides anything and every message goes to the default handler |

## Left out

- The Win32 calls `GetWindowThreadProcessId`, `SetWindowLongPtr`, `SetLastError`/`GetLastError`, `CallWindowProc` and `DefWindowProc` are external. Their results are parameters, and the calls made on them are results.
- `EnumWindows` is modelled only as its stop-at-first-`FALSE` iteration over `ProcedureEnum`. The list of top-level windows, its order and each window's owner are parameters.
- The `LRESULT` a forwarded message returns is the callee's and is not modelled. `Suppressed` stands for returning `FALSE`.
- The `Instance()` singleton and the `api_win32` calling convention of `ProcedureEnum` and `Procedure` are not modelled. The methods run on the object they are called on.
- The `LPARAM` to `DWORD` round trip of the process id is not modelled. `ProcedureEnum` receives the id as a `Dword`, the same value the cast recovers.
- Observer bodies are not modelled. Observers are pure oracles, so the model does not capture observer side effects or an observer that answers differently to two identical calls.
- Concurrency between `Create`/`Destroy` and message delivery is not modelled. The source has no synchronisation.
- The header `input.hpp` is not part of this model. The constructor assumes the three fields start null and empty.
