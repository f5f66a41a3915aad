/** The host debugger's normalized debug event (`debug_event_t`), written as a
    tagged variant: the common fields, and one payload constructor per event
    kind so that only the active payload exists. */
module Events {
  import opened Words

  /** A thread id, or the host's "no thread". */
  datatype Tid = NoThread | Thread(id: U32)

  datatype Payload =
    | ProcessStart
    | ProcessAttach
    | ProcessDetach
    | ProcessSuspend
    | ProcessExit(exitCode: int)
    | ThreadStart
    | ThreadExit(exitCode: int)
    | LibraryLoad(name: string, base: Addr, size: Addr, rebaseTo: Addr)
    | LibraryUnload(info: string)
      /** `hea` is the hardware (watchpoint) address, `kea` the kernel address. */
    | Breakpoint(hea: Addr, kea: Addr)
    | Step
    | Exception(code: U32, canCont: bool, excEa: Addr, info: string)
    | Information(info: string)

  datatype DebugEvent = DebugEvent(pid: U32, tid: Tid, ea: Addr, handled: bool, payload: Payload)

  /** The kinds after which continuing resumes the target: PROCESS_ATTACH,
      PROCESS_SUSPEND, STEP and BREAKPOINT (debug.cpp:1814). */
  predicate Resumes(ev: DebugEvent) {
    ev.payload.ProcessAttach? || ev.payload.ProcessSuspend? || ev.payload.Step? || ev.payload.Breakpoint?
  }

  /** The result codes of get_debug_event. */
  datatype Gde = GdeNoEvent | GdeOneEvent | GdeManyEvents
}
