/** The debugger module's global state (debug.cpp:72-89) as one value, together
    with the remote agent and the pending-event queue. The class in module
    Deci3 holds the same state in mutable fields; the functions of the other
    modules specify each operation on this value. */
module State {
  import opened Words
  import opened Wrappers
  import opened Events
  import opened Remote
  import opened Shadow

  /** The DABR access bits: 6 watches writes, 7 reads and writes, 4 alone
      leaves the address but watches nothing. */
  const DABR_WRITE: U8 := 6
  const DABR_RDWR: U8 := 7
  const DABR_OFF: U32 := 4

  datatype Globals = Globals(
    mainBpts: set<Addr>,                 // user breakpoints
    stepBpts: set<Addr>,                 // transient step breakpoints
    shadow: map<Addr, Word>,             // main_bpts_map
    singlestep: bool,
    continueFromBp: bool,
    attaching: bool,
    dabrIsSet: bool,
    dabrAddr: Addr,
    dabrType: U8,
    modules: map<U32, string>,           // module id -> name
    last: Option<Notification>,          // target_event; None once zeroed
    pid: U32,                            // ProcessID
    agent: Agent,
    queue: seq<DebugEvent>)              // events
  {
    /** events.enqueue(ev, IN_BACK). */
    function Emit(ev: DebugEvent): Globals {
      this.(queue := queue + [ev])
    }
  }

  /** The watchpoint slot agrees with the register: while a watchpoint is set its
      kind is write or read/write and the DABR holds its address and kind. */
  ghost predicate WatchInv(g: Globals) {
    g.dabrIsSet ==> (g.dabrType == DABR_WRITE || g.dabrType == DABR_RDWR) &&
                    g.agent.dabr == Or32(g.dabrAddr, g.dabrType as U32)
  }

  ghost predicate Inv(g: Globals) {
    ShadowInv(g.shadow, g.agent) && WatchInv(g)
  }
}
