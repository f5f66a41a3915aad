/** The remote debug agent as the debugger module sees it through its SDK:
    target memory, the set of software breakpoints the agent has inserted, the
    single data-address breakpoint register (DABR), and whether the target is
    running. Each SDK request the core issues is a function from the agent's
    state to its next state. The notifications the agent delivers are here too. */
module Remote {
  import opened Words

  /** What the target runs with each time it is resumed: the breakpoints then
      inserted and the DABR value then programmed. */
  datatype Resume = Resume(bps: set<Addr>, dabr: U32)

  /** The word a memory map holds at `a` (unmapped memory reads as zeros). */
  function WordIn(code: map<Addr, Word>, a: Addr): Word {
    if a in code then code[a] else ZERO
  }

  datatype Agent = Agent(code: map<Addr, Word>, bps: set<Addr>, dabr: U32, running: bool, resumes: seq<Resume>)
  {
    /** The program's own word at `a`. */
    function CodeAt(a: Addr): Word {
      WordIn(code, a)
    }

    /** SNPS3ProcessGetMemory of one word: an inserted breakpoint reads as the trap. */
    function ReadWord(a: Addr): Word {
      if a in bps then TRAP else CodeAt(a)
    }

    /** addr_has_bp: whether the agent has a breakpoint at `a`. */
    predicate HasBp(a: Addr) {
      a in bps
    }

    /** SNPS3SetBreakPoint. */
    function SetBreakPoint(a: Addr): Agent {
      this.(bps := bps + {a})
    }

    /** SNPS3ClearBreakPoint: the agent puts the program's word back. */
    function ClearBreakPoint(a: Addr): Agent {
      this.(bps := bps - {a})
    }

    /** SNPS3SetDABR. */
    function SetDabr(v: U32): Agent {
      this.(dabr := v)
    }

    /** SNPS3ProcessStop. */
    function Stop(): Agent {
      this.(running := false)
    }

    /** SNPS3ProcessContinue: the target runs with the breakpoints and DABR of now. */
    function Continue(): Agent {
      this.(running := true, resumes := resumes + [Resume(bps, dabr)])
    }
  }

  /** The eight exception notifications that become EXCEPTION events. */
  datatype ExcKind = PrivInstr | Alignment | IllegalInstr | TextHtabMiss | TextSlbMiss
                   | DataHtabMiss | FloatEnabled | DataSlbMiss

  /** A target-specific notification (`SNPS3_DBG_EVENT_DATA`), its fields as the
      agent sends them (big-endian). */
  datatype Notification =
    | ProcessCreate
    | ProcessExitN(exitCode: bv64)
    | Trap(thread: bv64, pc: bv64)
    | Exc(kind: ExcKind, thread: bv64, pc: bv64)
    | DabrMatch(thread: bv64, pc: bv64)
    | ThreadStop(thread: bv64, pc: bv64)
    | StopInit
    | DataMat
    | ThreadCreate(thread: bv64)
    | ThreadExitN(thread: bv64)
    | PrxLoad(thread: bv64, prxId: bv32)
    | PrxUnload(thread: bv64, prxId: bv32)
    | OtherNotification(eventType: nat)

  /** What SNPS3GetModuleInfo reports about a loaded module. */
  datatype ModuleInfo = ModuleInfo(elfName: string, name: string, base: Addr, size: Addr)

  /** One record of a notification buffer: its header kind and its size in bytes. */
  datatype RecordKind = TargetSpecific(n: Notification) | OtherTargetEvent
  datatype Record = Record(kind: RecordKind, size: U32)
}
