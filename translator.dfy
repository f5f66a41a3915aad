/** Event translation: ProcessTargetSpecificEvent turns one notification of the
    debug agent into at most one host debug event (plus the step cleanup and the
    module-name bookkeeping), and ProcessTargetEvent walks a buffer of records.
    The notification's big-endian fields are decoded first (Decode), then the
    decoded notification acts on the state (Act). */
module Translator {
  import opened Words
  import opened Wrappers
  import opened Helpers
  import opened Events
  import opened Remote
  import opened Shadow
  import opened State
  import Stepping

  /** A thread id as the agent sends it (a big-endian 64-bit field) stored into
      the host's 32-bit thread id. */
  function ThreadOf(th: bv64): Tid {
    Thread(Low32(Bswap64(th)))
  }

  /** A program counter as the agent sends it, stored into a 32-bit address. */
  function PcOf(pc: bv64): Addr {
    Low32(Bswap64(pc))
  }

  /** The key of a module in the module-name table. */
  function ModuleKey(prxId: bv32): U32 {
    Bswap32(prxId) as int as U32
  }

  /** A notification with its fields decoded as ProcessTargetSpecificEvent
      reads them; Silent stands for the kinds it only logs. */
  datatype Decoded =
    | Silent
    | DExit(exitCode: int)
    | DTrap(tid: Tid, pc: Addr)
    | DExc(kind: ExcKind, tid: Tid, pc: Addr)
    | DDabr(tid: Tid, pc: Addr)
    | DThreadStart(tid: Tid)
    | DThreadExit(tid: Tid)
    | DLoad(tid: Tid, key: U32)
    | DUnload(tid: Tid, key: U32)

  /** The field decoding of ProcessTargetSpecificEvent: byte-swap, then
      truncate to the host's 32-bit fields; the exit status is read as a
      signed 32-bit number. */
  function Decode(n: Notification): Decoded {
    match n
    case ProcessExitN(code) => DExit(Signed32(Low32(Bswap64(code))))
    case Trap(th, pc) => DTrap(ThreadOf(th), PcOf(pc))
    case Exc(k, th, pc) => DExc(k, ThreadOf(th), PcOf(pc))
    case DabrMatch(th, pc) => DDabr(ThreadOf(th), PcOf(pc))
    case ThreadCreate(th) => DThreadStart(ThreadOf(th))
    case ThreadExitN(th) => DThreadExit(ThreadOf(th))
    case PrxLoad(th, id) => DLoad(ThreadOf(th), ModuleKey(id))
    case PrxUnload(th, id) => DUnload(ThreadOf(th), ModuleKey(id))
    case _ => Silent
  }

  /** The displayed name of a loaded module: "<elf name> - <name>". */
  function ModuleName(info: ModuleInfo): string {
    info.elfName + " - " + info.name
  }

  /** The text of each exception event. */
  function ExcInfo(k: ExcKind): string {
    match k
    case PrivInstr => "privilege instruction"
    case Alignment => "alignment interrupt"
    case IllegalInstr => "illegal instruction"
    case TextHtabMiss => "instruction storage interrupt"
    case TextSlbMiss => "instruction segment interrupt"
    case DataHtabMiss => "data storage interrupt"
    case FloatEnabled => "floating point enabled exception"
    case DataSlbMiss => "data segment interrupt"
  }

  /** Whether the notification kept in the scratch slot is of the kind given. */
  predicate LastWasTrap(last: Option<Notification>) {
    last.Some? && last.value.Trap?
  }

  predicate LastWasDabr(last: Option<Notification>) {
    last.Some? && last.value.DabrMatch?
  }

  /** ProcessTargetSpecificEvent for one notification. `lookup` is the agent's
      module-information query, keyed by module id. */
  function Translate(g: Globals, n: Notification, lookup: U32 -> ModuleInfo): Globals {
    Act(g, Decode(n), lookup)
  }

  /** What a decoded notification does. */
  function Act(g: Globals, d: Decoded, lookup: U32 -> ModuleInfo): Globals {
    match d
    case Silent => g
    case DExit(code) => g.Emit(DebugEvent(g.pid, NoThread, BADADDR, true, ProcessExit(code)))
    case DTrap(tid, pc) =>
      if LastWasTrap(g.last) then g
      else if g.singlestep || g.continueFromBp then StepCompleted(g, tid, pc)
      else g.Emit(DebugEvent(g.pid, tid, pc, true, Breakpoint(BADADDR, BADADDR)))
    case DExc(k, tid, pc) =>
      g.Emit(DebugEvent(g.pid, tid, BADADDR, true, Exception(0, k == FloatEnabled, pc, ExcInfo(k))))
    case DDabr(tid, pc) =>
      if LastWasDabr(g.last) then g
      else g.Emit(DebugEvent(g.pid, tid, pc, true, Breakpoint(g.dabrAddr, BADADDR)))
    case DThreadStart(tid) => g.Emit(DebugEvent(g.pid, tid, BADADDR, true, ThreadStart))
    case DThreadExit(tid) => g.Emit(DebugEvent(g.pid, tid, BADADDR, true, ThreadExit(0)))
    case DLoad(tid, key) => OnLoad(g, tid, key, lookup)
    case DUnload(tid, key) => OnUnload(g, tid, key)
  }

  /** A trap while single-stepping (or just after continuing from a
      breakpoint): report STEP, remove the step breakpoints, and clear
      continue_from_bp if it was set, otherwise single-stepping. */
  function StepCompleted(g: Globals, tid: Tid, pc: Addr): Globals {
    var g1 := g.Emit(DebugEvent(g.pid, tid, pc, true, Step));
    var g2 := Stepping.RemoveThreadBpts(g1, g1.stepBpts).(stepBpts := {});
    if g.continueFromBp then g2.(continueFromBp := false) else g2.(singlestep := false)
  }

  /** A module load: report the agent's module information and record the
      module's name. */
  function OnLoad(g: Globals, tid: Tid, key: U32, lookup: U32 -> ModuleInfo): Globals {
    var info := lookup(key);
    var name := ModuleName(info);
    g.Emit(DebugEvent(g.pid, tid, BADADDR, true, LibraryLoad(name, info.base, info.size, BADADDR)))
     .(modules := g.modules[key := name])
  }

  /** A module unload: report the recorded name (a missing entry reads as the
      empty string) and forget the module. */
  function OnUnload(g: Globals, tid: Tid, key: U32): Globals {
    var name := if key in g.modules then g.modules[key] else "";
    g.Emit(DebugEvent(g.pid, tid, BADADDR, true, LibraryUnload(name))).(modules := g.modules - {key})
  }

  /** One record of a notification buffer: a target-specific record is
      translated and then its notification is kept in the scratch slot. */
  function ApplyRecord(g: Globals, r: Record, lookup: U32 -> ModuleInfo): Globals {
    match r.kind
    case TargetSpecific(n) => Translate(g, n, lookup).(last := Some(n))
    case OtherTargetEvent => g
  }

  /** The records of a buffer, handled in order. */
  function ApplyRecords(g: Globals, recs: seq<Record>, lookup: U32 -> ModuleInfo): Globals
    decreases |recs|
  {
    if recs == [] then g
    else ApplyRecord(ApplyRecords(g, recs[..|recs| - 1], lookup), recs[|recs| - 1], lookup)
  }

  function SizeSum(recs: seq<Record>): nat
    decreases |recs|
  {
    if recs == [] then 0 else recs[0].size as int + SizeSum(recs[1..])
  }

  /** A buffer the record walk of ProcessTargetEvent ends on: every record has
      a positive size and the sizes add up to the buffer length. */
  predicate WellFormed(recs: seq<Record>, dataLen: U32) {
    (forall k :: 0 <= k < |recs| ==> recs[k].size > 0) && SizeSum(recs) == dataLen as int
  }

  /** The record walk from record `i`: the remaining length is the size of
      record `i` plus what follows it, and nothing once every record is walked. */
  lemma SizeSumSplit(recs: seq<Record>, i: nat)
    requires i <= |recs|
    ensures i == 0 ==> SizeSum(recs[i..]) == SizeSum(recs)
    ensures i < |recs| ==> SizeSum(recs[i..]) == recs[i].size as int + SizeSum(recs[i + 1..])
    ensures i == |recs| ==> SizeSum(recs[i..]) == 0
  {
    if i < |recs| {
      assert recs[i..][1..] == recs[i + 1..];
    }
  }

  /** `q1` is `q0` with at most one event appended, for process `pid` and handled. */
  predicate AppendsAtMostOne(q0: seq<DebugEvent>, q1: seq<DebugEvent>, pid: U32) {
    && |q0| <= |q1| <= |q0| + 1
    && q1[..|q0|] == q0
    && forall k :: |q0| <= k < |q1| ==> q1[k].pid == pid && q1[k].handled
  }

  // ---------------------------------------------------------------------------
  // Decoding

  /** A 64-bit field the agent byte-swapped decodes to the low 32 bits of the
      value it sent. */
  lemma {:induction false} Field64RoundTrip(x: bv64)
    ensures PcOf(Bswap64(x)) == Low32(x)
    ensures ThreadOf(Bswap64(x)) == Thread(Low32(x))
  {
    Bswap64Involution(x);
  }

  /** A module id the agent byte-swapped decodes to the value it sent. */
  lemma {:induction false} ModuleKeyRoundTrip(id: bv32)
    ensures ModuleKey(Bswap32(id)) == id as int as U32
  {
    Bswap32Involution(id);
  }

  /** The agent's big-endian fields decode back to the values it encoded: a
      thread id or pc sent in a 64-bit field arrives as the low 32 bits of the
      value sent. */
  lemma {:induction false} TrapRoundTrip(x: bv64, y: bv64)
    ensures Decode(Trap(Bswap64(x), Bswap64(y))) == DTrap(Thread(Low32(x)), Low32(y))
    ensures Decode(DabrMatch(Bswap64(x), Bswap64(y))) == DDabr(Thread(Low32(x)), Low32(y))
  {
    Field64RoundTrip(x);
    Field64RoundTrip(y);
  }

  /** An exit status arrives as the low 32 bits of the value sent, read as a
      signed number. */
  lemma {:induction false} ExitRoundTrip(x: bv64)
    ensures Decode(ProcessExitN(Bswap64(x))) == DExit(Signed32(Low32(x)))
    ensures -0x8000_0000 <= Signed32(Low32(x)) < 0x8000_0000
  {
    Bswap64Involution(x);
  }

  /** A module id arrives as the value sent, with the thread. */
  lemma {:induction false} LoadRoundTrip(x: bv64, id: bv32)
    ensures Decode(PrxLoad(Bswap64(x), Bswap32(id))) == DLoad(Thread(Low32(x)), id as int as U32)
    ensures Decode(PrxUnload(Bswap64(x), Bswap32(id))) == DUnload(Thread(Low32(x)), id as int as U32)
  {
    Field64RoundTrip(x);
    ModuleKeyRoundTrip(id);
  }

  // ---------------------------------------------------------------------------
  // One notification

  /** A trap right after a trap, and a watchpoint hit right after a watchpoint
      hit, are dropped without any effect. */
  lemma Dedup(g: Globals, n: Notification, lookup: U32 -> ModuleInfo)
    requires (n.Trap? && LastWasTrap(g.last)) || (n.DabrMatch? && LastWasDabr(g.last))
    ensures Translate(g, n, lookup) == g
  {
  }

  /** A trap that ends a step: STEP is reported at the trap's thread and pc,
      the step breakpoints are gone (user breakpoints stay), and a pending
      continue-from-breakpoint is consumed before single-stepping is. */
  lemma TrapWhileStepping(g: Globals, tid: Tid, pc: Addr, lookup: U32 -> ModuleInfo)
    requires !LastWasTrap(g.last) && (g.singlestep || g.continueFromBp)
    ensures var r := Act(g, DTrap(tid, pc), lookup);
      && r.queue == g.queue + [DebugEvent(g.pid, tid, pc, true, Step)]
      && r.stepBpts == {}
      && (forall a :: a in g.stepBpts && a !in g.mainBpts ==> a !in r.agent.bps && a !in r.shadow)
      && (forall a :: a in g.mainBpts ==> (a in r.agent.bps <==> a in g.agent.bps))
      && (g.continueFromBp ==> !r.continueFromBp && r.singlestep == g.singlestep)
      && (!g.continueFromBp ==> !r.singlestep)
      && (Inv(g) ==> Inv(r))
  {
    var g1 := g.Emit(DebugEvent(g.pid, tid, pc, true, Step));
    Stepping.RemoveThreadBptsEffect(g1, g1.stepBpts);
  }

  /** Any other trap is reported as a software breakpoint: no hardware address. */
  lemma TrapIsBreakpoint(g: Globals, tid: Tid, pc: Addr, lookup: U32 -> ModuleInfo)
    requires !LastWasTrap(g.last) && !g.singlestep && !g.continueFromBp
    ensures var r := Act(g, DTrap(tid, pc), lookup);
      && r == g.(queue := r.queue)
      && r.queue == g.queue + [DebugEvent(g.pid, tid, pc, true, Breakpoint(BADADDR, BADADDR))]
  {
  }

  /** A watchpoint hit is reported as a breakpoint whose hardware address is the
      watched address. */
  lemma DabrHitIsHardwareBreakpoint(g: Globals, tid: Tid, pc: Addr, lookup: U32 -> ModuleInfo)
    requires !LastWasDabr(g.last)
    ensures var r := Act(g, DDabr(tid, pc), lookup);
      && r == g.(queue := r.queue)
      && r.queue == g.queue + [DebugEvent(g.pid, tid, pc, true, Breakpoint(g.dabrAddr, BADADDR))]
  {
  }

  /** Exceptions are reported without an event address and with the faulting pc
      as the exception address; only the floating-point one can be continued. */
  lemma ExceptionEvent(g: Globals, k: ExcKind, tid: Tid, pc: Addr, lookup: U32 -> ModuleInfo)
    ensures var r := Act(g, DExc(k, tid, pc), lookup);
      && |r.queue| == |g.queue| + 1 && r.queue[..|g.queue|] == g.queue
      && var ev := r.queue[|g.queue|];
      && ev.ea == BADADDR && ev.payload.Exception? && ev.payload.code == 0
      && ev.payload.excEa == pc && ev.tid == tid
      && (ev.payload.canCont <==> k == FloatEnabled)
  {
  }

  /** A module load followed by an unload of the same module reports the
      loaded name twice and leaves the module table as it was without that
      module. */
  lemma LoadThenUnload(g: Globals, tid: Tid, tid2: Tid, key: U32, lookup: U32 -> ModuleInfo)
    ensures var l := Act(g, DLoad(tid, key), lookup);
      var u := Act(l, DUnload(tid2, key), lookup);
      var info := lookup(key);
      && l.modules == g.modules[key := ModuleName(info)]
      && u.modules == g.modules - {key}
      && u.queue == g.queue + [
           DebugEvent(g.pid, tid, BADADDR, true, LibraryLoad(ModuleName(info), info.base, info.size, BADADDR)),
           DebugEvent(g.pid, tid2, BADADDR, true, LibraryUnload(ModuleName(info)))]
  {
    var info := lookup(key);
    var ev1 := DebugEvent(g.pid, tid, BADADDR, true, LibraryLoad(ModuleName(info), info.base, info.size, BADADDR));
    var ev2 := DebugEvent(g.pid, tid2, BADADDR, true, LibraryUnload(ModuleName(info)));
    var l := OnLoad(g, tid, key, lookup);
    assert l.modules[key] == ModuleName(info);
    assert g.queue + [ev1] + [ev2] == g.queue + [ev1, ev2];
    assert l.modules - {key} == g.modules - {key};
  }

  /** Unloading a module never loaded reports an empty name. */
  lemma UnloadUnknown(g: Globals, tid: Tid, key: U32, lookup: U32 -> ModuleInfo)
    requires key !in g.modules
    ensures var u := Act(g, DUnload(tid, key), lookup);
      u.queue == g.queue + [DebugEvent(g.pid, tid, BADADDR, true, LibraryUnload(""))]
      && u.modules == g.modules
  {
  }

  /** Appending one event keeps everything but the queue, and keeps the
      invariants. */
  lemma EmitEffect(g: Globals, ev: DebugEvent)
    requires ev.pid == g.pid && ev.handled
    ensures var r := g.Emit(ev);
      && r.queue == g.queue + [ev] && AppendsAtMostOne(g.queue, r.queue, g.pid)
      && r == g.(queue := r.queue)
      && (Inv(g) ==> Inv(r))
  {
    assert (g.queue + [ev])[..|g.queue|] == g.queue;
  }

  /** Each notification appends at most one event, attributed to the current
      process and marked handled, and keeps the invariants. */
  lemma ActEffect(g: Globals, d: Decoded, lookup: U32 -> ModuleInfo)
    ensures var r := Act(g, d, lookup);
      && AppendsAtMostOne(g.queue, r.queue, g.pid)
      && r.pid == g.pid && r.last == g.last && r.mainBpts == g.mainBpts
      && (Inv(g) ==> Inv(r))
  {
    assert g.queue[..|g.queue|] == g.queue;
    match d
    case Silent =>
    case DExit(code) => EmitEffect(g, DebugEvent(g.pid, NoThread, BADADDR, true, ProcessExit(code)));
    case DTrap(tid, pc) =>
      if LastWasTrap(g.last) {
      } else if g.singlestep || g.continueFromBp {
        TrapWhileStepping(g, tid, pc, lookup);
        EmitEffect(g, DebugEvent(g.pid, tid, pc, true, Step));
      } else {
        EmitEffect(g, DebugEvent(g.pid, tid, pc, true, Breakpoint(BADADDR, BADADDR)));
      }
    case DExc(k, tid, pc) =>
      EmitEffect(g, DebugEvent(g.pid, tid, BADADDR, true, Exception(0, k == FloatEnabled, pc, ExcInfo(k))));
    case DDabr(tid, pc) =>
      if !LastWasDabr(g.last) {
        EmitEffect(g, DebugEvent(g.pid, tid, pc, true, Breakpoint(g.dabrAddr, BADADDR)));
      }
    case DThreadStart(tid) => EmitEffect(g, DebugEvent(g.pid, tid, BADADDR, true, ThreadStart));
    case DThreadExit(tid) => EmitEffect(g, DebugEvent(g.pid, tid, BADADDR, true, ThreadExit(0)));
    case DLoad(tid, key) =>
      var info := lookup(key);
      EmitEffect(g, DebugEvent(g.pid, tid, BADADDR, true, LibraryLoad(ModuleName(info), info.base, info.size, BADADDR)));
    case DUnload(tid, key) =>
      EmitEffect(g, DebugEvent(g.pid, tid, BADADDR, true, LibraryUnload(if key in g.modules then g.modules[key] else "")));
  }

  // ---------------------------------------------------------------------------
  // A buffer

  /** The records of a buffer only ever append events, at most one per record,
      each for the current process and handled; the invariants hold throughout. */
  lemma {:induction false} ApplyRecordsEffect(g: Globals, recs: seq<Record>, lookup: U32 -> ModuleInfo)
    ensures var r := ApplyRecords(g, recs, lookup);
      && |g.queue| <= |r.queue| <= |g.queue| + |recs|
      && r.queue[..|g.queue|] == g.queue
      && (forall k :: |g.queue| <= k < |r.queue| ==> r.queue[k].pid == g.pid && r.queue[k].handled)
      && r.pid == g.pid && r.mainBpts == g.mainBpts
      && (Inv(g) ==> Inv(r))
    decreases |recs|
  {
    if recs != [] {
      var b := ApplyRecords(g, recs[..|recs| - 1], lookup);
      ApplyRecordsEffect(g, recs[..|recs| - 1], lookup);
      var rec := recs[|recs| - 1];
      if rec.kind.TargetSpecific? {
        ActEffect(b, Decode(rec.kind.n), lookup);
        var t := Translate(b, rec.kind.n, lookup);
        assert t.queue[..|b.queue|] == b.queue;
        assert t.queue[..|g.queue|] == b.queue[..|g.queue|];
      }
    }
  }

  /** After a target-specific record the scratch slot holds its notification,
      so a second trap in a row is dropped within one buffer. */
  lemma SecondTrapDropped(g: Globals, r1: Record, r2: Record, lookup: U32 -> ModuleInfo)
    requires r1.kind.TargetSpecific? && r1.kind.n.Trap?
    requires r2.kind.TargetSpecific? && r2.kind.n.Trap?
    ensures ApplyRecords(g, [r1, r2], lookup) == ApplyRecords(g, [r1], lookup).(last := Some(r2.kind.n))
  {
    assert [r1, r2][..1] == [r1];
    assert [r1][..0] == [];
  }

  /** Records that are not target-specific are skipped without effect. */
  lemma {:induction false} OtherRecordsSkipped(g: Globals, recs: seq<Record>, lookup: U32 -> ModuleInfo)
    requires forall k :: 0 <= k < |recs| ==> recs[k].kind == OtherTargetEvent
    ensures ApplyRecords(g, recs, lookup) == g
    decreases |recs|
  {
    if recs != [] {
      OtherRecordsSkipped(g, recs[..|recs| - 1], lookup);
    }
  }
}
