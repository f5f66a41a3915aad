/** The debugger module as an object: the globals of debug.cpp as fields that
    its entry points update in place, and the pending-event list. Each method
    is proved to have the effect of the function that specifies it. */
module Deci3 {
  import opened Words
  import opened Wrappers
  import opened Events
  import opened Remote
  import opened Shadow
  import opened State
  import opened EventQueue
  import Memory
  import Breakpoints
  import Stepping
  import Translator
  import Resume

  /** A sequence is its three consecutive slices. */
  lemma SplitThree<T>(s: seq<T>, i: nat, j: nat)
    requires i <= j <= |s|
    ensures s == s[..i] + s[i..j] + s[j..]
  {
  }

  class Debugger {
    var mainBpts: set<Addr>
    var stepBpts: set<Addr>
    var shadow: map<Addr, Word>
    var singlestep: bool
    var continueFromBp: bool
    var attaching: bool
    var dabrIsSet: bool
    var dabrAddr: Addr
    var dabrType: U8
    var modules: map<U32, string>
    var last: Option<Notification>
    var pid: U32
    var agent: Agent
    const events: EventList

    /** The whole state as one value. */
    function State(): Globals
      reads this, events
    {
      Globals(mainBpts, stepBpts, shadow, singlestep, continueFromBp, attaching, dabrIsSet,
              dabrAddr, dabrType, modules, last, pid, agent, events.q)
    }

    /** The globals as the module starts: no breakpoints, no watchpoint, no
        pending events, the scratch slot zeroed. */
    constructor (target: Agent, processId: U32)
      ensures State() == Globals({}, {}, map[], false, false, false, false, 0, 0, map[], None, processId, target, [])
      ensures fresh(events)
    {
      mainBpts, stepBpts, shadow := {}, {}, map[];
      singlestep, continueFromBp, attaching, dabrIsSet := false, false, false, false;
      dabrAddr, dabrType, modules, last := 0, 0, map[], None;
      pid, agent := processId, target;
      events := new EventList();
    }

    // -------------------------------------------------------------------------
    // update_bpts

    /** Arm the watchpoint slot with access bits `kind`, or refuse. */
    method AddWatch(e: Breakpoints.UpdateBptInfo, kind: U8, stopped: bool)
      returns (entry: Breakpoints.UpdateBptInfo, counted: bool)
      modifies this
      ensures var a := Breakpoints.AddWatch(old(State()), e, kind, stopped);
        State() == a.g && entry == a.entry && counted == a.counted
    {
      if !dabrIsSet {
        agent := agent.Stop().SetDabr(Or32(e.ea, kind as U32));
        if !stopped {
          agent := agent.Continue();
        }
        dabrAddr, dabrType, dabrIsSet := e.ea, kind, true;
        entry, counted := e.(code := Breakpoints.BptOk), true;
      } else {
        entry, counted := e.(code := Breakpoints.BptTooMany), false;
      }
    }

    /** Insert a software breakpoint, keeping the word it covers. */
    method AddCode(e: Breakpoints.UpdateBptInfo) returns (entry: Breakpoints.UpdateBptInfo)
      modifies this
      ensures var p := Patch(old(shadow), old(agent), e.ea);
        && State() == old(State()).(shadow := p.shadow, agent := p.agent, mainBpts := old(mainBpts) + {e.ea})
        && entry == e.(orgbytes := p.word, code := Breakpoints.BptOk)
    {
      var p := Patch(shadow, agent, e.ea);
      shadow, agent := p.shadow, p.agent;
      mainBpts := mainBpts + {e.ea};
      entry := e.(orgbytes := p.word, code := Breakpoints.BptOk);
    }

    /** One entry of the add loop. */
    method AddEntry(e: Breakpoints.UpdateBptInfo, stopped: bool)
      returns (entry: Breakpoints.UpdateBptInfo, counted: bool)
      modifies this
      ensures var a := Breakpoints.AddOne(old(State()), e, stopped);
        State() == a.g && entry == a.entry && counted == a.counted
    {
      if e.code != Breakpoints.BptOk {
        return e, false;
      }
      match e.btype
      case BptSoft | BptExec =>
        entry := AddCode(e);
        counted := true;
      case BptWrite =>
        entry, counted := AddWatch(e, DABR_WRITE, stopped);
      case BptRdWr =>
        entry, counted := AddWatch(e, DABR_RDWR, stopped);
      case BptOtherType =>
        entry, counted := e, false;
    }

    /** Remove a software breakpoint and forget the word it covered. */
    method DelCode(e: Breakpoints.UpdateBptInfo)
      modifies this
      ensures State() == old(State()).(agent := old(agent).ClearBreakPoint(e.ea),
                                       mainBpts := old(mainBpts) - {e.ea}, shadow := old(shadow) - {e.ea})
    {
      agent := agent.ClearBreakPoint(e.ea);
      mainBpts := mainBpts - {e.ea};
      shadow := shadow - {e.ea};
    }

    /** Disarm the watchpoint slot. */
    method DelWatch(e: Breakpoints.UpdateBptInfo, stopped: bool)
      modifies this
      ensures State() == old(State()).(dabrIsSet := false, dabrAddr := 0,
        agent := Breakpoints.ResumeUnlessStopped(old(agent).Stop().SetDabr(Or32(e.ea, DABR_OFF)), stopped))
    {
      dabrIsSet, dabrAddr := false, 0;
      agent := agent.Stop().SetDabr(Or32(e.ea, DABR_OFF));
      if !stopped {
        agent := agent.Continue();
      }
    }

    /** One entry of the delete loop. */
    method DelEntry(e: Breakpoints.UpdateBptInfo, stopped: bool)
      returns (entry: Breakpoints.UpdateBptInfo, counted: bool)
      modifies this
      ensures var a := Breakpoints.DelOne(old(State()), e, stopped);
        State() == a.g && entry == a.entry && counted == a.counted
    {
      entry, counted := e.(code := Breakpoints.BptOk), true;
      match e.btype
      case BptSoft | BptExec =>
        entry := entry.(orgbytes := []);
        DelCode(e);
      case BptWrite | BptRdWr =>
        DelWatch(e, stopped);
      case BptOtherType =>
    }

    /** The add loop of update_bpts over the first `nadd` entries. */
    method AddLoop(bpts: array<Breakpoints.UpdateBptInfo>, nadd: nat, stopped: bool)
      returns (cnt: int)
      requires nadd <= bpts.Length
      modifies this, bpts
      ensures var b := Breakpoints.FoldAdds(old(State()), old(bpts[..nadd]), stopped);
        State() == b.g && bpts[..nadd] == b.entries && cnt == b.count
      ensures bpts[nadd..] == old(bpts[nadd..])
    {
      ghost var g0 := State();
      ghost var es := bpts[..nadd];
      cnt := 0;
      var i := 0;
      while i < nadd
        invariant 0 <= i <= nadd
        invariant bpts[i..] == old(bpts[i..])
        invariant var b := Breakpoints.FoldAdds(g0, es[..i], stopped);
          State() == b.g && bpts[..i] == b.entries && cnt == b.count
      {
        Breakpoints.FoldAddsStep(g0, es, i, stopped);
        assert bpts[i] == es[i];
        var entry, counted := AddEntry(bpts[i], stopped);
        bpts[i] := entry;
        if counted {
          cnt := cnt + 1;
        }
        i := i + 1;
      }
      assert es[..nadd] == es;
    }

    /** The delete loop of update_bpts over the `ndel` entries after the first
        `nadd`; `cnt` goes on from the count of the adds. */
    method DelLoop(bpts: array<Breakpoints.UpdateBptInfo>, nadd: nat, ndel: nat, stopped: bool, cnt0: int)
      returns (cnt: int)
      requires nadd + ndel <= bpts.Length
      modifies this, bpts
      ensures var b := Breakpoints.FoldDels(old(State()), old(bpts[nadd..nadd + ndel]), stopped);
        State() == b.g && bpts[nadd..nadd + ndel] == b.entries && cnt == cnt0 + b.count
      ensures bpts[..nadd] == old(bpts[..nadd]) && bpts[nadd + ndel..] == old(bpts[nadd + ndel..])
    {
      ghost var g0 := State();
      ghost var es := bpts[nadd..nadd + ndel];
      cnt := cnt0;
      var i := 0;
      while i < ndel
        invariant 0 <= i <= ndel
        invariant bpts[..nadd] == old(bpts[..nadd])
        invariant bpts[nadd + i..] == old(bpts[nadd + i..])
        invariant var b := Breakpoints.FoldDels(g0, es[..i], stopped);
          State() == b.g && bpts[nadd..nadd + i] == b.entries && cnt == cnt0 + b.count
      {
        Breakpoints.FoldDelsStep(g0, es, i, stopped);
        assert bpts[nadd + i] == es[i];
        var entry, counted := DelEntry(bpts[nadd + i], stopped);
        bpts[nadd + i] := entry;
        if counted {
          cnt := cnt + 1;
        }
        assert bpts[nadd..nadd + (i + 1)] == bpts[nadd..nadd + i] + [entry];
        i := i + 1;
      }
      assert es[..ndel] == es;
    }

    /** update_bpts: the first `nadd` entries of `bpts` are added, the next
        `ndel` deleted, each entry written back; `stopped` is whether the
        thread was found stopped. Returns the count of applied entries. */
    method UpdateBpts(bpts: array<Breakpoints.UpdateBptInfo>, nadd: nat, ndel: nat, stopped: bool)
      returns (cnt: int)
      requires nadd + ndel <= bpts.Length
      modifies this, bpts
      ensures var b := Breakpoints.UpdateBpts(old(State()), old(bpts[..]), nadd, ndel, stopped);
        State() == b.g && bpts[..] == b.entries && cnt == b.count
    {
      ghost var g0 := State();
      ghost var es := bpts[..];
      ghost var adds := Breakpoints.FoldAdds(g0, es[..nadd], stopped);
      assert es[..nadd] == bpts[..nadd];
      cnt := AddLoop(bpts, nadd, stopped);
      assert State() == adds.g && bpts[..nadd] == adds.entries && cnt == adds.count;
      ghost var dels := Breakpoints.FoldDels(adds.g, es[nadd..nadd + ndel], stopped);
      assert bpts[nadd..nadd + ndel] == es[nadd..nadd + ndel];
      cnt := DelLoop(bpts, nadd, ndel, stopped, cnt);
      assert State() == dels.g && bpts[nadd..nadd + ndel] == dels.entries && cnt == adds.count + dels.count;
      ghost var now := bpts[..];
      SplitThree(now, nadd, nadd + ndel);
      assert now[..nadd] == adds.entries && now[nadd..nadd + ndel] == dels.entries;
    }

    // -------------------------------------------------------------------------
    // read_memory

    /** SNPS3ProcessGetMemory into `buffer`: the words as the agent reads them. */
    method FetchWords(ea: Addr, buffer: array<Word>)
      modifies buffer
      ensures forall j :: 0 <= j < buffer.Length ==> buffer[j] == agent.ReadWord(Memory.WordAddr(ea, j))
    {
      var k := 0;
      while k < buffer.Length
        invariant 0 <= k <= buffer.Length
        invariant forall j :: 0 <= j < k ==> buffer[j] == agent.ReadWord(Memory.WordAddr(ea, j))
      {
        buffer[k] := agent.ReadWord(Memory.WordAddr(ea, k));
        k := k + 1;
      }
    }

    /** The masking loop of read_memory over the fetched words, starting from
        the shadow map `sh0` and returning the map it leaves. */
    method MaskTraps(ea: Addr, buffer: array<Word>, sh0: map<Addr, Word>) returns (sh: map<Addr, Word>)
      requires forall j :: 0 <= j < buffer.Length ==> buffer[j] == agent.ReadWord(Memory.WordAddr(ea, j))
      modifies buffer
      ensures var r := Memory.MaskLoop(sh0, agent, ea, buffer.Length);
        buffer[..] == r.words && sh == r.shadow
    {
      sh := sh0;
      var i := 0;
      while i < buffer.Length
        invariant 0 <= i <= buffer.Length
        invariant var r := Memory.MaskLoop(sh0, agent, ea, i);
          buffer[..i] == r.words && sh == r.shadow
        invariant forall j :: i <= j < buffer.Length ==> buffer[j] == agent.ReadWord(Memory.WordAddr(ea, j))
      {
        var a := Memory.WordAddr(ea, i);
        ghost var r := Memory.MaskLoop(sh0, agent, ea, i);
        ghost var m := Memory.MaskOne(sh, agent, a);
        if buffer[i] == TRAP {
          if a !in sh {
            sh := sh[a := ZERO];
          }
          buffer[i] := sh[a];
        }
        assert buffer[i] == m.words[0] && sh == m.shadow;
        assert buffer[..i + 1] == r.words + m.words;
        i := i + 1;
      }
      assert buffer[..buffer.Length] == buffer[..];
    }

    /** read_memory of `buffer.Length` words at `ea`: fetch the words, then
        replace every trap word by its shadow entry. Returns the size in bytes. */
    method ReadMemory(ea: Addr, buffer: array<Word>) returns (size: int)
      modifies this, buffer
      ensures var r := Memory.ReadMemory(old(shadow), agent, ea, buffer.Length);
        buffer[..] == r.words && State() == old(State()).(shadow := r.shadow)
      ensures size == 4 * buffer.Length
    {
      FetchWords(ea, buffer);
      shadow := MaskTraps(ea, buffer, shadow);
      size := 4 * buffer.Length;
    }

    // -------------------------------------------------------------------------
    // do_step, thread_set_step, remove_thread_bpts

    /** Plant one step breakpoint. */
    method Arm(a: Addr)
      modifies this
      ensures State() == Stepping.Arm(old(State()), a)
    {
      var p := Patch(shadow, agent, a);
      shadow, agent := p.shadow, p.agent;
      stepBpts := stepBpts + {a};
    }

    /** do_step: `view` is what the agent reports about the thread (its pc,
        the instruction there, LR and CTR). */
    method DoStep(notification: int, view: Stepping.ThreadView)
      modifies this
      ensures State() == Stepping.DoStep(old(State()), notification, view)
    {
      var p := Stepping.StepPlan(notification, view);
      if p.next != BADADDR {
        Arm(p.next);
      }
      if p.resolved != BADADDR && !p.stepOver {
        Arm(p.resolved);
      }
    }

    method ThreadSetStep(notification: int, view: Stepping.ThreadView) returns (result: int)
      modifies this
      ensures var r := Stepping.ThreadSetStep(old(State()), notification, view);
        State() == r.g && result == r.result
    {
      if notification == Stepping.STEP_INTO || notification == Stepping.STEP_OVER {
        DoStep(notification, view);
        singlestep := true;
        return 1;
      }
      return 0;
    }

    /** remove_thread_bpts: one address at a time, every address of `s` that
        is not a user breakpoint is cleared and its shadow entry erased. */
    method RemoveThreadBpts(s: set<Addr>)
      modifies this
      ensures State() == Stepping.RemoveThreadBpts(old(State()), s)
    {
      var rest := s;
      var sh := shadow;
      var ag := agent;
      while rest != {}
        invariant rest <= s
        invariant sh == shadow - ((s - rest) - mainBpts)
        invariant ag == agent.(bps := agent.bps - ((s - rest) - mainBpts))
        decreases rest
      {
        var a :| a in rest;
        if a !in mainBpts {
          sh := sh - {a};
          ag := ag.ClearBreakPoint(a);
        }
        rest := rest - {a};
      }
      shadow, agent := sh, ag;
    }

    // -------------------------------------------------------------------------
    // ProcessTargetSpecificEvent, ProcessTargetEvent

    /** A trap that ends a step. */
    method StepCompleted(tid: Tid, pc: Addr)
      modifies this, events
      ensures State() == Translator.StepCompleted(old(State()), tid, pc)
    {
      events.Enqueue(DebugEvent(pid, tid, pc, true, Step), InBack);
      RemoveThreadBpts(stepBpts);
      stepBpts := {};
      if continueFromBp {
        continueFromBp := false;
      } else {
        singlestep := false;
      }
    }

    /** events.enqueue(ev, IN_BACK). */
    method Report(ev: DebugEvent)
      modifies events
      ensures State() == old(State()).Emit(ev)
    {
      events.Enqueue(ev, InBack);
    }

    /** A trap: dropped right after a trap, the end of a step while stepping,
        a software breakpoint otherwise. */
    method OnTrap(tid: Tid, pc: Addr, lookup: U32 -> ModuleInfo)
      modifies this, events
      ensures State() == Translator.Act(old(State()), Translator.DTrap(tid, pc), lookup)
    {
      if !Translator.LastWasTrap(last) {
        if singlestep || continueFromBp {
          StepCompleted(tid, pc);
        } else {
          Report(DebugEvent(pid, tid, pc, true, Breakpoint(BADADDR, BADADDR)));
        }
      }
    }

    method OnLoad(tid: Tid, key: U32, lookup: U32 -> ModuleInfo)
      modifies this, events
      ensures State() == Translator.OnLoad(old(State()), tid, key, lookup)
    {
      var info := lookup(key);
      var name := Translator.ModuleName(info);
      Report(DebugEvent(pid, tid, BADADDR, true, LibraryLoad(name, info.base, info.size, BADADDR)));
      modules := modules[key := name];
    }

    method OnUnload(tid: Tid, key: U32)
      modifies this, events
      ensures State() == Translator.OnUnload(old(State()), tid, key)
    {
      var name := if key in modules then modules[key] else "";
      Report(DebugEvent(pid, tid, BADADDR, true, LibraryUnload(name)));
      modules := modules - {key};
    }

    /** What a decoded notification does. */
    method Act(d: Translator.Decoded, lookup: U32 -> ModuleInfo)
      modifies this, events
      ensures State() == Translator.Act(old(State()), d, lookup)
    {
      match d
      case Silent =>
      case DExit(code) =>
        Report(DebugEvent(pid, NoThread, BADADDR, true, ProcessExit(code)));
      case DTrap(tid, pc) =>
        OnTrap(tid, pc, lookup);
      case DExc(k, tid, pc) =>
        Report(DebugEvent(pid, tid, BADADDR, true, Exception(0, k == FloatEnabled, pc, Translator.ExcInfo(k))));
      case DDabr(tid, pc) =>
        if !Translator.LastWasDabr(last) {
          Report(DebugEvent(pid, tid, pc, true, Breakpoint(dabrAddr, BADADDR)));
        }
      case DThreadStart(tid) =>
        Report(DebugEvent(pid, tid, BADADDR, true, ThreadStart));
      case DThreadExit(tid) =>
        Report(DebugEvent(pid, tid, BADADDR, true, ThreadExit(0)));
      case DLoad(tid, key) =>
        OnLoad(tid, key, lookup);
      case DUnload(tid, key) =>
        OnUnload(tid, key);
    }

    /** ProcessTargetSpecificEvent for one notification; `lookup` is the
        agent's module-information query. */
    method ProcessTargetSpecificEvent(n: Notification, lookup: U32 -> ModuleInfo)
      modifies this, events
      ensures State() == Translator.Translate(old(State()), n, lookup)
    {
      Act(Translator.Decode(n), lookup);
    }

    /** ProcessTargetEvent: walk the records of a buffer of `dataLen` bytes,
        translating each target-specific one and keeping its notification in
        the scratch slot. */
    method ProcessTargetEvent(recs: seq<Record>, dataLen: U32, lookup: U32 -> ModuleInfo)
      requires Translator.WellFormed(recs, dataLen)
      modifies this, events
      ensures State() == Translator.ApplyRecords(old(State()), recs, lookup)
    {
      var remaining := dataLen;
      var i := 0;
      Translator.SizeSumSplit(recs, 0);
      while remaining != 0
        invariant 0 <= i <= |recs|
        invariant remaining as int == Translator.SizeSum(recs[i..])
        invariant State() == Translator.ApplyRecords(old(State()), recs[..i], lookup)
        decreases |recs| - i
      {
        Translator.SizeSumSplit(recs, i);
        assert recs[..i + 1][..i] == recs[..i];
        match recs[i].kind {
          case TargetSpecific(n) =>
            ProcessTargetSpecificEvent(n, lookup);
            last := Some(n);
          case OtherTargetEvent =>
        }
        remaining := remaining - recs[i].size;
        i := i + 1;
      }
      Translator.SizeSumSplit(recs, i);
      assert recs[..i] == recs;
    }

    // -------------------------------------------------------------------------
    // get_debug_event, continue_after_event

    /** get_debug_event. `hasBuffer` is false when the host passes no buffer;
        `prev` is what the buffer held, and `event` what it holds afterwards. */
    method GetDebugEvent(hasBuffer: bool, prev: DebugEvent) returns (code: Gde, event: DebugEvent)
      modifies this, events
      ensures var f := Resume.GetDebugEvent(old(State()), hasBuffer);
        && State() == f.g && code == f.code
        && event == (if f.event.Some? then f.event.value else prev)
    {
      if !hasBuffer {
        return GdeNoEvent, prev;
      }
      last := None;
      var ok;
      ok, event := events.Retrieve(prev);
      if ok {
        if event.payload.ProcessAttach? {
          attaching := false;
        }
        code := if events.Empty() then GdeOneEvent else GdeManyEvents;
        return;
      }
      code := GdeNoEvent;
    }

    /** Lift the breakpoint at `ea`, if any. */
    method Lift(ea: Addr)
      modifies this
      ensures State() == Resume.Lift(old(State()), ea)
    {
      if agent.HasBp(ea) {
        continueFromBp := true;
        agent := agent.ClearBreakPoint(ea);
      }
    }

    /** Disarm the watchpoint and plant step breakpoints as a step into would. */
    method StepOffWatch(view: Stepping.ThreadView)
      modifies this
      ensures State() == Resume.StepOffWatch(old(State()), view)
    {
      agent := agent.SetDabr(Or32(dabrAddr, DABR_OFF));
      DoStep(0, view);
    }

    /** The part of continue_after_event after the target has been resumed. */
    method AfterResume(e: DebugEvent, planted: set<Addr>, rearm: bool)
      modifies this
      ensures State() == Resume.AfterResume(old(State()), e, planted, rearm)
    {
      if rearm {
        agent := agent.SetBreakPoint(e.ea);
      }
      if Resume.IsDabrHit(State(), e) {
        agent := agent.SetDabr(Or32(dabrAddr, dabrType as U32));
        RemoveThreadBpts(planted);
        agent := agent.Continue();
      }
    }

    /** Resuming from a BREAKPOINT event. As written (`fixed` false) the
        lifted breakpoint is put back whenever continue_from_bp is set; the
        corrected version (`fixed` true) puts it back only when this call
        lifted it. */
    method ContinueFromBreakpoint(e: DebugEvent, view: Stepping.ThreadView, fixed: bool)
      requires e.payload.Breakpoint?
      modifies this
      ensures var b := Resume.BeforeResume(old(State()), e, view);
        var c := b.(agent := b.agent.Continue());
        var rearm := if fixed then old(agent).HasBp(e.ea) else c.continueFromBp;
        State() == Resume.AfterResume(c, e, b.stepBpts - old(stepBpts), rearm)
    {
      var orig := stepBpts;
      var lifted := agent.HasBp(e.ea);
      Lift(e.ea);
      if e.payload.hea == dabrAddr {
        StepOffWatch(view);
      }
      var planted := stepBpts - orig;
      agent := agent.Continue();
      AfterResume(e, planted, if fixed then lifted else continueFromBp);
    }

    /** continue_after_event: as written when `fixed` is false, corrected when
        it is true; `view` is what the agent reports about the event's thread. */
    method ContinueAfterEvent(ev: Option<DebugEvent>, view: Stepping.ThreadView, fixed: bool) returns (ok: bool)
      modifies this
      ensures var c := Resume.ContinueWith(old(State()), ev, view, fixed);
        State() == c.g && ok == c.ok
    {
      if ev.None? {
        return false;
      }
      if !events.Empty() {
        return true;
      }
      var e := ev.value;
      if Resumes(e) {
        if e.payload.Breakpoint? {
          ContinueFromBreakpoint(e, view, fixed);
        } else {
          agent := agent.Continue();
        }
      }
      last := None;
      return true;
    }
  }
}
