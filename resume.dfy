/** Handing events to the host and resuming after them: get_debug_event and
    continue_after_event. continue_after_event steps past a breakpoint by
    lifting it while the target resumes, and past a watchpoint hit by
    disarming the DABR, planting step breakpoints and re-arming. */
module Resume {
  import opened Words
  import opened Wrappers
  import opened Events
  import opened Remote
  import opened Shadow
  import opened State
  import opened Stepping
  import Translator

  datatype Fetched = Fetched(g: Globals, code: Gde, event: Option<DebugEvent>)

  /** get_debug_event. `hasBuffer` is false when the host passes no event
      buffer. The scratch slot is cleared and the oldest pending event, if
      any, is handed out; an attach event ends the attaching phase. */
  function GetDebugEvent(g: Globals, hasBuffer: bool): (r: Fetched)
    ensures !hasBuffer ==> r == Fetched(g, GdeNoEvent, None)
    ensures hasBuffer && g.queue == [] ==> r == Fetched(g.(last := None), GdeNoEvent, None)
    ensures hasBuffer && g.queue != [] ==>
      && r.event == Some(g.queue[0]) && r.g.queue == g.queue[1..]
      && (r.code == GdeOneEvent <==> |g.queue| == 1)
      && (r.code == GdeManyEvents <==> |g.queue| > 1)
      && r.g.attaching == (g.attaching && !g.queue[0].payload.ProcessAttach?)
      && r.g == g.(queue := r.g.queue, last := None, attaching := r.g.attaching)
  {
    if !hasBuffer then Fetched(g, GdeNoEvent, None)
    else
      var g1 := g.(last := None);
      if g1.queue == [] then Fetched(g1, GdeNoEvent, None)
      else
        var ev := g1.queue[0];
        var g2 := g1.(queue := g1.queue[1..]);
        var g3 := if ev.payload.ProcessAttach? then g2.(attaching := false) else g2;
        Fetched(g3, if g3.queue == [] then GdeOneEvent else GdeManyEvents, Some(ev))
  }

  /** Draining the queue with get_debug_event hands the events out in the
      order they were queued. */
  lemma {:induction false} DrainInOrder(g: Globals, n: nat)
    requires n <= |g.queue|
    ensures Drain(g, n) == g.queue[..n]
    decreases n
  {
    if n > 0 {
      var r := GetDebugEvent(g, true);
      DrainInOrder(r.g, n - 1);
      assert g.queue[..n] == [g.queue[0]] + g.queue[1..][..n - 1];
    }
  }

  /** The events `n` calls of get_debug_event hand out. */
  function Drain(g: Globals, n: nat): seq<DebugEvent>
    requires n <= |g.queue|
    decreases n
  {
    if n == 0 then []
    else
      var r := GetDebugEvent(g, true);
      [r.event.value] + Drain(r.g, n - 1)
  }

  /** Whether the BREAKPOINT event was raised by the watchpoint: its hardware
      address is the watched address. */
  predicate IsDabrHit(g: Globals, ev: DebugEvent) {
    ev.payload.Breakpoint? && ev.payload.hea == g.dabrAddr
  }

  /** The first half of continue_after_event for a BREAKPOINT event: lift the
      breakpoint at the event address if there is one, and on a watchpoint hit
      disarm the DABR and plant step breakpoints from the thread's position. */
  function BeforeResume(g: Globals, ev: DebugEvent, view: ThreadView): Globals {
    var g1 := Lift(g, ev.ea);
    if IsDabrHit(g, ev) then StepOffWatch(g1, view) else g1
  }

  /** Lift the breakpoint at `ea`, if any, noting that the next trap ends the
      continue from it; its shadow entry stays. */
  function Lift(g: Globals, ea: Addr): Globals {
    if g.agent.HasBp(ea) then g.(continueFromBp := true, agent := g.agent.ClearBreakPoint(ea)) else g
  }

  /** Disarm the watchpoint (address with the off bits) and plant step
      breakpoints as a step into would. */
  function StepOffWatch(g: Globals, view: ThreadView): Globals {
    DoStep(g.(agent := g.agent.SetDabr(Or32(g.dabrAddr, DABR_OFF))), 0, view)
  }

  /** The second half, after the target has been resumed: put the lifted
      breakpoint back (as written: whenever continue_from_bp is set), and on a
      watchpoint hit re-arm the DABR, remove the step breakpoints this call
      planted, and resume again. */
  function AfterResume(g: Globals, ev: DebugEvent, planted: set<Addr>, rearm: bool): Globals {
    var g1 := if rearm then g.(agent := g.agent.SetBreakPoint(ev.ea)) else g;
    if IsDabrHit(g1, ev) then
      var g2 := g1.(agent := g1.agent.SetDabr(Or32(g1.dabrAddr, g1.dabrType as U32)));
      var g3 := RemoveThreadBpts(g2, planted);
      g3.(agent := g3.agent.Continue())
    else g1
  }

  datatype Continued = Continued(g: Globals, ok: bool)

  /** continue_after_event as written. `view` is what the agent reports about
      the event's thread, used when stepping off a watchpoint hit. */
  function ContinueAfterEvent(g: Globals, ev: Option<DebugEvent>, view: ThreadView): Continued {
    ContinueWith(g, ev, view, false)
  }

  /** continue_after_event with the breakpoint put back only when this call
      lifted it. */
  function ContinueAfterEventFixed(g: Globals, ev: Option<DebugEvent>, view: ThreadView): Continued {
    ContinueWith(g, ev, view, true)
  }

  /** Both versions; `fixed` selects how the lifted breakpoint is put back. */
  function ContinueWith(g: Globals, ev: Option<DebugEvent>, view: ThreadView, fixed: bool): Continued {
    match ev
    case None => Continued(g, false)
    case Some(e) =>
      if g.queue != [] then Continued(g, true)
      else if !Resumes(e) then Continued(g.(last := None), true)
      else if !e.payload.Breakpoint? then
        Continued(g.(agent := g.agent.Continue(), last := None), true)
      else
        var b := BeforeResume(g, e, view);
        var planted := b.stepBpts - g.stepBpts;
        var c := b.(agent := b.agent.Continue());
        var rearm := if fixed then g.agent.HasBp(e.ea) else c.continueFromBp;
        Continued(AfterResume(c, e, planted, rearm).(last := None), true)
  }

  // ---------------------------------------------------------------------------
  // Properties

  /** Without an event there is nothing to do; with events still pending
      nothing is done at all (not even clearing the scratch slot); after an
      event that does not stop the target only the scratch slot is cleared. */
  lemma ContinueTrivialCases(g: Globals, ev: Option<DebugEvent>, view: ThreadView)
    ensures ev.None? ==> ContinueAfterEvent(g, ev, view) == Continued(g, false)
    ensures ev.Some? && g.queue != [] ==> ContinueAfterEvent(g, ev, view) == Continued(g, true)
    ensures ev.Some? && g.queue == [] && !Resumes(ev.value) ==>
              ContinueAfterEvent(g, ev, view) == Continued(g.(last := None), true)
  {
  }

  /** After attach, suspend and step events the target is resumed once, as it
      stands. */
  lemma ContinuePlain(g: Globals, e: DebugEvent, view: ThreadView)
    requires g.queue == [] && Resumes(e) && !e.payload.Breakpoint?
    ensures var r := ContinueAfterEvent(g, Some(e), view);
      && r.ok && r.g.agent.resumes == g.agent.resumes + [Resume(g.agent.bps, g.agent.dabr)]
      && r.g.agent.bps == g.agent.bps && r.g.agent.running
      && r.g == g.(agent := r.g.agent, last := None)
  {
  }

  /** Continuing from a software breakpoint: the target resumes once with that
      breakpoint lifted, then it is put back; the next trap will be reported
      as a step (continue_from_bp is now set). */
  lemma ContinueFromSoftBreakpoint(g: Globals, e: DebugEvent, view: ThreadView)
    requires g.queue == [] && e.payload.Breakpoint? && e.payload.hea != g.dabrAddr
    requires e.ea in g.agent.bps
    ensures var r := ContinueAfterEvent(g, Some(e), view);
      && r.ok
      && r.g.agent.resumes == g.agent.resumes + [Resume(g.agent.bps - {e.ea}, g.agent.dabr)]
      && r.g.agent.bps == g.agent.bps && r.g.agent.running
      && r.g.continueFromBp
      && r.g == g.(agent := r.g.agent, continueFromBp := true, last := None)
  {
    assert g.agent.bps - {e.ea} + {e.ea} == g.agent.bps;
  }

  /** After continuing from a software breakpoint, the next trap the agent
      reports, wherever it is, reaches the host as STEP and consumes
      continue_from_bp, single-stepping or not. */
  lemma NextTrapAfterContinueIsStep(g: Globals, e: DebugEvent, view: ThreadView, tid: Tid, pc: Addr,
                                    lookup: U32 -> ModuleInfo)
    requires g.queue == [] && e.payload.Breakpoint? && e.payload.hea != g.dabrAddr
    requires e.ea in g.agent.bps
    ensures var r := ContinueAfterEvent(g, Some(e), view).g;
      var t := Translator.Act(r, Translator.DTrap(tid, pc), lookup);
      && t.queue == [DebugEvent(g.pid, tid, pc, true, Step)]
      && !t.continueFromBp && t.singlestep == g.singlestep
  {
    ContinueFromSoftBreakpoint(g, e, view);
    var r := ContinueAfterEvent(g, Some(e), view).g;
    Translator.TrapWhileStepping(r, tid, pc, lookup);
  }

  /** Continuing from a watchpoint hit: the target first resumes with the
      watchpoint disarmed and step breakpoints planted from the thread's
      position, then again with the watchpoint re-armed and those of the step
      breakpoints this call planted that are not user breakpoints removed.
      They stay listed as step breakpoints. */
  lemma ContinueFromWatchpoint(g: Globals, e: DebugEvent, view: ThreadView)
    requires ShadowInv(g.shadow, g.agent) && g.queue == []
    requires e.payload.Breakpoint? && e.payload.hea == g.dabrAddr
    requires e.ea !in g.agent.bps && !g.continueFromBp
    ensures var r := ContinueAfterEvent(g, Some(e), view);
      var armed := Armed(StepPlan(0, view));
      var planted := armed - g.stepBpts;
      && r.ok && ShadowInv(r.g.shadow, r.g.agent)
      && r.g.agent.resumes == g.agent.resumes + [
           Resume(g.agent.bps + armed, Or32(g.dabrAddr, DABR_OFF)),
           Resume(g.agent.bps + armed - (planted - g.mainBpts), Or32(g.dabrAddr, g.dabrType as U32))]
      && r.g.agent.dabr == Or32(g.dabrAddr, g.dabrType as U32)
      && (forall a :: a in planted && a !in g.mainBpts ==> a !in r.g.agent.bps && a !in r.g.shadow)
      && r.g.stepBpts == g.stepBpts + armed
      && !r.g.continueFromBp
  {
    var armed := Armed(StepPlan(0, view));
    LiftEffect(g, e.ea);
    var g1 := Lift(g, e.ea);
    assert g1 == g;
    StepOffWatchEffect(g1, view);
    var b := BeforeResume(g, e, view);
    assert b.stepBpts - g.stepBpts == armed - g.stepBpts;
    var c := b.(agent := b.agent.Continue());
    ShadowInvAgentSteps(b.shadow, b.agent, 0);
    AfterResumeEffect(c, e, b.stepBpts - g.stepBpts, false);
    assert c.agent.bps + {} == c.agent.bps;
  }

  /** Reprogramming the DABR, resuming, or lifting breakpoints and their
      shadow entries leaves the shadow invariant intact. */
  lemma ShadowInvAgentSteps(shadow: map<Addr, Word>, agent: Agent, v: U32)
    requires ShadowInv(shadow, agent)
    ensures ShadowInv(shadow, agent.SetDabr(v)) && ShadowInv(shadow, agent.Continue())
  {
    assert forall a :: agent.SetDabr(v).CodeAt(a) == agent.CodeAt(a) && agent.Continue().CodeAt(a) == agent.CodeAt(a);
  }

  lemma LiftEffect(g: Globals, ea: Addr)
    requires ShadowInv(g.shadow, g.agent)
    ensures var b := Lift(g, ea);
      && ShadowInv(b.shadow, b.agent)
      && b.shadow == g.shadow
      && b.agent == g.agent.(bps := g.agent.bps - (if g.agent.HasBp(ea) then {ea} else {}))
      && b == g.(agent := b.agent, continueFromBp := b.continueFromBp)
      && b.continueFromBp == (g.continueFromBp || g.agent.HasBp(ea))
  {
    UnpatchKeepsInv(g.shadow, g.agent, if g.agent.HasBp(ea) then {ea} else {});
    assert g.agent.bps - {} == g.agent.bps;
  }

  lemma StepOffWatchEffect(g: Globals, view: ThreadView)
    requires ShadowInv(g.shadow, g.agent)
    ensures var b := StepOffWatch(g, view);
      var armed := Armed(StepPlan(0, view));
      && ShadowInv(b.shadow, b.agent)
      && KeepsRecorded(g.shadow, b.shadow, g.agent.code)
      && b.agent.bps == g.agent.bps + armed
      && b.stepBpts == g.stepBpts + armed
      && b.agent.dabr == Or32(g.dabrAddr, DABR_OFF)
      && b.agent.code == g.agent.code && b.agent.resumes == g.agent.resumes
      && b.continueFromBp == g.continueFromBp
      && b.dabrIsSet == g.dabrIsSet && b.dabrAddr == g.dabrAddr && b.dabrType == g.dabrType
      && b.mainBpts == g.mainBpts && b.queue == g.queue
  {
    var g2 := g.(agent := g.agent.SetDabr(Or32(g.dabrAddr, DABR_OFF)));
    ShadowInvAgentSteps(g.shadow, g.agent, Or32(g.dabrAddr, DABR_OFF));
    DoStepEffect(g2, 0, view);
  }

  /** The second half, on a state whose shadow invariant holds and that still
      records the word under a breakpoint about to be put back. */
  lemma AfterResumeEffect(c: Globals, e: DebugEvent, planted: set<Addr>, rearm: bool)
    requires ShadowInv(c.shadow, c.agent)
    requires rearm && c.agent.CodeAt(e.ea) != TRAP ==> Recorded(c.shadow, c.agent.code, e.ea)
    ensures var r := AfterResume(c, e, planted, rearm);
      var put := if rearm then {e.ea} else {};
      && ShadowInv(r.shadow, r.agent)
      && (IsDabrHit(c, e) ==>
            && r.agent.dabr == Or32(c.dabrAddr, c.dabrType as U32)
            && r.agent.bps == c.agent.bps + put - (planted - c.mainBpts)
            && r.agent.resumes == c.agent.resumes + [Resume(r.agent.bps, r.agent.dabr)]
            && (forall a :: a in planted && a !in c.mainBpts ==> a !in r.shadow))
      && (!IsDabrHit(c, e) ==>
            && r.agent.dabr == c.agent.dabr && r.agent.bps == c.agent.bps + put
            && r.agent.resumes == c.agent.resumes && r.shadow == c.shadow)
      && r.agent.code == c.agent.code
      && r.dabrIsSet == c.dabrIsSet && r.dabrAddr == c.dabrAddr && r.dabrType == c.dabrType
      && r.mainBpts == c.mainBpts && r.stepBpts == c.stepBpts && r.queue == c.queue
      && r.continueFromBp == c.continueFromBp
  {
    var g1 := if rearm then c.(agent := c.agent.SetBreakPoint(e.ea)) else c;
    assert ShadowInv(g1.shadow, g1.agent);
    if IsDabrHit(g1, e) {
      var g2 := g1.(agent := g1.agent.SetDabr(Or32(g1.dabrAddr, g1.dabrType as U32)));
      ShadowInvAgentSteps(g1.shadow, g1.agent, Or32(g1.dabrAddr, g1.dabrType as U32));
      var g3 := RemoveThreadBpts(g2, planted);
      RemoveThreadBptsEffect(g2, planted);
      UnpatchKeepsInv(g2.shadow, g2.agent, planted - g2.mainBpts);
      ShadowInvAgentSteps(g3.shadow, g3.agent, 0);
    }
  }

  /** Where the version as written and the corrected one agree: whenever
      continue_from_bp is clear on entry or the event address holds a
      breakpoint. */
  lemma AgreeWithoutLeftover(g: Globals, ev: Option<DebugEvent>, view: ThreadView)
    requires ev.Some? && ev.value.payload.Breakpoint? ==> !g.continueFromBp || g.agent.HasBp(ev.value.ea)
    ensures ContinueAfterEvent(g, ev, view) == ContinueAfterEventFixed(g, ev, view)
  {
    if ev.Some? && g.queue == [] && Resumes(ev.value) && ev.value.payload.Breakpoint? {
      var e := ev.value;
      BeforeResumeFlag(g, e, view);
    }
  }

  lemma BeforeResumeFlag(g: Globals, e: DebugEvent, view: ThreadView)
    ensures BeforeResume(g, e, view).continueFromBp == (g.continueFromBp || g.agent.HasBp(e.ea))
  {
    var g1 := Lift(g, e.ea);
    if IsDabrHit(g, e) {
      var h := g1.(agent := g1.agent.SetDabr(Or32(g1.dabrAddr, DABR_OFF)));
      ArmPlanFlag(h, StepPlan(0, view));
    }
  }

  lemma ArmPlanFlag(g: Globals, p: Plan)
    ensures ArmPlan(g, p).continueFromBp == g.continueFromBp
  {
  }

  /** The corrected continue_after_event keeps the shadow and watchpoint
      invariants for every event. */
  lemma FixedKeepsInv(g: Globals, ev: Option<DebugEvent>, view: ThreadView)
    requires Inv(g)
    ensures Inv(ContinueAfterEventFixed(g, ev, view).g)
  {
    if ev.Some? && g.queue == [] && Resumes(ev.value) {
      var e := ev.value;
      if !e.payload.Breakpoint? {
        ShadowInvAgentSteps(g.shadow, g.agent, 0);
      } else {
        BreakpointContinueKeepsInv(g, e, view);
      }
    }
  }

  lemma BreakpointContinueKeepsInv(g: Globals, e: DebugEvent, view: ThreadView)
    requires Inv(g) && g.queue == [] && e.payload.Breakpoint?
    ensures Inv(ContinueAfterEventFixed(g, Some(e), view).g)
  {
    LiftEffect(g, e.ea);
    var g1 := Lift(g, e.ea);
    if IsDabrHit(g, e) { StepOffWatchEffect(g1, view); }
    var b := BeforeResume(g, e, view);
    assert ShadowInv(b.shadow, b.agent) && KeepsRecorded(g.shadow, b.shadow, g.agent.code);
    assert b.agent.code == g.agent.code;
    assert b.dabrAddr == g.dabrAddr && b.dabrType == g.dabrType && b.dabrIsSet == g.dabrIsSet;
    assert !IsDabrHit(g, e) ==> b.agent.dabr == g.agent.dabr;
    var c := b.(agent := b.agent.Continue());
    ShadowInvAgentSteps(b.shadow, b.agent, 0);
    var rearm := g.agent.HasBp(e.ea);
    if rearm && g.agent.CodeAt(e.ea) != TRAP {
      assert Recorded(g.shadow, g.agent.code, e.ea);
      assert Recorded(c.shadow, c.agent.code, e.ea);
    }
    var planted := b.stepBpts - g.stepBpts;
    AfterResumeEffect(c, e, planted, rearm);
    var r := AfterResume(c, e, planted, rearm);
    assert WatchInv(r);
    assert ContinueAfterEventFixed(g, Some(e), view).g == r.(last := None);
  }

  /** The version as written keeps the invariants in the same cases. */
  lemma AsWrittenKeepsInv(g: Globals, ev: Option<DebugEvent>, view: ThreadView)
    requires Inv(g)
    requires ev.Some? && ev.value.payload.Breakpoint? ==> !g.continueFromBp || g.agent.HasBp(ev.value.ea)
    ensures Inv(ContinueAfterEvent(g, ev, view).g)
  {
    AgreeWithoutLeftover(g, ev, view);
    FixedKeepsInv(g, ev, view);
  }

  /** Continuing from a watchpoint hit at a word that holds no breakpoint,
      has no shadow entry and is not where the step lands, while
      continue_from_bp is left over: the version as written leaves a
      breakpoint there without a shadow entry, so the invariant breaks and
      read_memory shows zeros there; the corrected version inserts none. */
  lemma LeftoverRearm(g: Globals, e: DebugEvent, view: ThreadView)
    requires ShadowInv(g.shadow, g.agent) && g.queue == [] && IsDabrHit(g, e)
    requires g.continueFromBp && e.ea !in g.agent.bps && e.ea !in g.shadow
    requires e.ea !in Armed(StepPlan(0, view))
    ensures var r := ContinueAfterEvent(g, Some(e), view).g;
      && e.ea in r.agent.bps && e.ea !in r.shadow && r.agent.code == g.agent.code
      && (g.agent.CodeAt(e.ea) != TRAP ==> !ShadowInv(r.shadow, r.agent))
      && MaskedRead(r.shadow, r.agent, e.ea) == ZERO
    ensures e.ea !in ContinueAfterEventFixed(g, Some(e), view).g.agent.bps
  {
    var armed := Armed(StepPlan(0, view));
    LiftEffect(g, e.ea);
    assert Lift(g, e.ea) == g;
    StepOffWatchEffect(g, view);
    DoStepEffect(g.(agent := g.agent.SetDabr(Or32(g.dabrAddr, DABR_OFF))), 0, view);
    var b := BeforeResume(g, e, view);
    assert e.ea !in b.shadow;
    var planted := b.stepBpts - g.stepBpts;
    var c := b.(agent := b.agent.Continue());
    var g1 := c.(agent := c.agent.SetBreakPoint(e.ea));
    var g2 := g1.(agent := g1.agent.SetDabr(Or32(g1.dabrAddr, g1.dabrType as U32)));
    RemoveThreadBptsEffect(g2, planted);
    var h2 := c.(agent := c.agent.SetDabr(Or32(c.dabrAddr, c.dabrType as U32)));
    RemoveThreadBptsEffect(h2, planted);
  }

  /** An instance: a write watchpoint on `w` set, the program's word `code`
      at 0x1000 not the trap, and continue_from_bp left set by a continue from
      a software breakpoint. The watchpoint hit at 0x1000 leaves a trap there
      with no shadow entry, though the invariant held before; the corrected
      version leaves 0x1000 free. */
  lemma StrayBreakpoint(code: Word, w: Addr)
    requires code != TRAP && code != ZERO
    ensures var agent := Agent(map[0x1000 := code], {}, Or32(w, DABR_WRITE as U32), false, []);
      var g := Globals({}, {}, map[], false, true, false, true, w, DABR_WRITE, map[], None, 1, agent, []);
      var e := DebugEvent(1, Thread(1), 0x1000, true, Breakpoint(w, BADADDR));
      var view := ThreadView(0x1000, None, 0, 0);
      var r := ContinueAfterEvent(g, Some(e), view).g;
      && Inv(g)
      && 0x1000 in r.agent.bps && 0x1000 !in r.shadow
      && !Inv(r)
      && MaskedRead(r.shadow, r.agent, 0x1000) == ZERO != code
      && 0x1000 !in ContinueAfterEventFixed(g, Some(e), view).g.agent.bps
  {
    var agent := Agent(map[0x1000 := code], {}, Or32(w, DABR_WRITE as U32), false, []);
    var g := Globals({}, {}, map[], false, true, false, true, w, DABR_WRITE, map[], None, 1, agent, []);
    var e := DebugEvent(1, Thread(1), 0x1000, true, Breakpoint(w, BADADDR));
    var view := ThreadView(0x1000, None, 0, 0);
    NonBranchPlantsNext(0, view);
    assert Add32(0x1000, 4) == 0x1004;
    LeftoverRearm(g, e, view);
  }
}
