/** Single-stepping: how get_branch_target resolves a branch's destination,
    where do_step plants its transient breakpoints, how remove_thread_bpts
    takes them away again, and thread_set_step around them. */
module Stepping {
  import opened Words
  import opened Wrappers
  import opened Remote
  import opened Shadow
  import opened State

  /** The host's running-notification values for a step request. */
  const STEP_INTO: int := 15
  const STEP_OVER: int := 16

  /** The decoder's instruction kinds do_step distinguishes; OtherInsn is every
      other kind. */
  datatype IType = PpcBalways | PpcBc | PpcBdnz | PpcBdz | PpcBlt | PpcBle | PpcBeq
                 | PpcBge | PpcBgt | PpcBne | PpcB | PpcBcctr | PpcBclr | OtherInsn

  /** One decoded operand: its processor-specific type, the low 16 bits of its
      value and its address field. */
  datatype Operand = Operand(otype: int, valueLow: int, addr: Addr)

  /** The decoder's fixed operand array. */
  type Operands = s: seq<Operand> | |s| == 6 witness seq(6, _ => Operand(0, 0, 0))

  /** A decoded instruction; `auxprefLow` is the low byte of its auxiliary flags. */
  datatype Insn = Insn(itype: IType, auxprefLow: int, ops: Operands)

  /** What do_step learns about the thread: its pc, the instruction there if the
      host's decoder recognises one, and the link and count registers. */
  datatype ThreadView = ThreadView(pc: Addr, insn: Option<Insn>, lr: Addr, ctr: Addr)

  datatype Target = Target(addr: Addr, link: bool)

  /** Whether the instruction's operands name the link or the count register
      as the branch destination. */
  predicate RegisterOperand(insn: Insn) {
    (insn.ops[0].otype == 0x0B || insn.ops[0].otype == 0x0C) && insn.ops[1].otype == 0x08
  }

  /** get_branch_target: the destination of a branch, read from LR or CTR when
      the operands say so, otherwise from operand `operand`, or none. */
  function GetBranchTarget(insn: Insn, operand: int, lr: Addr, ctr: Addr): (r: Target)
    requires -1 <= operand < 6
    ensures r.link <==> insn.auxprefLow == 0x08
    ensures RegisterOperand(insn) && insn.ops[1].valueLow == 0x08 ==> r.addr == lr
    ensures RegisterOperand(insn) && insn.ops[1].valueLow == 0x09 ==> r.addr == ctr
    ensures !(RegisterOperand(insn) && insn.ops[1].valueLow in {0x08, 0x09}) ==>
              r.addr == (if operand >= 0 then insn.ops[operand].addr else BADADDR)
  {
    var link := insn.auxprefLow == 0x08;
    if RegisterOperand(insn) && insn.ops[1].valueLow == 0x08 then Target(lr, link)
    else if RegisterOperand(insn) && insn.ops[1].valueLow == 0x09 then Target(ctr, link)
    else if 0 <= operand then Target(insn.ops[operand].addr, link)
    else Target(BADADDR, link)
  }

  /** The two candidate addresses do_step computes and whether the second is
      to be skipped. */
  datatype Plan = Plan(next: Addr, resolved: Addr, stepOver: bool)

  predicate IsConditional(t: IType) {
    t in {PpcBdnz, PpcBdz, PpcBlt, PpcBle, PpcBeq, PpcBge, PpcBgt, PpcBne}
  }

  /** The address arithmetic of do_step. */
  function StepPlan(notification: int, view: ThreadView): Plan {
    var stepOver := notification == STEP_OVER;
    var fallthrough := Add32(view.pc, 4);
    match view.insn
    case None => Plan(fallthrough, BADADDR, stepOver)
    case Some(insn) =>
      match insn.itype
      case PpcBalways =>
        var t := GetBranchTarget(insn, -1, view.lr, view.ctr);
        if !t.link then Plan(t.addr, BADADDR, stepOver) else Plan(fallthrough, t.addr, stepOver)
      case PpcB =>
        var t := GetBranchTarget(insn, 0, view.lr, view.ctr);
        if !t.link then Plan(t.addr, BADADDR, stepOver) else Plan(fallthrough, t.addr, stepOver)
      case PpcBc =>
        var t := GetBranchTarget(insn, 2, view.lr, view.ctr);
        Plan(fallthrough, t.addr, stepOver && t.link)
      case PpcBcctr | PpcBclr =>
        var t := GetBranchTarget(insn, -1, view.lr, view.ctr);
        Plan(fallthrough, t.addr, stepOver)
      case OtherInsn => Plan(fallthrough, BADADDR, stepOver)
      case _ =>
        var t := GetBranchTarget(insn, 1, view.lr, view.ctr);
        Plan(fallthrough, t.addr, stepOver && t.link)
  }

  /** The addresses a plan puts breakpoints on. */
  function Armed(p: Plan): set<Addr> {
    (if p.next != BADADDR then {p.next} else {}) +
    (if p.resolved != BADADDR && !p.stepOver then {p.resolved} else {})
  }

  /** Plant one transient step breakpoint. */
  function Arm(g: Globals, a: Addr): Globals {
    var p := Patch(g.shadow, g.agent, a);
    g.(shadow := p.shadow, agent := p.agent, stepBpts := g.stepBpts + {a})
  }

  /** do_step: plant the step breakpoints of the plan, the fall-through one first. */
  function DoStep(g: Globals, notification: int, view: ThreadView): Globals {
    ArmPlan(g, StepPlan(notification, view))
  }

  function ArmPlan(g: Globals, p: Plan): Globals {
    var g1 := if p.next != BADADDR then Arm(g, p.next) else g;
    if p.resolved != BADADDR && !p.stepOver then Arm(g1, p.resolved) else g1
  }

  datatype StepResult = StepResult(g: Globals, result: int)

  /** thread_set_step: step only when the host's running notification is a
      step request, and then mark the session as single-stepping. */
  function ThreadSetStep(g: Globals, notification: int, view: ThreadView): StepResult {
    if notification == STEP_INTO || notification == STEP_OVER then
      StepResult(DoStep(g, notification, view).(singlestep := true), 1)
    else StepResult(g, 0)
  }

  /** remove_thread_bpts: clear every address of `s` that is not a user
      breakpoint, with its shadow entry. */
  function RemoveThreadBpts(g: Globals, s: set<Addr>): Globals {
    var gone := s - g.mainBpts;
    g.(shadow := g.shadow - gone, agent := g.agent.(bps := g.agent.bps - gone))
  }

  // ---------------------------------------------------------------------------
  // Where do_step plants breakpoints

  /** Stepping over a call (a branch with link, to a known address) plants only
      the return address; stepping into it plants the call target too. */
  lemma StepOverCall(view: ThreadView, insn: Insn)
    requires view.insn == Some(insn) && insn.auxprefLow == 0x08
    requires insn.itype in {PpcB, PpcBalways, PpcBc, PpcBcctr, PpcBclr} || IsConditional(insn.itype)
    ensures Armed(StepPlan(STEP_OVER, view)) == {Add32(view.pc, 4)} - {BADADDR}
    ensures StepPlan(STEP_INTO, view).next == Add32(view.pc, 4)
    ensures var t := StepPlan(STEP_INTO, view).resolved;
      t != BADADDR ==> Armed(StepPlan(STEP_INTO, view)) == {Add32(view.pc, 4), t} - {BADADDR}
  {
  }

  /** An unconditional branch without link is followed: only its target is
      planted, on step into and step over alike. */
  lemma JumpFollowed(notification: int, view: ThreadView, insn: Insn)
    requires view.insn == Some(insn) && insn.auxprefLow != 0x08
    requires insn.itype == PpcB || insn.itype == PpcBalways
    ensures var t := GetBranchTarget(insn, if insn.itype == PpcB then 0 else -1, view.lr, view.ctr).addr;
      Armed(StepPlan(notification, view)) == {t} - {BADADDR}
  {
  }

  /** A conditional branch without link plants both the fall-through and the
      target, even on step over, since either may be taken. */
  lemma ConditionalPlantsBoth(notification: int, view: ThreadView, insn: Insn)
    requires view.insn == Some(insn) && insn.auxprefLow != 0x08
    requires insn.itype == PpcBc || IsConditional(insn.itype)
    ensures var t := StepPlan(notification, view).resolved;
      Armed(StepPlan(notification, view)) == {Add32(view.pc, 4), t} - {BADADDR}
    ensures !RegisterOperand(insn) ==>
      StepPlan(notification, view).resolved == insn.ops[if insn.itype == PpcBc then 2 else 1].addr
  {
  }

  /** An instruction that is not a branch, or one the decoder does not
      recognise, plants only the next word. */
  lemma NonBranchPlantsNext(notification: int, view: ThreadView)
    requires view.insn.None? || view.insn.value.itype == OtherInsn
    ensures Armed(StepPlan(notification, view)) == {Add32(view.pc, 4)} - {BADADDR}
  {
  }

  /** read_pc_register answers BADADDR when the register read fails; with
      nothing decoded there, do_step plants its breakpoint at the wrapped
      fall-through address 3. */
  lemma FailedPcReadPlantsAtThree(notification: int, view: ThreadView)
    requires view.pc == BADADDR && view.insn.None?
    ensures StepPlan(notification, view).next == 3
    ensures Armed(StepPlan(notification, view)) == {3}
  {
  }

  /** A linked branch through CTR or LR on step into plants the register's value. */
  lemma RegisterBranchTarget(view: ThreadView, insn: Insn)
    requires view.insn == Some(insn) && (insn.itype == PpcBcctr || insn.itype == PpcBclr)
    requires RegisterOperand(insn)
    ensures insn.ops[1].valueLow == 0x08 ==> StepPlan(STEP_INTO, view).resolved == view.lr
    ensures insn.ops[1].valueLow == 0x09 ==> StepPlan(STEP_INTO, view).resolved == view.ctr
    ensures !(insn.ops[1].valueLow in {0x08, 0x09}) ==> StepPlan(STEP_INTO, view).resolved == BADADDR
  {
  }

  // ---------------------------------------------------------------------------
  // What do_step does to the state

  lemma ArmEffect(g: Globals, a: Addr)
    requires ShadowInv(g.shadow, g.agent)
    ensures var r := Arm(g, a);
      && ShadowInv(r.shadow, r.agent) && (Inv(g) ==> Inv(r))
      && r.agent.bps == g.agent.bps + {a} && r.stepBpts == g.stepBpts + {a}
      && r.agent.code == g.agent.code && r.agent.dabr == g.agent.dabr
      && r.agent.running == g.agent.running && r.agent.resumes == g.agent.resumes
      && r.shadow - {a} == g.shadow - {a}
      && KeepsRecorded(g.shadow, r.shadow, g.agent.code)
      && r.mainBpts == g.mainBpts && r.queue == g.queue
      && r.dabrIsSet == g.dabrIsSet && r.dabrAddr == g.dabrAddr && r.dabrType == g.dabrType
  {
  }

  /** do_step inserts exactly the planned breakpoints, records them as step
      breakpoints, keeps the invariants, and touches nothing else; every shadow
      entry it changes is at a planted address. */
  lemma DoStepEffect(g: Globals, notification: int, view: ThreadView)
    requires ShadowInv(g.shadow, g.agent)
    ensures var r := DoStep(g, notification, view);
      var armed := Armed(StepPlan(notification, view));
      && ShadowInv(r.shadow, r.agent) && (Inv(g) ==> Inv(r))
      && r.agent.bps == g.agent.bps + armed
      && r.stepBpts == g.stepBpts + armed
      && r.shadow - armed == g.shadow - armed
      && KeepsRecorded(g.shadow, r.shadow, g.agent.code)
      && r.agent.code == g.agent.code && r.agent.dabr == g.agent.dabr
      && r.agent.running == g.agent.running && r.agent.resumes == g.agent.resumes
      && r.mainBpts == g.mainBpts && r.queue == g.queue && r.singlestep == g.singlestep
      && r.dabrIsSet == g.dabrIsSet && r.dabrAddr == g.dabrAddr && r.dabrType == g.dabrType
      && r.continueFromBp == g.continueFromBp
  {
    ArmPlanEffect(g, StepPlan(notification, view));
  }

  lemma ArmPlanEffect(g: Globals, p: Plan)
    requires ShadowInv(g.shadow, g.agent)
    ensures var r := ArmPlan(g, p);
      var armed := Armed(p);
      && ShadowInv(r.shadow, r.agent) && (Inv(g) ==> Inv(r))
      && r.agent.bps == g.agent.bps + armed
      && r.stepBpts == g.stepBpts + armed
      && r.shadow - armed == g.shadow - armed
      && KeepsRecorded(g.shadow, r.shadow, g.agent.code)
      && r.agent.code == g.agent.code && r.agent.dabr == g.agent.dabr
      && r.agent.running == g.agent.running && r.agent.resumes == g.agent.resumes
      && r.mainBpts == g.mainBpts && r.queue == g.queue && r.singlestep == g.singlestep
      && r.dabrIsSet == g.dabrIsSet && r.dabrAddr == g.dabrAddr && r.dabrType == g.dabrType
      && r.continueFromBp == g.continueFromBp
  {
    var armed := Armed(p);
    var g1 := if p.next != BADADDR then Arm(g, p.next) else g;
    if p.next != BADADDR {
      ArmEffect(g, p.next);
      MinusWider(g1.shadow, g.shadow, p.next, armed);
    }
    var r := ArmPlan(g, p);
    if p.resolved != BADADDR && !p.stepOver {
      ArmEffect(g1, p.resolved);
      MinusWider(r.shadow, g1.shadow, p.resolved, armed);
    }
  }

  /** Maps that agree away from `a` agree away from any set holding `a`. */
  lemma MinusWider(m1: map<Addr, Word>, m2: map<Addr, Word>, a: Addr, s: set<Addr>)
    requires m1 - {a} == m2 - {a} && a in s
    ensures m1 - s == m2 - s
  {
    forall x | x !in s
      ensures (x in m1 <==> x in m2) && (x in m1 ==> m1[x] == m2[x])
    {
      assert x in m1 - {a} <==> x in m1;
      assert x in m2 - {a} <==> x in m2;
      if x in m1 { assert (m1 - {a})[x] == m1[x]; assert (m2 - {a})[x] == m2[x]; }
    }
  }

  /** With the invariant, every planted address still reads through the shadow
      as the program's own word (unless that word is itself the trap). */
  lemma StepMasked(g: Globals, notification: int, view: ThreadView, a: Addr)
    requires Inv(g) && g.agent.CodeAt(a) != TRAP
    ensures var r := DoStep(g, notification, view); MaskedRead(r.shadow, r.agent, a) == g.agent.CodeAt(a)
  {
    DoStepEffect(g, notification, view);
  }

  /** thread_set_step steps, and marks single-stepping, exactly on a step request. */
  lemma ThreadSetStepCases(g: Globals, notification: int, view: ThreadView)
    ensures var r := ThreadSetStep(g, notification, view);
      && (r.result == 1 <==> notification in {STEP_INTO, STEP_OVER})
      && (r.result == 1 ==> r.g == DoStep(g, notification, view).(singlestep := true))
      && (r.result == 0 ==> r.g == g)
  {
  }

  // ---------------------------------------------------------------------------
  // remove_thread_bpts

  /** remove_thread_bpts keeps the invariant and every user breakpoint, and
      leaves none of the other addresses inserted. */
  lemma RemoveThreadBptsEffect(g: Globals, s: set<Addr>)
    ensures var r := RemoveThreadBpts(g, s);
      && (Inv(g) ==> Inv(r))
      && (forall a :: a in g.mainBpts ==> (a in r.agent.bps <==> a in g.agent.bps))
      && (forall a :: a in s && a !in g.mainBpts ==> a !in r.agent.bps && a !in r.shadow)
      && (forall a :: a !in s ==> (a in r.agent.bps <==> a in g.agent.bps))
      && r.mainBpts == g.mainBpts && r.stepBpts == g.stepBpts
  {
    if Inv(g) {
      UnpatchKeepsInv(g.shadow, g.agent, s - g.mainBpts);
    }
  }

  /** A step followed by removal of its step breakpoints leaves the target
      with the breakpoints it had (less any planted address that is not a user
      breakpoint, plus any user breakpoint a step landed on), and with the
      shadow entries of the other addresses as they were. */
  lemma StepThenRemove(g: Globals, notification: int, view: ThreadView)
    requires Inv(g) && g.stepBpts == {}
    ensures var r := DoStep(g, notification, view);
      var armed := Armed(StepPlan(notification, view));
      var back := RemoveThreadBpts(r, r.stepBpts);
      && Inv(back)
      && back.agent.bps == g.agent.bps - (armed - g.mainBpts) + (armed * g.mainBpts)
      && back.agent.code == g.agent.code
      && back.shadow - armed == g.shadow - armed
      && (forall a :: a in armed - g.mainBpts ==> a !in back.shadow && a !in back.agent.bps)
  {
    DoStepEffect(g, notification, view);
    var r := DoStep(g, notification, view);
    RemoveThreadBptsEffect(r, r.stepBpts);
  }
}
