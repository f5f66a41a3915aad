/** The breakpoint manager: the feasibility check is_ok_bpt and the per-entry
    effect of update_bpts, for software breakpoints (with shadow words) and the
    single hardware watchpoint. */
module Breakpoints {
  import opened Words
  import opened Remote
  import opened Shadow
  import opened State

  /** The host's breakpoint types; BptOtherType stands for every other value
      (read-only watchpoints included). */
  datatype BptType = BptSoft | BptExec | BptWrite | BptRdWr | BptOtherType

  /** The host's feasibility codes; BptOtherCode stands for every other value. */
  datatype BptCode = BptOk | BptBadType | BptBadAlign | BptTooMany | BptOtherCode

  /** is_ok_bpt. `len` is accepted and never consulted. */
  function IsOkBpt(btype: BptType, ea: Addr, len: int, dabrIsSet: bool): BptCode {
    match btype
    case BptSoft => BptOk
    case BptExec => BptBadType
    case BptWrite | BptRdWr =>
      if ea % 8 != 0 then BptBadAlign
      else if !dabrIsSet then BptOk
      else BptTooMany
    case BptOtherType => BptBadType
  }

  /** One entry of the array update_bpts receives (`update_bpt_info_t`). */
  datatype UpdateBptInfo = UpdateBptInfo(ea: Addr, orgbytes: seq<Byte>, btype: BptType, size: int, code: BptCode)

  /** The effect of one entry: the new state, the entry as written back, and
      whether it adds to the returned count. */
  datatype Applied = Applied(g: Globals, entry: UpdateBptInfo, counted: bool)

  /** Resume the target after reprogramming the DABR unless the thread was stopped. */
  function ResumeUnlessStopped(agent: Agent, stopped: bool): Agent {
    if stopped then agent else agent.Continue()
  }

  /** Arm the watchpoint slot for `e` with access bits `kind`, or refuse. */
  function AddWatch(g: Globals, e: UpdateBptInfo, kind: U8, stopped: bool): Applied {
    if !g.dabrIsSet then
      var agent := ResumeUnlessStopped(g.agent.Stop().SetDabr(Or32(e.ea, kind as U32)), stopped);
      Applied(g.(agent := agent, dabrAddr := e.ea, dabrType := kind, dabrIsSet := true), e.(code := BptOk), true)
    else
      Applied(g, e.(code := BptTooMany), false)
  }

  /** One entry of the add loop of update_bpts. */
  function AddOne(g: Globals, e: UpdateBptInfo, stopped: bool): Applied {
    if e.code != BptOk then Applied(g, e, false)
    else
      match e.btype
      case BptSoft | BptExec =>
        var p := Patch(g.shadow, g.agent, e.ea);
        Applied(g.(shadow := p.shadow, agent := p.agent, mainBpts := g.mainBpts + {e.ea}),
                e.(orgbytes := p.word, code := BptOk), true)
      case BptWrite => AddWatch(g, e, DABR_WRITE, stopped)
      case BptRdWr => AddWatch(g, e, DABR_RDWR, stopped)
      case BptOtherType => Applied(g, e, false)
  }

  /** One entry of the delete loop of update_bpts; every delete is counted. */
  function DelOne(g: Globals, e: UpdateBptInfo, stopped: bool): Applied {
    match e.btype
    case BptSoft | BptExec =>
      Applied(g.(agent := g.agent.ClearBreakPoint(e.ea), mainBpts := g.mainBpts - {e.ea}, shadow := g.shadow - {e.ea}),
              e.(code := BptOk, orgbytes := []), true)
    case BptWrite | BptRdWr =>
      var agent := ResumeUnlessStopped(g.agent.Stop().SetDabr(Or32(e.ea, DABR_OFF)), stopped);
      Applied(g.(dabrIsSet := false, dabrAddr := 0, agent := agent), e.(code := BptOk), true)
    case BptOtherType => Applied(g, e.(code := BptOk), true)
  }

  datatype Batch = Batch(g: Globals, entries: seq<UpdateBptInfo>, count: int)

  /** The add loop of update_bpts: the entries handled in order, each seeing
      the state the previous ones left. */
  function FoldAdds(g: Globals, es: seq<UpdateBptInfo>, stopped: bool): Batch
    decreases |es|
  {
    if es == [] then Batch(g, [], 0)
    else
      var b := FoldAdds(g, es[..|es| - 1], stopped);
      var a := AddOne(b.g, es[|es| - 1], stopped);
      Batch(a.g, b.entries + [a.entry], b.count + if a.counted then 1 else 0)
  }

  /** The delete loop of update_bpts. */
  function FoldDels(g: Globals, es: seq<UpdateBptInfo>, stopped: bool): Batch
    decreases |es|
  {
    if es == [] then Batch(g, [], 0)
    else
      var b := FoldDels(g, es[..|es| - 1], stopped);
      var a := DelOne(b.g, es[|es| - 1], stopped);
      Batch(a.g, b.entries + [a.entry], b.count + if a.counted then 1 else 0)
  }

  /** One more entry of the add loop. */
  lemma FoldAddsStep(g: Globals, es: seq<UpdateBptInfo>, i: nat, stopped: bool)
    requires i < |es|
    ensures var b := FoldAdds(g, es[..i], stopped);
      var a := AddOne(b.g, es[i], stopped);
      FoldAdds(g, es[..i + 1], stopped) == Batch(a.g, b.entries + [a.entry], b.count + if a.counted then 1 else 0)
  {
    assert es[..i + 1][..i] == es[..i];
  }

  /** One more entry of the delete loop. */
  lemma FoldDelsStep(g: Globals, es: seq<UpdateBptInfo>, i: nat, stopped: bool)
    requires i < |es|
    ensures var b := FoldDels(g, es[..i], stopped);
      var a := DelOne(b.g, es[i], stopped);
      FoldDels(g, es[..i + 1], stopped) == Batch(a.g, b.entries + [a.entry], b.count + if a.counted then 1 else 0)
  {
    assert es[..i + 1][..i] == es[..i];
  }

  /** update_bpts: the first `nadd` entries are adds, the next `ndel` deletes. */
  function UpdateBpts(g: Globals, es: seq<UpdateBptInfo>, nadd: nat, ndel: nat, stopped: bool): Batch
    requires nadd + ndel <= |es|
  {
    var a := FoldAdds(g, es[..nadd], stopped);
    var d := FoldDels(a.g, es[nadd..nadd + ndel], stopped);
    Batch(d.g, a.entries + d.entries + es[nadd + ndel..], a.count + d.count)
  }

  // ---------------------------------------------------------------------------
  // is_ok_bpt

  /** The classification of is_ok_bpt, case by case. */
  lemma IsOkBptCases(btype: BptType, ea: Addr, len: int, set_: bool)
    ensures btype == BptSoft ==> IsOkBpt(btype, ea, len, set_) == BptOk
    ensures btype == BptExec || btype == BptOtherType ==> IsOkBpt(btype, ea, len, set_) == BptBadType
    ensures (btype == BptWrite || btype == BptRdWr) && ea % 8 != 0 ==> IsOkBpt(btype, ea, len, set_) == BptBadAlign
    ensures (btype == BptWrite || btype == BptRdWr) && ea % 8 == 0 && set_ ==> IsOkBpt(btype, ea, len, set_) == BptTooMany
    ensures (btype == BptWrite || btype == BptRdWr) && ea % 8 == 0 && !set_ ==> IsOkBpt(btype, ea, len, set_) == BptOk
    ensures forall len' :: IsOkBpt(btype, ea, len', set_) == IsOkBpt(btype, ea, len, set_)
  {
  }

  /** A misaligned watchpoint is refused whatever the slot holds. */
  lemma MisalignedWatchRefused(btype: BptType, ea: Addr, len: int)
    requires btype == BptWrite || btype == BptRdWr
    requires ea % 8 != 0
    ensures IsOkBpt(btype, ea, len, true) == IsOkBpt(btype, ea, len, false) == BptBadAlign
  {
  }

  // ---------------------------------------------------------------------------
  // One entry

  /** An entry the host already marked as failing is skipped untouched. */
  lemma FailedEntrySkipped(g: Globals, e: UpdateBptInfo, stopped: bool)
    requires e.code != BptOk
    ensures AddOne(g, e, stopped) == Applied(g, e, false)
  {
  }

  /** A software (or execute) add records the word read, as shadow unless it is
      the trap, returns it as orgbytes and registers the address. An address
      already trapped keeps its shadow entry. */
  lemma SoftAdd(g: Globals, e: UpdateBptInfo, stopped: bool)
    requires e.code == BptOk && (e.btype == BptSoft || e.btype == BptExec)
    ensures var r := AddOne(g, e, stopped);
      && r.counted && r.entry.code == BptOk
      && r.entry.orgbytes == g.agent.ReadWord(e.ea)
      && r.g.mainBpts == g.mainBpts + {e.ea}
      && r.g.agent.bps == g.agent.bps + {e.ea}
      && (g.agent.ReadWord(e.ea) != TRAP ==> r.g.shadow == g.shadow[e.ea := g.agent.ReadWord(e.ea)])
      && (g.agent.ReadWord(e.ea) == TRAP ==> r.g.shadow == g.shadow)
      && (r.g.dabrIsSet, r.g.dabrAddr, r.g.dabrType) == (g.dabrIsSet, g.dabrAddr, g.dabrType)
  {
  }

  /** Adding a watchpoint while the slot is free arms it with access bits 6
      (write) or 7 (read/write). */
  lemma WatchAddWhenFree(g: Globals, e: UpdateBptInfo, stopped: bool)
    requires e.code == BptOk && (e.btype == BptWrite || e.btype == BptRdWr) && !g.dabrIsSet
    ensures var r := AddOne(g, e, stopped);
      var kind := if e.btype == BptWrite then DABR_WRITE else DABR_RDWR;
      && r.counted && r.entry.code == BptOk
      && r.g.dabrIsSet && r.g.dabrAddr == e.ea && r.g.dabrType == kind
      && r.g.agent.dabr == Or32(e.ea, kind as U32)
      && r.g.agent.bps == g.agent.bps && r.g.shadow == g.shadow && r.g.mainBpts == g.mainBpts
  {
  }

  /** Adding a watchpoint while one is set fails with TOO_MANY and leaves the
      slot, the register and everything else as they were. */
  lemma WatchAddWhileSet(g: Globals, e: UpdateBptInfo, stopped: bool)
    requires e.code == BptOk && (e.btype == BptWrite || e.btype == BptRdWr) && g.dabrIsSet
    ensures AddOne(g, e, stopped) == Applied(g, e.(code := BptTooMany), false)
  {
  }

  /** Deleting a watchpoint frees the slot. */
  lemma WatchDelete(g: Globals, e: UpdateBptInfo, stopped: bool)
    requires e.btype == BptWrite || e.btype == BptRdWr
    ensures var r := DelOne(g, e, stopped);
      && !r.g.dabrIsSet && r.g.dabrAddr == 0 && r.g.dabrType == g.dabrType
      && r.g.agent.dabr == Or32(e.ea, DABR_OFF) && r.counted && r.entry.code == BptOk
  {
  }

  /** After a watchpoint is deleted, one at any other address can be added. */
  lemma WatchDeleteThenAdd(g: Globals, d: UpdateBptInfo, e: UpdateBptInfo, stopped: bool)
    requires d.btype == BptWrite || d.btype == BptRdWr
    requires e.code == BptOk && (e.btype == BptWrite || e.btype == BptRdWr)
    ensures var r := AddOne(DelOne(g, d, stopped).g, e, stopped);
      r.counted && r.g.dabrIsSet && r.g.dabrAddr == e.ea
  {
  }

  /** A software delete clears the breakpoint and forgets the address. */
  lemma SoftDelete(g: Globals, e: UpdateBptInfo, stopped: bool)
    requires e.btype == BptSoft || e.btype == BptExec
    ensures var r := DelOne(g, e, stopped);
      && e.ea !in r.g.mainBpts && e.ea !in r.g.shadow && e.ea !in r.g.agent.bps
      && r.g.agent.ReadWord(e.ea) == g.agent.CodeAt(e.ea)
      && r.entry.orgbytes == [] && r.entry.code == BptOk
  {
  }

  /** While a software breakpoint is active its address still reads as the
      original word through the shadow, and deleting it restores that word. */
  lemma SoftBreakpointRoundTrip(g: Globals, e: UpdateBptInfo, stopped: bool)
    requires Inv(g)
    requires e.code == BptOk && e.btype == BptSoft && g.agent.CodeAt(e.ea) != TRAP
    ensures var r := AddOne(g, e, stopped).g;
      && r.agent.ReadWord(e.ea) == TRAP
      && MaskedRead(r.shadow, r.agent, e.ea) == g.agent.CodeAt(e.ea)
      && DelOne(r, e, stopped).g.agent.ReadWord(e.ea) == g.agent.CodeAt(e.ea)
  {
    AddKeepsInv(g, e, stopped);
  }

  /** A feasible add (as is_ok_bpt judges it on the current slot) is applied. */
  lemma FeasibleAddApplied(g: Globals, e: UpdateBptInfo, stopped: bool)
    requires e.btype != BptOtherType
    requires e.code == BptOk && IsOkBpt(e.btype, e.ea, e.size, g.dabrIsSet) == BptOk
    ensures AddOne(g, e, stopped).counted && AddOne(g, e, stopped).entry.code == BptOk
  {
  }

  /** The shadow invariant only depends on the agent's code and breakpoints. */
  lemma ShadowInvFrame(shadow: map<Addr, Word>, a1: Agent, a2: Agent)
    requires ShadowInv(shadow, a1) && a1.code == a2.code && a1.bps == a2.bps
    ensures ShadowInv(shadow, a2)
  {
    forall a | a in a2.bps && a2.CodeAt(a) != TRAP
      ensures a in shadow && shadow[a] == a2.CodeAt(a)
    {
      assert a1.CodeAt(a) == a2.CodeAt(a);
    }
  }

  lemma AddWatchKeepsInv(g: Globals, e: UpdateBptInfo, kind: U8, stopped: bool)
    requires Inv(g) && (kind == DABR_WRITE || kind == DABR_RDWR)
    ensures Inv(AddWatch(g, e, kind, stopped).g)
  {
    if !g.dabrIsSet {
      var agent := ResumeUnlessStopped(g.agent.Stop().SetDabr(Or32(e.ea, kind as U32)), stopped);
      ShadowInvFrame(g.shadow, g.agent, agent);
    }
  }

  lemma AddKeepsInv(g: Globals, e: UpdateBptInfo, stopped: bool)
    requires Inv(g)
    ensures Inv(AddOne(g, e, stopped).g)
  {
    if e.code == BptOk {
      match e.btype
      case BptSoft | BptExec =>
        var p := Patch(g.shadow, g.agent, e.ea);
        assert p.agent.dabr == g.agent.dabr;
      case BptWrite => AddWatchKeepsInv(g, e, DABR_WRITE, stopped);
      case BptRdWr => AddWatchKeepsInv(g, e, DABR_RDWR, stopped);
      case BptOtherType =>
    }
  }

  lemma DelKeepsInv(g: Globals, e: UpdateBptInfo, stopped: bool)
    requires Inv(g)
    ensures Inv(DelOne(g, e, stopped).g)
  {
    if e.btype == BptSoft || e.btype == BptExec {
      UnpatchKeepsInv(g.shadow, g.agent, {e.ea});
    } else if e.btype != BptOtherType {
      ShadowInvFrame(g.shadow, g.agent, DelOne(g, e, stopped).g.agent);
    }
  }

  // ---------------------------------------------------------------------------
  // The loops

  /** The add loop keeps the shadow and watchpoint invariants. */
  lemma {:induction false} FoldAddsKeepsInv(g: Globals, es: seq<UpdateBptInfo>, stopped: bool)
    requires Inv(g)
    ensures Inv(FoldAdds(g, es, stopped).g)
    decreases |es|
  {
    if es != [] {
      var b := FoldAdds(g, es[..|es| - 1], stopped);
      FoldAddsKeepsInv(g, es[..|es| - 1], stopped);
      AddKeepsInv(b.g, es[|es| - 1], stopped);
    }
  }

  /** So does the delete loop. */
  lemma {:induction false} FoldDelsKeepsInv(g: Globals, es: seq<UpdateBptInfo>, stopped: bool)
    requires Inv(g)
    ensures Inv(FoldDels(g, es, stopped).g)
    decreases |es|
  {
    if es != [] {
      var b := FoldDels(g, es[..|es| - 1], stopped);
      FoldDelsKeepsInv(g, es[..|es| - 1], stopped);
      DelKeepsInv(b.g, es[|es| - 1], stopped);
    }
  }

  /** Whether an add entry, before and after, is one update_bpts counts: it
      came in as OK, is of a known type and is still OK afterwards. */
  predicate AddCounted(before: UpdateBptInfo, after: UpdateBptInfo) {
    before.code == BptOk && before.btype != BptOtherType && after.code == BptOk
  }

  function CountAdded(before: seq<UpdateBptInfo>, after: seq<UpdateBptInfo>): nat
    requires |before| == |after|
    decreases |before|
  {
    if before == [] then 0
    else CountAdded(before[..|before| - 1], after[..|after| - 1])
         + if AddCounted(before[|before| - 1], after[|after| - 1]) then 1 else 0
  }

  lemma AddOneCounted(g: Globals, e: UpdateBptInfo, stopped: bool)
    ensures var a := AddOne(g, e, stopped); a.counted == AddCounted(e, a.entry)
    ensures AddOne(g, e, stopped).entry.ea == e.ea && AddOne(g, e, stopped).entry.btype == e.btype
  {
  }

  /** The adds counted are exactly those that came in OK, are of a known type
      and end OK; every entry keeps its address and type. */
  lemma {:induction false} AddCount(g: Globals, es: seq<UpdateBptInfo>, stopped: bool)
    ensures var b := FoldAdds(g, es, stopped);
      && |b.entries| == |es|
      && b.count == CountAdded(es, b.entries)
      && forall k :: 0 <= k < |es| ==> b.entries[k].ea == es[k].ea && b.entries[k].btype == es[k].btype
    decreases |es|
  {
    if es != [] {
      var init := es[..|es| - 1];
      var b := FoldAdds(g, init, stopped);
      AddCount(g, init, stopped);
      AddOneCounted(b.g, es[|es| - 1], stopped);
      var r := FoldAdds(g, es, stopped);
      assert r.entries[..|r.entries| - 1] == b.entries;
      assert es[..|es| - 1] == init;
    }
  }

  /** Every delete is counted and is written back with code OK. */
  lemma {:induction false} DelCount(g: Globals, es: seq<UpdateBptInfo>, stopped: bool)
    ensures var b := FoldDels(g, es, stopped);
      && |b.entries| == |es| && b.count == |es|
      && forall k :: 0 <= k < |es| ==> b.entries[k].code == BptOk && b.entries[k].ea == es[k].ea
    decreases |es|
  {
    if es != [] {
      DelCount(g, es[..|es| - 1], stopped);
    }
  }

  /** update_bpts returns the number of applied adds plus `ndel`, and keeps
      the invariants. */
  lemma UpdateBptsCount(g: Globals, es: seq<UpdateBptInfo>, nadd: nat, ndel: nat, stopped: bool)
    requires nadd + ndel <= |es|
    ensures var b := UpdateBpts(g, es, nadd, ndel, stopped);
      && |b.entries| == |es|
      && b.count == CountAdded(es[..nadd], b.entries[..nadd]) + ndel
      && (Inv(g) ==> Inv(b.g))
  {
    var a := FoldAdds(g, es[..nadd], stopped);
    AddCount(g, es[..nadd], stopped);
    DelCount(a.g, es[nadd..nadd + ndel], stopped);
    var b := UpdateBpts(g, es, nadd, ndel, stopped);
    assert b.entries[..nadd] == a.entries;
    if Inv(g) {
      FoldAddsKeepsInv(g, es[..nadd], stopped);
      FoldDelsKeepsInv(a.g, es[nadd..nadd + ndel], stopped);
    }
  }
}
