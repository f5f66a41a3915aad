/** The shadow memory map (`main_bpts_map`): the original word beneath every
    address the engine has patched with the trap, used both to mask reads and to
    keep a re-armed address's original word. */
module Shadow {
  import opened Words
  import opened Remote

  /** `main_bpts_map[a]`, with the zero word a missing entry default-constructs. */
  function ShadowOf(shadow: map<Addr, Word>, a: Addr): Word {
    if a in shadow then shadow[a] else ZERO
  }

  /** Every inserted breakpoint over a word other than the trap has its original
      word recorded. (A program word that already is the trap gets no entry.) */
  ghost predicate ShadowInv(shadow: map<Addr, Word>, agent: Agent) {
    forall a :: a in agent.bps && agent.CodeAt(a) != TRAP ==> a in shadow && shadow[a] == agent.CodeAt(a)
  }

  /** The word read_memory hands out for address `a`: what the agent reads,
      with a trap word replaced by the shadow entry. Under the invariant, every
      word the program did not itself hold as the trap reads as the original. */
  function MaskedRead(shadow: map<Addr, Word>, agent: Agent, a: Addr): (r: Word)
    ensures ShadowInv(shadow, agent) && agent.CodeAt(a) != TRAP ==> r == agent.CodeAt(a)
    ensures a !in agent.bps && agent.CodeAt(a) != TRAP ==> r == agent.CodeAt(a)
    ensures agent.ReadWord(a) == TRAP && a !in shadow ==> r == ZERO
  {
    var w := agent.ReadWord(a);
    if w == TRAP then ShadowOf(shadow, a) else w
  }

  /** The shadow holds the program's own word at `a`. */
  predicate Recorded(shadow: map<Addr, Word>, code: map<Addr, Word>, a: Addr) {
    a in shadow && shadow[a] == WordIn(code, a)
  }

  /** Every word `s1` records correctly, `s2` still records. */
  ghost predicate KeepsRecorded(s1: map<Addr, Word>, s2: map<Addr, Word>, code: map<Addr, Word>) {
    forall a :: Recorded(s1, code, a) ==> Recorded(s2, code, a)
  }

  datatype Patched = Patched(shadow: map<Addr, Word>, agent: Agent, word: Word)

  /** Patch one address with the trap, as update_bpts and do_step both do:
      read the word, record it unless it is the trap, insert the breakpoint. */
  function Patch(shadow: map<Addr, Word>, agent: Agent, a: Addr): Patched {
    var w := agent.ReadWord(a);
    Patched(if w != TRAP then shadow[a := w] else shadow, agent.SetBreakPoint(a), w)
  }

  /** Patching hands back the word read, inserts the breakpoint, and records
      the program's word unless the address was already patched or holds the
      trap itself; the shadow invariant is kept and no correct entry is lost. */
  lemma PatchEffect(shadow: map<Addr, Word>, agent: Agent, a: Addr)
    ensures var r := Patch(shadow, agent, a);
      && r.word == agent.ReadWord(a)
      && r.agent == agent.SetBreakPoint(a)
      && r.shadow - {a} == shadow - {a}
      && (a in agent.bps ==> r.shadow == shadow)
      && (a !in agent.bps && agent.CodeAt(a) != TRAP ==> r.shadow == shadow[a := agent.CodeAt(a)])
      && (ShadowInv(shadow, agent) ==> ShadowInv(r.shadow, r.agent))
      && KeepsRecorded(shadow, r.shadow, agent.code)
  {
  }

  /** Clearing breakpoints and forgetting their shadow entries keeps the invariant. */
  lemma UnpatchKeepsInv(shadow: map<Addr, Word>, agent: Agent, s: set<Addr>)
    requires ShadowInv(shadow, agent)
    ensures ShadowInv(shadow - s, agent.(bps := agent.bps - s))
  {
  }
}
