/** read_memory: the target's memory as the host sees it, with every trap word
    the engine inserted replaced by the word it covers. */
module Memory {
  import opened Words
  import opened Remote
  import opened Shadow

  /** The address of the `k`-th word of a read starting at `ea`. */
  function WordAddr(ea: Addr, k: nat): Addr {
    Add32(ea, 4 * k)
  }

  /** The words handed out and the shadow map afterwards. */
  datatype Read = Read(words: seq<Word>, shadow: map<Addr, Word>)

  /** One word of the masking loop: a trap word is replaced by its shadow
      entry, and looking the entry up inserts the zero word when there is none. */
  function MaskOne(shadow: map<Addr, Word>, agent: Agent, a: Addr): Read {
    var w := agent.ReadWord(a);
    if w != TRAP then Read([w], shadow)
    else if a in shadow then Read([shadow[a]], shadow)
    else Read([ZERO], shadow[a := ZERO])
  }

  /** Every entry of `s1` is in `s2` unchanged, and every entry `s2` adds is
      the zero word at an address that reads as the trap. */
  ghost predicate OnlyZeroesAdded(s1: map<Addr, Word>, s2: map<Addr, Word>, agent: Agent) {
    && (forall a :: a in s1 ==> a in s2 && s2[a] == s1[a])
    && (forall a :: a in s2 && a !in s1 ==> s2[a] == ZERO && agent.ReadWord(a) == TRAP)
  }

  /** One masked word, against the shadow map before the whole read: the word
      is the masked read of its address, entries are only added, and a trap
      word always has an entry afterwards. */
  lemma MaskOneEffect(s0: map<Addr, Word>, shadow: map<Addr, Word>, agent: Agent, a: Addr)
    requires OnlyZeroesAdded(s0, shadow, agent)
    ensures var m := MaskOne(shadow, agent, a);
      && m.words == [MaskedRead(s0, agent, a)]
      && OnlyZeroesAdded(s0, m.shadow, agent)
      && (forall x :: x in shadow ==> x in m.shadow)
      && (agent.ReadWord(a) == TRAP ==> a in m.shadow)
  {
  }

  /** The masking loop of read_memory over `n` words at `ea`, in order. */
  function MaskLoop(shadow: map<Addr, Word>, agent: Agent, ea: Addr, n: nat): Read
    decreases n
  {
    if n == 0 then Read([], shadow)
    else
      var r := MaskLoop(shadow, agent, ea, n - 1);
      var m := MaskOne(r.shadow, agent, WordAddr(ea, n - 1));
      Read(r.words + m.words, m.shadow)
  }

  /** What the masking loop computes, by induction over the words. */
  lemma {:induction false} MaskLoopEffect(shadow: map<Addr, Word>, agent: Agent, ea: Addr, n: nat)
    ensures var r := MaskLoop(shadow, agent, ea, n);
      && |r.words| == n
      && (forall k :: 0 <= k < n ==> r.words[k] == MaskedRead(shadow, agent, WordAddr(ea, k)))
      && OnlyZeroesAdded(shadow, r.shadow, agent)
      && (forall k :: 0 <= k < n && agent.ReadWord(WordAddr(ea, k)) == TRAP ==> WordAddr(ea, k) in r.shadow)
    decreases n
  {
    if n > 0 {
      var r := MaskLoop(shadow, agent, ea, n - 1);
      MaskLoopEffect(shadow, agent, ea, n - 1);
      var a := WordAddr(ea, n - 1);
      var m := MaskOne(r.shadow, agent, a);
      MaskOneEffect(shadow, r.shadow, agent, a);
      var words := MaskLoop(shadow, agent, ea, n).words;
      assert words == r.words + m.words;
      forall k | 0 <= k < n
        ensures words[k] == MaskedRead(shadow, agent, WordAddr(ea, k))
      {
        if k < n - 1 {
          assert words[k] == r.words[k];
        }
      }
    }
  }

  /** read_memory of `n` words at `ea`. Word k is the masked read of ea+4k
      against the shadow map as it was before the call; the map only gains
      zero entries at trap words, and gains one at every trap word read that
      had none. */
  function ReadMemory(shadow: map<Addr, Word>, agent: Agent, ea: Addr, n: nat): (r: Read)
    ensures |r.words| == n
    ensures forall k :: 0 <= k < n ==> r.words[k] == MaskedRead(shadow, agent, WordAddr(ea, k))
    ensures OnlyZeroesAdded(shadow, r.shadow, agent)
    ensures forall k :: 0 <= k < n && agent.ReadWord(WordAddr(ea, k)) == TRAP ==> WordAddr(ea, k) in r.shadow
  {
    MaskLoopEffect(shadow, agent, ea, n);
    MaskLoop(shadow, agent, ea, n)
  }

  /** The shadow invariant survives a read. */
  lemma ReadKeepsShadowInv(shadow: map<Addr, Word>, agent: Agent, ea: Addr, n: nat)
    requires ShadowInv(shadow, agent)
    ensures ShadowInv(ReadMemory(shadow, agent, ea, n).shadow, agent)
  {
  }

  /** With the invariant, the read shows the program's own words: a trap word
      reads as the trap only where the program itself holds the trap. */
  lemma ReadHidesBreakpoints(shadow: map<Addr, Word>, agent: Agent, ea: Addr, n: nat, k: nat)
    requires ShadowInv(shadow, agent) && k < n
    requires agent.CodeAt(WordAddr(ea, k)) != TRAP
    ensures ReadMemory(shadow, agent, ea, n).words[k] == agent.CodeAt(WordAddr(ea, k))
  {
  }

  /** Reading leaves the engine's view of the memory unchanged: a second read
      of the same words gives the same words. */
  lemma ReadTwice(shadow: map<Addr, Word>, agent: Agent, ea: Addr, n: nat)
    ensures var r := ReadMemory(shadow, agent, ea, n);
      ReadMemory(r.shadow, agent, ea, n).words == r.words
  {
    var r := ReadMemory(shadow, agent, ea, n);
    var r2 := ReadMemory(r.shadow, agent, ea, n);
    forall k | 0 <= k < n ensures r2.words[k] == r.words[k] {
      var a := WordAddr(ea, k);
      if agent.ReadWord(a) == TRAP && a !in shadow && a in r.shadow {
        assert r.shadow[a] == ZERO;
      }
    }
  }
}
