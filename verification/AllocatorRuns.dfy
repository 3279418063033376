/** Whole runs of the page allocator: allocations and frees of live blocks, in any order. */
module AllocatorRuns {
  import opened FreeBlocks

  /** The free pages, and the order of every live block by its first page. */
  datatype State = State(free: set<nat>, live: map<nat, nat>)

  ghost function LivePages(live: map<nat, nat>): set<nat> {
    set s, p | s in live && p in Range(s, live[s]) :: p
  }

  ghost function AllPages(st: State): set<nat> {
    st.free + LivePages(st.live)
  }

  /** Live blocks share no page with each other or with the free pages. */
  ghost predicate Separate(st: State) {
    && (forall s :: s in st.live ==> Range(s, st.live[s]) !! st.free)
    && (forall s, t :: s in st.live && t in st.live && s != t ==> Range(s, st.live[s]) !! Range(t, st.live[t]))
  }

  ghost predicate Allocates(st: State, st': State, s: nat, o: nat) {
    && s !in st.live && Whole(st.free, s, o)
    && st' == State(st.free - Range(s, o), st.live[s := o])
  }

  ghost predicate Releases(st: State, st': State, s: nat) {
    && s in st.live
    && st' == State(st.free + Range(s, st.live[s]), st.live - {s})
  }

  ghost predicate Next(st: State, st': State) {
    (exists s, o :: Allocates(st, st', s, o)) || (exists s :: Releases(st, st', s))
  }

  ghost predicate Run(states: seq<State>) {
    |states| > 0 && Separate(states[0]) && forall i :: 0 <= i < |states| - 1 ==> Next(states[i], states[i + 1])
  }

  lemma AllocatesConserves(st: State, st': State, s: nat, o: nat)
    requires Separate(st) && Allocates(st, st', s, o)
    ensures Separate(st') && AllPages(st') == AllPages(st)
  {
    hide Range;
    forall p ensures p in LivePages(st'.live) <==> p in LivePages(st.live) || p in Range(s, o) {
      if p in Range(s, o) { assert s in st'.live && p in Range(s, st'.live[s]); }
      if t :| t in st.live && p in Range(t, st.live[t]) { assert t in st'.live && p in Range(t, st'.live[t]); }
    }
  }

  lemma ReleasesConserves(st: State, st': State, s: nat)
    requires Separate(st) && Releases(st, st', s)
    ensures Separate(st') && AllPages(st') == AllPages(st)
  {
    hide Range;
    forall p ensures p in LivePages(st.live) <==> p in LivePages(st'.live) || p in Range(s, st.live[s]) {
      if t :| t in st.live && p in Range(t, st.live[t]) && t != s {
        assert t in st'.live && p in Range(t, st'.live[t]);
      }
    }
  }

  lemma NextConserves(st: State, st': State)
    requires Separate(st) && Next(st, st')
    ensures Separate(st') && AllPages(st') == AllPages(st)
  {
    hide Separate, AllPages, Allocates, Releases;
    if s, o :| Allocates(st, st', s, o) {
      AllocatesConserves(st, st', s, o);
    } else {
      var s :| Releases(st, st', s);
      ReleasesConserves(st, st', s);
    }
  }

  /** No run loses, invents or shares a page. */
  lemma {:induction false} RunConserves(states: seq<State>, i: nat)
    requires Run(states) && i < |states|
    ensures Separate(states[i]) && AllPages(states[i]) == AllPages(states[0])
  {
    hide Separate, AllPages, Next;
    if i > 0 {
      RunConserves(states, i - 1);
      NextConserves(states[i - 1], states[i]);
    }
  }

  /** The free blocks depend only on which blocks are live: however the blocks came to be allocated and
      freed, and in whatever order, the same live blocks leave the same free blocks. */
  lemma SameLiveSameFreeBlocks(states: seq<State>, i: nat, j: nat)
    requires Run(states) && i < |states| && j < |states|
    requires states[i].live == states[j].live
    ensures Canonical(states[i].free) == Canonical(states[j].free)
  {
    hide Run, Range, Canonical;
    RunConserves(states, i);
    RunConserves(states, j);
    forall k: nat | k < |states| && Separate(states[k])
      ensures states[k].free == AllPages(states[k]) - LivePages(states[k].live)
    {
    }
  }
}
