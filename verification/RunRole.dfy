/** A whole comparison for one role: the table expanded, then walked beside the learned machine. */
module RunRole {
  import opened Bytes
  import opened Mealy
  import opened DiffModel
  import opened ExpandReference

  function InitialOf(role: string): string { if role == "initiator" then "WAIT_SH" else "LISTEN" }

  function ExcusedFor(role: string): set<string> { if role == "initiator" then {"START"} else {} }

  /** Equal answers to all words are equal answers from wherever a word leads. */
  lemma AnswersAfter(l: Machine, r: Machine, alphabet: seq<string>, w: Word, x: Word)
    requires TraceEquivalent(l, r, alphabet) && Over(w, alphabet) && Over(x, alphabet)
    ensures Reach(l, w).Some? && Reach(r, w).Some?
    ensures Outputs(l, Reach(l, w).value, x) == Outputs(r, Reach(r, w).value, x)
  {
    hide After, Outputs;
    assert Over(w + x, alphabet);
    RunConcat(l, l.initial, w, x);
    RunConcat(r, r.initial, w, x);
    assert Outputs(l, l.initial, w).Some? && Outputs(l, l.initial, w + x).Some?;
    TailsAgree(Outputs(l, l.initial, w).value, Outputs(l, Reach(l, w).value, x).value, Outputs(r, Reach(r, w).value, x).value);
  }

  /** After any word that closes the table's machine, the learned machine answers every further word with silence. */
  ghost predicate SilentOnceClosed(l: Machine, r: Machine, alphabet: seq<string>) {
    forall w: Word, x: Word :: Over(w, alphabet) && Over(x, alphabet) && Reach(r, w) == Some(CLOSED) ==>
      && Reach(l, w).Some? && Outputs(l, Reach(l, w).value, x).Some?
      && AllSilent(Outputs(l, Reach(l, w).value, x).value)
  }

  lemma EquivalentIsSilent(l: Machine, t: StateTable, role: string, initial: string)
    requires role in t.states && CLOSED in t.states[role] && ClosedIsTerminal(t, role)
    requires TraceEquivalent(l, ExpandedMachine(t, role, initial), Inputs(t))
    ensures SilentOnceClosed(l, ExpandedMachine(t, role, initial), Inputs(t))
  {
    hide After, Outputs, ExpandedMachine, TraceEquivalent, ClosedIsTerminal, AllSilent, Inputs;
    var r := ExpandedMachine(t, role, initial);
    ClosedAbsorbs(t, role, initial);
    forall w: Word, x: Word | Over(w, Inputs(t)) && Over(x, Inputs(t)) && Reach(r, w) == Some(CLOSED)
      ensures Reach(l, w).Some? && Outputs(l, Reach(l, w).value, x).Some? && AllSilent(Outputs(l, Reach(l, w).value, x).value)
    {
      AnswersAfter(l, r, Inputs(t), w, x);
    }
  }

  /**
   * Expands the table for a role and compares.  A clean verdict means that the learned machine is the
   * expanded one up to names, with every unexcused state reached; that it answers every word over the
   * inputs alike; and, where the table lists nothing out of CLOSED, that it is silent once closed.
   */
  method CompareRole(t: StateTable, learned: Learned, role: string) returns (mismatches: seq<Mismatch>)
    requires (role == "initiator" || role == "responder") && role in t.states
    ensures var l, r := LearnedMachine(learned), ExpandedMachine(t, role, InitialOf(role));
            && l.initial == learned.initial && r.initial == (if role == "initiator" then "WAIT_SH" else "LISTEN")
            && (forall m <- mismatches :: Genuine(l, r, Inputs(t), m))
            && (mismatches == [] && CLOSED in t.states[role] && ClosedIsTerminal(t, role) ==> SilentOnceClosed(l, r, Inputs(t)))
            && (mismatches == [] ==> TraceEquivalent(l, r, Inputs(t)))
            && (mismatches == [] <==>
                  && Isomorphic(l, r, Inputs(t))
                  && Covered(Expanded(t, role), r.initial, Inputs(t), if role == "initiator" then {"START"} else {}))
  {
    hide TraceEquivalent, SameConfluence, Covered, Genuine, ClosedIsTerminal, SilentOnceClosed, Expanded, Minimal, Reachable;
    var ref := Expand(t, role);
    mismatches := Compare(learned, ref, InitialOf(role), Inputs(t), ExcusedFor(role));
    if mismatches == [] && CLOSED in t.states[role] && ClosedIsTerminal(t, role) {
      EquivalentIsSilent(LearnedMachine(learned), t, role, InitialOf(role));
    }
  }
}
