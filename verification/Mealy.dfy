/** Deterministic Mealy machines with named states, their runs, and when two of them are the same. */
module Mealy {
  import opened Bytes

  datatype Cell = Cell(output: string, next: string)

  /** A machine may be partial: a missing cell stops a run. */
  datatype Machine = Machine(initial: string, cells: map<(string, string), Cell>)

  type Word = seq<string>

  predicate Over(w: Word, alphabet: seq<string>) {
    forall i :: 0 <= i < |w| ==> w[i] in alphabet
  }

  /** The state a run of `w` from `s` ends in, if no cell is missing. */
  function After(m: Machine, s: string, w: Word): Option<string>
    decreases |w|
  {
    if w == [] then Some(s)
    else if (s, w[0]) in m.cells then After(m, m.cells[(s, w[0])].next, w[1..])
    else None
  }

  /** The output word of that run. */
  function Outputs(m: Machine, s: string, w: Word): Option<seq<string>>
    decreases |w|
  {
    if w == [] then Some([])
    else if (s, w[0]) in m.cells then
      var c := m.cells[(s, w[0])];
      match Outputs(m, c.next, w[1..])
      case Some(rest) => Some([c.output] + rest)
      case None => None
    else None
  }

  function Reach(m: Machine, w: Word): Option<string> { After(m, m.initial, w) }

  // ---------- equivalences ----------

  /** Both machines are total on what they reach and answer every word alike. */
  ghost predicate TraceEquivalent(l: Machine, r: Machine, alphabet: seq<string>) {
    forall w: Word :: Over(w, alphabet) ==>
      Outputs(l, l.initial, w).Some? && Outputs(l, l.initial, w) == Outputs(r, r.initial, w)
  }

  /** Two words lead the one machine to one state exactly when they lead the other to one state. */
  ghost predicate SameConfluence(l: Machine, r: Machine, alphabet: seq<string>) {
    forall w: Word, u: Word :: Over(w, alphabet) && Over(u, alphabet) ==>
      (Reach(l, w) == Reach(l, u) <==> Reach(r, w) == Reach(r, u))
  }

  /** The reachable parts are isomorphic: a one-to-one pairing of states carries runs to runs. */
  ghost predicate Isomorphic(l: Machine, r: Machine, alphabet: seq<string>) {
    TraceEquivalent(l, r, alphabet) && SameConfluence(l, r, alphabet)
  }

  /** Reachable states that answer every word alike are one state. */
  ghost predicate Minimal(m: Machine, alphabet: seq<string>) {
    forall w: Word, u: Word ::
      && Over(w, alphabet) && Over(u, alphabet)
      && Reach(m, w).Some? && Reach(m, u).Some?
      && Indistinguishable(m, Reach(m, w).value, Reach(m, u).value, alphabet)
      ==> Reach(m, w) == Reach(m, u)
  }

  ghost predicate Indistinguishable(m: Machine, s: string, t: string, alphabet: seq<string>) {
    forall x: Word :: Over(x, alphabet) ==> Outputs(m, s, x) == Outputs(m, t, x)
  }

  ghost predicate Reachable(m: Machine, alphabet: seq<string>, s: string) {
    exists w: Word :: Over(w, alphabet) && Reach(m, w) == Some(s)
  }

  // ---------- runs of concatenated words ----------

  lemma {:induction false} OutputsOfRun(m: Machine, s: string, w: Word)
    ensures Outputs(m, s, w).Some? <==> After(m, s, w).Some?
    decreases |w|
  {
    if w != [] && (s, w[0]) in m.cells { OutputsOfRun(m, m.cells[(s, w[0])].next, w[1..]); }
  }

  lemma {:induction false} AfterConcat(m: Machine, s: string, w: Word, x: Word)
    ensures After(m, s, w + x) == match After(m, s, w) case Some(t) => After(m, t, x) case None => None
    decreases |w|
  {
    if w == [] {
      assert w + x == x;
    } else {
      assert (w + x)[0] == w[0] && (w + x)[1..] == w[1..] + x;
      if (s, w[0]) in m.cells { AfterConcat(m, m.cells[(s, w[0])].next, w[1..], x); }
    }
  }

  function Joined(a: Option<seq<string>>, b: Option<seq<string>>): Option<seq<string>> {
    if a.Some? && b.Some? then Some(a.value + b.value) else None
  }

  lemma {:induction false} OutputsConcat(m: Machine, s: string, w: Word, x: Word)
    requires After(m, s, w).Some?
    ensures Outputs(m, s, w + x) == Joined(Outputs(m, s, w), Outputs(m, After(m, s, w).value, x))
    decreases |w|
  {
    if w == [] {
      assert w + x == x;
      if Outputs(m, s, x).Some? { assert [] + Outputs(m, s, x).value == Outputs(m, s, x).value; }
    } else {
      assert (w + x)[0] == w[0] && (w + x)[1..] == w[1..] + x;
      var c := m.cells[(s, w[0])];
      OutputsConcat(m, c.next, w[1..], x);
      OutputsOfRun(m, c.next, w[1..]);
      JoinedCons(c.output, Outputs(m, c.next, w[1..]).value, Outputs(m, After(m, s, w).value, x));
    }
  }

  lemma JoinedCons(o: string, p: seq<string>, q: Option<seq<string>>)
    ensures q.Some? ==> [o] + (p + q.value) == [o] + p + q.value
  {}

  lemma RunConcat(m: Machine, s: string, w: Word, x: Word)
    ensures After(m, s, w + x) == match After(m, s, w) case Some(t) => After(m, t, x) case None => None
    ensures Outputs(m, s, w).Some? <==> After(m, s, w).Some?
    ensures After(m, s, w).Some? ==>
              Outputs(m, s, w + x) == match Outputs(m, After(m, s, w).value, x)
                                      case Some(o) => Some(Outputs(m, s, w).value + o)
                                      case None => None
  {
    hide After, Outputs;
    OutputsOfRun(m, s, w);
    AfterConcat(m, s, w, x);
    if After(m, s, w).Some? { OutputsConcat(m, s, w, x); }
  }

  lemma RunSnoc(m: Machine, w: Word, i: string)
    requires Reach(m, w).Some?
    ensures var s := Reach(m, w).value;
            && (Reach(m, w + [i]).Some? <==> (s, i) in m.cells)
            && (Outputs(m, m.initial, w + [i]).Some? <==> (s, i) in m.cells)
            && ((s, i) in m.cells ==>
                  && Reach(m, w + [i]) == Some(m.cells[(s, i)].next)
                  && Outputs(m, m.initial, w).Some?
                  && Outputs(m, m.initial, w + [i])
                  == Some(Outputs(m, m.initial, w).value + [m.cells[(s, i)].output]))
  {
    RunConcat(m, m.initial, w, [i]);
    var s := Reach(m, w).value;
    assert [i][1..] == [];
    if (s, i) in m.cells {
      assert [m.cells[(s, i)].output] + [] == [m.cells[(s, i)].output];
    }
  }

  // ---------- for minimal machines, answering alike is being isomorphic ----------

  lemma SharedStateSharedAnswers(l: Machine, r: Machine, alphabet: seq<string>, w: Word, u: Word, x: Word)
    requires TraceEquivalent(l, r, alphabet) && Over(w, alphabet) && Over(u, alphabet) && Over(x, alphabet)
    requires Reach(l, w) == Reach(l, u)
    ensures Reach(r, w).Some? && Reach(r, u).Some?
    ensures Outputs(r, Reach(r, w).value, x) == Outputs(r, Reach(r, u).value, x)
  {
    hide After, Outputs;
    assert Over(w + x, alphabet) && Over(u + x, alphabet);
    RunConcat(l, l.initial, w, x);
    RunConcat(l, l.initial, u, x);
    RunConcat(r, r.initial, w, x);
    RunConcat(r, r.initial, u, x);
    assert Outputs(l, l.initial, w).Some? && Outputs(l, l.initial, u).Some?;
    var lx := Outputs(l, Reach(l, w).value, x);
    assert Outputs(l, l.initial, w + x).Some?;
    TailsAgree(Outputs(l, l.initial, w).value, lx.value, Outputs(r, Reach(r, w).value, x).value);
    assert Outputs(l, l.initial, u + x).Some?;
    TailsAgree(Outputs(l, l.initial, u).value, lx.value, Outputs(r, Reach(r, u).value, x).value);
  }

  lemma TailsAgree(p: seq<string>, a: seq<string>, b: seq<string>)
    requires p + a == p + b
    ensures a == b
  {
    assert a == (p + a)[|p|..] && b == (p + b)[|p|..];
  }

  lemma ConfluenceFollows(l: Machine, r: Machine, alphabet: seq<string>)
    requires TraceEquivalent(l, r, alphabet) && Minimal(r, alphabet)
    ensures forall w: Word, u: Word :: Over(w, alphabet) && Over(u, alphabet) && Reach(l, w) == Reach(l, u) ==>
              Reach(r, w) == Reach(r, u)
  {
    hide After, Outputs;
    forall w: Word, u: Word | Over(w, alphabet) && Over(u, alphabet) && Reach(l, w) == Reach(l, u)
      ensures Reach(r, w) == Reach(r, u)
    {
      SharedStateSharedAnswers(l, r, alphabet, w, u, []);
      forall x: Word | Over(x, alphabet)
        ensures Outputs(r, Reach(r, w).value, x) == Outputs(r, Reach(r, u).value, x)
      {
        SharedStateSharedAnswers(l, r, alphabet, w, u, x);
      }
      assert Indistinguishable(r, Reach(r, w).value, Reach(r, u).value, alphabet);
    }
  }

  /** Between minimal machines, equal answers to every word already make the reachable parts isomorphic. */
  lemma MinimalEquivalence(l: Machine, r: Machine, alphabet: seq<string>)
    requires Minimal(l, alphabet) && Minimal(r, alphabet)
    ensures TraceEquivalent(l, r, alphabet) <==> Isomorphic(l, r, alphabet)
  {
    hide Reach, Outputs;
    if TraceEquivalent(l, r, alphabet) {
      ConfluenceFollows(l, r, alphabet);
      assert TraceEquivalent(r, l, alphabet);
      ConfluenceFollows(r, l, alphabet);
    }
  }
}
