/**
 * The equivalence check between a learned machine and a reference table: a simultaneous walk from
 * both initial states that grows two mutually inverse pairings and records every disagreement.
 */
module DiffModel {
  import opened Bytes
  import opened Mealy

  datatype Row = Row(from: string, input: string, output: string, to: string)
  datatype Learned = Learned(initial: string, transitions: seq<Row>)
  type Table = map<string, map<string, Cell>>

  datatype Mismatch =
    | LearnedMissingTransition(learnedState: string, refState: string, input: string)
    | TableMissingCell(refState: string, learnedState: string, input: string, learnedOutput: string)
    | OutputMismatch(learnedState: string, refState: string, input: string, learnedOutput: string, refOutput: string)
    | LearnedNextInconsistent(fromLearned: string, fromRef: string, input: string, learnedNext: string, expectedRefNext: string, actualRefNext: string)
    | RefNextInconsistent(fromLearned: string, fromRef: string, input: string, refNext: string, expectedLearnedNext: string, actualLearnedNext: string)
    | RefStateUnreached(refState: string)

  // ---------- the two machines being compared ----------

  /** A later row for the same state and input replaces an earlier one. */
  function CellsOf(rows: seq<Row>): map<(string, string), Cell> {
    if rows == [] then map[]
    else
      var r := rows[|rows| - 1];
      CellsOf(rows[..|rows| - 1])[(r.from, r.input) := Cell(r.output, r.to)]
  }

  predicate Names(r: Row, s: string, i: string) { r.from == s && r.input == i }

  /** Row k is the last for its state and input. */
  predicate LastWord(rows: seq<Row>, k: nat)
    requires k < |rows|
  {
    forall j :: k < j < |rows| ==> !Names(rows[j], rows[k].from, rows[k].input)
  }

  /** The cells are those the rows name, each with its last row's output and next state. */
  ghost predicate TakenFrom(rows: seq<Row>, cells: map<(string, string), Cell>) {
    && (forall s, i :: (s, i) in cells <==> exists k :: 0 <= k < |rows| && Names(rows[k], s, i))
    && (forall k :: 0 <= k < |rows| && LastWord(rows, k) ==>
          && (rows[k].from, rows[k].input) in cells
          && cells[(rows[k].from, rows[k].input)] == Cell(rows[k].output, rows[k].to))
  }

  lemma {:induction false} CellNamed(rows: seq<Row>, s: string, i: string)
    ensures (s, i) in CellsOf(rows) <==> exists k :: 0 <= k < |rows| && Names(rows[k], s, i)
  {
    if rows != [] {
      var n := |rows| - 1;
      CellNamed(rows[..n], s, i);
      if (s, i) in CellsOf(rows[..n]) {
        var k :| 0 <= k < n && Names(rows[..n][k], s, i);
        assert Names(rows[k], s, i);
      }
    }
  }

  lemma {:induction false} CellLast(rows: seq<Row>, k: nat)
    requires k < |rows| && LastWord(rows, k)
    ensures (rows[k].from, rows[k].input) in CellsOf(rows)
    ensures CellsOf(rows)[(rows[k].from, rows[k].input)] == Cell(rows[k].output, rows[k].to)
  {
    var n := |rows| - 1;
    if k < n {
      assert !Names(rows[n], rows[k].from, rows[k].input);
      CellLast(rows[..n], k);
    }
  }

  lemma CellsTaken(rows: seq<Row>)
    ensures TakenFrom(rows, CellsOf(rows))
  {
    hide LastWord, CellsOf;
    forall s, i ensures (s, i) in CellsOf(rows) <==> exists k :: 0 <= k < |rows| && Names(rows[k], s, i) {
      CellNamed(rows, s, i);
    }
    forall k | 0 <= k < |rows| && LastWord(rows, k)
      ensures && (rows[k].from, rows[k].input) in CellsOf(rows)
              && CellsOf(rows)[(rows[k].from, rows[k].input)] == Cell(rows[k].output, rows[k].to)
    {
      CellLast(rows, k);
    }
  }

  function LearnedMachine(l: Learned): Machine { Machine(l.initial, CellsOf(l.transitions)) }

  function RefMachine(t: Table, initial: string): Machine {
    Machine(initial, map s, i | s in t && i in t[s] :: (s, i) := t[s][i])
  }

  /** Where the two machines start, and where their cells come from. */
  lemma MachineCells(l: Learned, t: Table, initial: string)
    ensures LearnedMachine(l).initial == l.initial && TakenFrom(l.transitions, LearnedMachine(l).cells)
    ensures var r := RefMachine(t, initial);
            && r.initial == initial
            && (forall s, i :: (s, i) in r.cells <==> s in t && i in t[s])
            && forall s, i :: s in t && i in t[s] ==> r.cells[(s, i)] == t[s][i]
  {
    CellsTaken(l.transitions);
  }

  /** Every table state that is not excused is reached. */
  ghost predicate Covered(t: Table, initial: string, alphabet: seq<string>, expectedUnreachable: set<string>) {
    forall s <- t.Keys :: s in expectedUnreachable || Reachable(RefMachine(t, initial), alphabet, s)
  }

  /** A report says what it seems to: the pair it names was met, and disagrees in the way named. */
  ghost predicate Genuine(l: Machine, r: Machine, alphabet: seq<string>, m: Mismatch) {
    match m
    case LearnedMissingTransition(s, t, i) =>
      Met(l, r, alphabet, (s, t)) && i in alphabet && (s, i) !in l.cells
    case TableMissingCell(t, s, i, lo) =>
      Met(l, r, alphabet, (s, t)) && i in alphabet && (s, i) in l.cells && l.cells[(s, i)].output == lo && (t, i) !in r.cells
    case OutputMismatch(s, t, i, lo, ro) =>
      && Met(l, r, alphabet, (s, t)) && i in alphabet && (s, i) in l.cells && (t, i) in r.cells
      && l.cells[(s, i)].output == lo && r.cells[(t, i)].output == ro && lo != ro
    case LearnedNextInconsistent(s, t, i, ln, expected, actual) =>
      && Met(l, r, alphabet, (s, t)) && i in alphabet && (s, i) in l.cells && (t, i) in r.cells
      && l.cells[(s, i)].next == ln && r.cells[(t, i)].next == actual
      && Met(l, r, alphabet, (ln, expected)) && expected != actual
    case RefNextInconsistent(s, t, i, rn, expected, actual) =>
      && Met(l, r, alphabet, (s, t)) && i in alphabet && (s, i) in l.cells && (t, i) in r.cells
      && r.cells[(t, i)].next == rn && l.cells[(s, i)].next == actual
      && Met(l, r, alphabet, (expected, rn)) && expected != actual
    case RefStateUnreached(t) =>
      Isomorphic(l, r, alphabet) ==> !Reachable(r, alphabet, t)
  }

  // ---------- what the walk keeps ----------

  type Pair = (string, string)

  /** Some word leads the machines to `p.0` and `p.1`. */
  ghost predicate Met(l: Machine, r: Machine, alphabet: seq<string>, p: Pair) {
    exists w: Word :: Over(w, alphabet) && Reach(l, w) == Some(p.0) && Reach(r, w) == Some(p.1)
  }

  ghost predicate Inverse(l2r: map<string, string>, r2l: map<string, string>) {
    && (forall s :: s in l2r ==> l2r[s] in r2l && r2l[l2r[s]] == s)
    && (forall t :: t in r2l ==> r2l[t] in l2r && l2r[r2l[t]] == t)
  }

  /** At `p`, input `i` has cells on both sides with one output, leading to paired states. */
  ghost predicate Agrees(l: Machine, r: Machine, l2r: map<string, string>, p: Pair, i: string) {
    && (p.0, i) in l.cells && (p.1, i) in r.cells
    && l.cells[(p.0, i)].output == r.cells[(p.1, i)].output
    && l.cells[(p.0, i)].next in l2r && l2r[l.cells[(p.0, i)].next] == r.cells[(p.1, i)].next
  }

  ghost predicate AgreesUpTo(l: Machine, r: Machine, l2r: map<string, string>, p: Pair, alphabet: seq<string>, n: nat)
    requires n <= |alphabet|
  {
    forall k :: 0 <= k < n ==> Agrees(l, r, l2r, p, alphabet[k])
  }

  /** Everything paired has been met, and has been or will be visited. */
  ghost predicate Walk(l: Machine, r: Machine, alphabet: seq<string>, l2r: map<string, string>, r2l: map<string, string>,
                       visited: set<Pair>, queue: seq<Pair>) {
    && Inverse(l2r, r2l)
    && l.initial in l2r && l2r[l.initial] == r.initial
    && (forall s :: s in l2r ==> Met(l, r, alphabet, (s, l2r[s])))
    && (forall s :: s in l2r ==> (s, l2r[s]) in visited || (s, l2r[s]) in queue)
    && (forall p :: p in visited || p in queue ==> p.0 in l2r && l2r[p.0] == p.1)
  }

  // ---------- a disagreement refutes isomorphism ----------

  lemma MissingCellRefutes(l: Machine, r: Machine, alphabet: seq<string>, p: Pair, i: string)
    requires Met(l, r, alphabet, p) && i in alphabet
    requires (p.0, i) !in l.cells || (p.1, i) !in r.cells || l.cells[(p.0, i)].output != r.cells[(p.1, i)].output
    ensures !Isomorphic(l, r, alphabet)
  {
    hide After, Outputs;
    var w: Word :| Over(w, alphabet) && Reach(l, w) == Some(p.0) && Reach(r, w) == Some(p.1);
    RunSnoc(l, w, i);
    RunSnoc(r, w, i);
    assert Over(w + [i], alphabet);
    if (p.0, i) in l.cells && (p.1, i) in r.cells {
      LastDiffers(Outputs(l, l.initial, w).value, Outputs(r, r.initial, w).value,
                  l.cells[(p.0, i)].output, r.cells[(p.1, i)].output);
    }
  }

  lemma LastDiffers(p: seq<string>, q: seq<string>, a: string, b: string)
    requires a != b
    ensures p + [a] != q + [b]
  {
    assert (p + [a])[|p|] == a && (q + [b])[|q|] == b;
  }

  lemma MetNext(l: Machine, r: Machine, alphabet: seq<string>, p: Pair, i: string)
    requires Met(l, r, alphabet, p) && i in alphabet && (p.0, i) in l.cells && (p.1, i) in r.cells
    ensures Met(l, r, alphabet, (l.cells[(p.0, i)].next, r.cells[(p.1, i)].next))
  {
    hide After, Outputs;
    var w: Word :| Over(w, alphabet) && Reach(l, w) == Some(p.0) && Reach(r, w) == Some(p.1);
    RunSnoc(l, w, i);
    RunSnoc(r, w, i);
    assert Over(w + [i], alphabet);
  }

  /** Two meetings that share a state on one side and not on the other. */
  lemma CrossedPairsRefute(l: Machine, r: Machine, alphabet: seq<string>, p: Pair, q: Pair)
    requires Met(l, r, alphabet, p) && Met(l, r, alphabet, q)
    requires (p.0 == q.0) != (p.1 == q.1)
    ensures !Isomorphic(l, r, alphabet)
  {
    hide After, Outputs;
    var w: Word :| Over(w, alphabet) && Reach(l, w) == Some(p.0) && Reach(r, w) == Some(p.1);
    var u: Word :| Over(u, alphabet) && Reach(l, u) == Some(q.0) && Reach(r, u) == Some(q.1);
  }

  // ---------- a closed pairing is an isomorphism ----------

  ghost predicate Closed(l: Machine, r: Machine, alphabet: seq<string>, l2r: map<string, string>) {
    && l.initial in l2r && l2r[l.initial] == r.initial
    && (forall s :: s in l2r ==> AgreesUpTo(l, r, l2r, (s, l2r[s]), alphabet, |alphabet|))
  }

  lemma {:induction false} ClosedRuns(l: Machine, r: Machine, alphabet: seq<string>, l2r: map<string, string>, w: Word)
    requires Closed(l, r, alphabet, l2r) && Over(w, alphabet)
    ensures Reach(l, w).Some? && Reach(l, w).value in l2r && Reach(r, w) == Some(l2r[Reach(l, w).value])
    ensures Outputs(l, l.initial, w).Some? && Outputs(l, l.initial, w) == Outputs(r, r.initial, w)
    decreases |w|
  {
    if w != [] {
      hide After, Outputs;
      var u, i := w[..|w| - 1], w[|w| - 1];
      ClosedRuns(l, r, alphabet, l2r, u);
      var s := Reach(l, u).value;
      var k :| 0 <= k < |alphabet| && alphabet[k] == i;
      assert AgreesUpTo(l, r, l2r, (s, l2r[s]), alphabet, |alphabet|);
      assert Agrees(l, r, l2r, (s, l2r[s]), alphabet[k]);
      RunSnoc(l, u, i);
      RunSnoc(r, u, i);
      assert w == u + [i];
    }
  }

  lemma ClosedIsIsomorphism(l: Machine, r: Machine, alphabet: seq<string>, l2r: map<string, string>, r2l: map<string, string>)
    requires Closed(l, r, alphabet, l2r) && Inverse(l2r, r2l)
    ensures Isomorphic(l, r, alphabet)
  {
    hide After, Outputs, Closed;
    forall w: Word | Over(w, alphabet)
      ensures Outputs(l, l.initial, w).Some? && Outputs(l, l.initial, w) == Outputs(r, r.initial, w)
    {
      ClosedRuns(l, r, alphabet, l2r, w);
    }
    forall w: Word, u: Word | Over(w, alphabet) && Over(u, alphabet)
      ensures Reach(l, w) == Reach(l, u) <==> Reach(r, w) == Reach(r, u)
    {
      ClosedRuns(l, r, alphabet, l2r, w);
      ClosedRuns(l, r, alphabet, l2r, u);
    }
  }

  /** The state the other machine is in wherever this one is in `s`. */
  ghost function Partner(l: Machine, r: Machine, alphabet: seq<string>, s: string): Option<string>
    requires Reachable(l, alphabet, s)
  {
    var w: Word :| Over(w, alphabet) && Reach(l, w) == Some(s);
    Reach(r, w)
  }

  lemma PartnerOf(l: Machine, r: Machine, alphabet: seq<string>, w: Word)
    requires Isomorphic(l, r, alphabet) && Over(w, alphabet)
    ensures Reach(l, w).Some? && Reach(r, w).Some? && Reachable(l, alphabet, Reach(l, w).value)
    ensures Partner(l, r, alphabet, Reach(l, w).value) == Reach(r, w)
  {
    hide After, Outputs;
    RunConcat(l, l.initial, w, []);
    RunConcat(r, r.initial, w, []);
  }

  /** The pairing of an isomorphism, state by reachable state. */
  ghost function Pairing(l: Machine, r: Machine, alphabet: seq<string>): map<string, string> {
    map s | s in States(l) && Reachable(l, alphabet, s) && Partner(l, r, alphabet, s).Some? :: Partner(l, r, alphabet, s).value
  }

  lemma Paired(l: Machine, r: Machine, alphabet: seq<string>, w: Word)
    requires Isomorphic(l, r, alphabet) && Over(w, alphabet)
    ensures Reach(l, w).Some? && Reach(r, w).Some?
    ensures var m := Pairing(l, r, alphabet); Reach(l, w).value in m && m[Reach(l, w).value] == Reach(r, w).value
  {
    hide After, Outputs, Isomorphic, Partner, States;
    PartnerOf(l, r, alphabet, w);
    ReachIsState(l, w);
  }

  lemma PairingInverse(l: Machine, r: Machine, alphabet: seq<string>, s: string)
    requires Isomorphic(l, r, alphabet) && s in Pairing(l, r, alphabet)
    ensures var m, n := Pairing(l, r, alphabet), Pairing(r, l, alphabet); m[s] in n && n[m[s]] == s
  {
    hide After, Outputs, Partner, States;
    assert Isomorphic(r, l, alphabet);
    hide Isomorphic;
    var w: Word :| Over(w, alphabet) && Reach(l, w) == Some(s);
    Paired(l, r, alphabet, w);
    Paired(r, l, alphabet, w);
  }

  lemma PairingAgrees(l: Machine, r: Machine, alphabet: seq<string>, s: string, i: string)
    requires Isomorphic(l, r, alphabet) && s in Pairing(l, r, alphabet) && i in alphabet
    ensures Agrees(l, r, Pairing(l, r, alphabet), (s, Pairing(l, r, alphabet)[s]), i)
  {
    hide After, Outputs, Partner, States;
    var w: Word :| Over(w, alphabet) && Reach(l, w) == Some(s);
    Paired(l, r, alphabet, w);
    var t := Reach(r, w).value;
    assert Met(l, r, alphabet, (s, t));
    assert (s, i) in l.cells && (t, i) in r.cells && l.cells[(s, i)].output == r.cells[(t, i)].output by {
      if !((s, i) in l.cells && (t, i) in r.cells && l.cells[(s, i)].output == r.cells[(t, i)].output) {
        MissingCellRefutes(l, r, alphabet, (s, t), i);
      }
    }
    assert Over(w + [i], alphabet);
    Paired(l, r, alphabet, w + [i]);
    RunSnoc(l, w, i);
    RunSnoc(r, w, i);
  }

  /** The reachable parts are isomorphic exactly when two mutually inverse maps pair the states and carry every cell across. */
  lemma IsomorphicExactly(l: Machine, r: Machine, alphabet: seq<string>)
    ensures Isomorphic(l, r, alphabet) <==>
            exists l2r: map<string, string>, r2l: map<string, string> :: Closed(l, r, alphabet, l2r) && Inverse(l2r, r2l)
  {
    hide After, Outputs, Agrees, Pairing;
    if l2r: map<string, string>, r2l: map<string, string> :| Closed(l, r, alphabet, l2r) && Inverse(l2r, r2l) {
      ClosedIsIsomorphism(l, r, alphabet, l2r, r2l);
    }
    if Isomorphic(l, r, alphabet) {
      assert Isomorphic(r, l, alphabet);
      hide Isomorphic;
      var m, n := Pairing(l, r, alphabet), Pairing(r, l, alphabet);
      StartsMet(l, r, alphabet);
      assert Over([], alphabet);
      Paired(l, r, alphabet, []);
      assert Reach(l, []) == Some(l.initial) && Reach(r, []) == Some(r.initial) by { StartsReached(l); StartsReached(r); }
      forall s | s in m
        ensures AgreesUpTo(l, r, m, (s, m[s]), alphabet, |alphabet|) && m[s] in n && n[m[s]] == s
      {
        PairingInverse(l, r, alphabet, s);
        forall k | 0 <= k < |alphabet| ensures Agrees(l, r, m, (s, m[s]), alphabet[k]) {
          PairingAgrees(l, r, alphabet, s, alphabet[k]);
        }
      }
      forall t | t in n
        ensures n[t] in m && m[n[t]] == t
      {
        PairingInverse(r, l, alphabet, t);
      }
      assert Closed(l, r, alphabet, m) && Inverse(m, n);
    }
  }

  lemma StartsReached(m: Machine)
    ensures Reach(m, []) == Some(m.initial)
  {}

  /** The paired reference states are then exactly the reachable ones. */
  lemma PairedIsReachable(l: Machine, r: Machine, alphabet: seq<string>, l2r: map<string, string>, r2l: map<string, string>,
                          visited: set<Pair>, t: string)
    requires Closed(l, r, alphabet, l2r) && Walk(l, r, alphabet, l2r, r2l, visited, [])
    ensures t in r2l <==> Reachable(r, alphabet, t)
  {
    hide After, Outputs, Closed;
    if t in r2l {
      assert Met(l, r, alphabet, (r2l[t], t));
    }
    if Reachable(r, alphabet, t) {
      var w: Word :| Over(w, alphabet) && Reach(r, w) == Some(t);
      ClosedRuns(l, r, alphabet, l2r, w);
    }
  }

  // ---------- the walk ----------

  method BuildCells(rows: seq<Row>) returns (cells: map<(string, string), Cell>)
    ensures cells == CellsOf(rows)
    ensures forall s, i :: (s, i) in cells <==> exists k :: 0 <= k < |rows| && Names(rows[k], s, i)
    ensures forall k :: 0 <= k < |rows| && LastWord(rows, k) ==>
              && (rows[k].from, rows[k].input) in cells
              && cells[(rows[k].from, rows[k].input)] == Cell(rows[k].output, rows[k].to)
  {
    cells := map[];
    for k := 0 to |rows|
      invariant cells == CellsOf(rows[..k])
    {
      assert rows[..k + 1][..k] == rows[..k];
      cells := cells[(rows[k].from, rows[k].input) := Cell(rows[k].output, rows[k].to)];
    }
    assert rows[..|rows|] == rows;
    CellsTaken(rows);
  }

  /** All pairs of states either machine can be in. */
  ghost function Universe(l: Machine, r: Machine): set<Pair> {
    set s, t | s in States(l) && t in States(r) :: (s, t)
  }

  ghost function States(m: Machine): set<string> {
    {m.initial} + set k | k in m.cells :: m.cells[k].next
  }

  lemma MetIsInUniverse(l: Machine, r: Machine, alphabet: seq<string>, p: Pair)
    requires Met(l, r, alphabet, p)
    ensures p in Universe(l, r)
  {
    hide After;
    var w: Word :| Over(w, alphabet) && Reach(l, w) == Some(p.0) && Reach(r, w) == Some(p.1);
    ReachIsState(l, w);
    ReachIsState(r, w);
  }

  lemma ReachIsState(m: Machine, w: Word)
    requires Reach(m, w).Some?
    ensures Reach(m, w).value in States(m)
  {
    if w != [] {
      hide After;
      var u, i := w[..|w| - 1], w[|w| - 1];
      assert w == u + [i];
      RunConcat(m, m.initial, u, [i]);
      RunSnoc(m, u, i);
    }
  }

  /** Whatever is paired or waiting has been met. */
  lemma WalkMet(l: Machine, r: Machine, alphabet: seq<string>, l2r: map<string, string>, r2l: map<string, string>,
                visited: set<Pair>, queue: seq<Pair>)
    requires Walk(l, r, alphabet, l2r, r2l, visited, queue)
    ensures forall s :: s in l2r ==> Met(l, r, alphabet, (s, l2r[s]))
    ensures forall t :: t in r2l ==> r2l[t] in l2r && Met(l, r, alphabet, (r2l[t], t))
    ensures forall p :: p in visited ==> Met(l, r, alphabet, p)
  {
    hide Met;
    forall p | p in visited ensures Met(l, r, alphabet, p) { assert p == (p.0, l2r[p.0]); }
  }

  /** A pair already known is queued again without harm. */
  lemma WalkRepeats(l: Machine, r: Machine, alphabet: seq<string>, l2r: map<string, string>, r2l: map<string, string>,
                    visited: set<Pair>, queue: seq<Pair>, s: string)
    requires Walk(l, r, alphabet, l2r, r2l, visited, queue) && s in l2r
    ensures Walk(l, r, alphabet, l2r, r2l, visited, queue + [(s, l2r[s])])
  {
    hide Met;
  }

  /** Two states neither of which is paired yet become a pair. */
  lemma WalkExtends(l: Machine, r: Machine, alphabet: seq<string>, l2r: map<string, string>, r2l: map<string, string>,
                    visited: set<Pair>, queue: seq<Pair>, s: string, t: string)
    requires Walk(l, r, alphabet, l2r, r2l, visited, queue) && Met(l, r, alphabet, (s, t)) && s !in l2r && t !in r2l
    ensures Walk(l, r, alphabet, l2r[s := t], r2l[t := s], visited, queue + [(s, t)])
  {
    hide Met;
    var m, n := l2r[s := t], r2l[t := s];
    assert Inverse(m, n);
    forall x | x in m ensures (x, m[x]) in visited || (x, m[x]) in queue + [(s, t)] {
      if x == s { assert (queue + [(s, t)])[|queue|] == (s, t); }
    }
  }

  /** One input at one pair: the mismatch it raises, if any, and the pairing it extends. */
  method StepInput(ghost l: Machine, ghost r: Machine, ghost alphabet: seq<string>,
                   ltrans: map<(string, string), Cell>, table: Table, p: Pair, i: string,
                   l2r0: map<string, string>, r2l0: map<string, string>, queue0: seq<Pair>, ghost visited: set<Pair>)
    returns (found: Option<Mismatch>, l2r: map<string, string>, r2l: map<string, string>, queue: seq<Pair>)
    requires ltrans == l.cells && r.cells == RefMachine(table, r.initial).cells
    requires i in alphabet && p in visited
    requires Walk(l, r, alphabet, l2r0, r2l0, visited, queue0)
    ensures forall s :: s in l2r0 ==> s in l2r && l2r[s] == l2r0[s]
    ensures found.Some? ==> !Isomorphic(l, r, alphabet) && Genuine(l, r, alphabet, found.value) && !found.value.RefStateUnreached?
    ensures found.None? ==> Agrees(l, r, l2r, p, i)
    ensures Walk(l, r, alphabet, l2r, r2l, visited, queue)
  {
    hide Isomorphic, Met, Walk;
    l2r, r2l, queue := l2r0, r2l0, queue0;
    WalkMet(l, r, alphabet, l2r, r2l, visited, queue);
    if (p.0, i) !in ltrans {
      MissingCellRefutes(l, r, alphabet, p, i);
      return Some(LearnedMissingTransition(p.0, p.1, i)), l2r, r2l, queue;
    }
    var Cell(lout, lnext) := ltrans[(p.0, i)];
    if p.1 !in table || i !in table[p.1] {
      MissingCellRefutes(l, r, alphabet, p, i);
      return Some(TableMissingCell(p.1, p.0, i, lout)), l2r, r2l, queue;
    }
    var Cell(rout, rnext) := table[p.1][i];
    if lout != rout {
      MissingCellRefutes(l, r, alphabet, p, i);
      return Some(OutputMismatch(p.0, p.1, i, lout, rout)), l2r, r2l, queue;
    }
    MetNext(l, r, alphabet, p, i);
    if lnext in l2r {
      if l2r[lnext] != rnext {
        CrossedPairsRefute(l, r, alphabet, (lnext, l2r[lnext]), (lnext, rnext));
        return Some(LearnedNextInconsistent(p.0, p.1, i, lnext, l2r[lnext], rnext)), l2r, r2l, queue;
      }
      WalkRepeats(l, r, alphabet, l2r, r2l, visited, queue, lnext);
    } else if rnext in r2l {
      assert r2l[rnext] != lnext;
      if r2l[rnext] != lnext {
        CrossedPairsRefute(l, r, alphabet, (r2l[rnext], rnext), (lnext, rnext));
        return Some(RefNextInconsistent(p.0, p.1, i, rnext, r2l[rnext], lnext)), l2r, r2l, queue;
      }
    } else {
      WalkExtends(l, r, alphabet, l2r, r2l, visited, queue, lnext, rnext);
      l2r := l2r[lnext := rnext];
      r2l := r2l[rnext := lnext];
    }
    queue := queue + [(lnext, rnext)];
    found := None;
  }

  /** Every input of the alphabet at a pair just marked visited. */
  method VisitPair(ghost l: Machine, ghost r: Machine, alphabet: seq<string>,
                   ltrans: map<(string, string), Cell>, table: Table, p: Pair,
                   l2r0: map<string, string>, r2l0: map<string, string>, queue0: seq<Pair>, ghost visited: set<Pair>)
    returns (found: seq<Mismatch>, l2r: map<string, string>, r2l: map<string, string>, queue: seq<Pair>)
    requires ltrans == l.cells && r.cells == RefMachine(table, r.initial).cells
    requires p in visited && Walk(l, r, alphabet, l2r0, r2l0, visited, queue0)
    ensures forall s :: s in l2r0 ==> s in l2r && l2r[s] == l2r0[s]
    ensures found != [] ==> !Isomorphic(l, r, alphabet)
    ensures forall m <- found :: Genuine(l, r, alphabet, m) && !m.RefStateUnreached?
    ensures found == [] ==> AgreesUpTo(l, r, l2r, p, alphabet, |alphabet|)
    ensures Walk(l, r, alphabet, l2r, r2l, visited, queue)
  {
    hide Isomorphic, Walk, RefMachine, Genuine;
    found, l2r, r2l, queue := [], l2r0, r2l0, queue0;
    for k := 0 to |alphabet|
      invariant Walk(l, r, alphabet, l2r, r2l, visited, queue)
      invariant forall s :: s in l2r0 ==> s in l2r && l2r[s] == l2r0[s]
      invariant found != [] ==> !Isomorphic(l, r, alphabet)
      invariant forall m <- found :: Genuine(l, r, alphabet, m) && !m.RefStateUnreached?
      invariant found == [] ==> AgreesUpTo(l, r, l2r, p, alphabet, k)
    {
      var one: Option<Mismatch>;
      one, l2r, r2l, queue := StepInput(l, r, alphabet, ltrans, table, p, alphabet[k], l2r, r2l, queue, visited);
      if one.Some? { found := found + [one.value]; }
    }
  }

  lemma Dequeued(l: Machine, r: Machine, alphabet: seq<string>, l2r: map<string, string>, r2l: map<string, string>,
                 visited: set<Pair>, queue: seq<Pair>)
    requires queue != [] && Walk(l, r, alphabet, l2r, r2l, visited, queue)
    ensures Walk(l, r, alphabet, l2r, r2l, visited + {queue[0]}, queue[1..])
    ensures queue[0] in Universe(l, r)
  {
    hide Met;
    var p := queue[0];
    assert queue == [p] + queue[1..];
    assert p in queue;
    MetIsInUniverse(l, r, alphabet, p);
  }

  /** What has been visited agrees on every input, unless something was reported. */
  ghost predicate VisitedAgree(l: Machine, r: Machine, alphabet: seq<string>, l2r: map<string, string>, visited: set<Pair>) {
    forall p <- visited :: AgreesUpTo(l, r, l2r, p, alphabet, |alphabet|)
  }

  lemma StillAgree(l: Machine, r: Machine, alphabet: seq<string>, l2r: map<string, string>, more: map<string, string>, visited: set<Pair>)
    requires VisitedAgree(l, r, alphabet, l2r, visited)
    requires forall s :: s in l2r ==> s in more && more[s] == l2r[s]
    ensures VisitedAgree(l, r, alphabet, more, visited)
  {}

  lemma WalkEnded(l: Machine, r: Machine, alphabet: seq<string>, l2r: map<string, string>, r2l: map<string, string>, visited: set<Pair>)
    requires Walk(l, r, alphabet, l2r, r2l, visited, []) && VisitedAgree(l, r, alphabet, l2r, visited)
    ensures Isomorphic(l, r, alphabet)
    ensures forall t :: t in r2l <==> Reachable(r, alphabet, t)
  {
    hide Isomorphic, Met, Reachable;
    assert Closed(l, r, alphabet, l2r);
    ClosedIsIsomorphism(l, r, alphabet, l2r, r2l);
    forall t ensures t in r2l <==> Reachable(r, alphabet, t) {
      PairedIsReachable(l, r, alphabet, l2r, r2l, visited, t);
    }
  }

  /** Table states that were never paired and are not excused. */
  method ReportUnreached(table: Table, r2l: map<string, string>, expectedUnreachable: set<string>)
    returns (found: seq<Mismatch>)
    ensures forall s :: RefStateUnreached(s) in found <==> s in table && s !in r2l && s !in expectedUnreachable
    ensures forall m <- found :: m.RefStateUnreached?
  {
    found := [];
    var left := table.Keys;
    while left != {}
      invariant left <= table.Keys
      invariant forall s :: RefStateUnreached(s) in found <==> s in table.Keys - left && s !in r2l && s !in expectedUnreachable
      invariant forall m <- found :: m.RefStateUnreached?
    {
      var s :| s in left;
      if s !in r2l && s !in expectedUnreachable { found := found + [RefStateUnreached(s)]; }
      left := left - {s};
    }
  }

  /**
   * The verdict is clean exactly when the reachable parts are isomorphic and every table state
   * that is not excused is reached; between minimal machines, exactly when all input words are
   * answered alike and the table is so covered.  Every mismatch listed is genuine.  The states
   * reported as unreached are unexcused table states; every such state that is unreachable is
   * reported, and only those are when the machines are isomorphic.  The walk ends because each round
   * visits a new pair.
   */
  method Compare(learned: Learned, table: Table, refInitial: string, alphabet: seq<string>, expectedUnreachable: set<string>)
    returns (mismatches: seq<Mismatch>)
    ensures mismatches == []
       <==> && Isomorphic(LearnedMachine(learned), RefMachine(table, refInitial), alphabet)
            && Covered(table, refInitial, alphabet, expectedUnreachable)
    ensures Minimal(LearnedMachine(learned), alphabet) && Minimal(RefMachine(table, refInitial), alphabet) ==>
              (mismatches == []
               <==> && TraceEquivalent(LearnedMachine(learned), RefMachine(table, refInitial), alphabet)
                    && Covered(table, refInitial, alphabet, expectedUnreachable))
    ensures forall m <- mismatches :: Genuine(LearnedMachine(learned), RefMachine(table, refInitial), alphabet, m)
    ensures forall t :: RefStateUnreached(t) in mismatches ==> t in table && t !in expectedUnreachable
    ensures forall t :: t in table && t !in expectedUnreachable && !Reachable(RefMachine(table, refInitial), alphabet, t) ==>
              RefStateUnreached(t) in mismatches
  {
    hide Isomorphic, TraceEquivalent, Minimal, Met, Reachable, Walk, VisitedAgree, Universe, Genuine, RefMachine, Covered;
    ghost var l, r := LearnedMachine(learned), RefMachine(table, refInitial);
    var ltrans := BuildCells(learned.transitions);
    var l2r, r2l := map[learned.initial := refInitial], map[refInitial := learned.initial];
    var queue: seq<Pair> := [(learned.initial, refInitial)];
    var visited: set<Pair> := {};
    mismatches := [];
    RefStart(table, refInitial);
    WalkStarts(l, r, alphabet);
    while queue != []
      invariant Walk(l, r, alphabet, l2r, r2l, visited, queue)
      invariant visited <= Universe(l, r)
      invariant mismatches != [] ==> !Isomorphic(l, r, alphabet)
      invariant forall m <- mismatches :: Genuine(l, r, alphabet, m) && !m.RefStateUnreached?
      invariant mismatches == [] ==> VisitedAgree(l, r, alphabet, l2r, visited)
      decreases Universe(l, r) - visited, |queue|
    {
      Dequeued(l, r, alphabet, l2r, r2l, visited, queue);
      var p := queue[0];
      queue := queue[1..];
      if p in visited {
        assert visited + {p} == visited;
        continue;
      }
      ghost var before := l2r;
      var found: seq<Mismatch>;
      found, l2r, r2l, queue := VisitPair(l, r, alphabet, ltrans, table, p, l2r, r2l, queue, visited + {p});
      mismatches := mismatches + found;
      if mismatches == [] {
        StillAgree(l, r, alphabet, before, l2r, visited);
        OneMoreAgrees(l, r, alphabet, l2r, visited, p);
      }
      visited := visited + {p};
    }
    var unreached := ReportUnreached(table, r2l, expectedUnreachable);
    Verdict(l, table, refInitial, alphabet, expectedUnreachable, l2r, r2l, visited, mismatches, unreached);
    mismatches := mismatches + unreached;
  }

  /** What the walk's mismatches and the unreached states amount to together. */
  lemma Verdict(l: Machine, table: Table, refInitial: string, alphabet: seq<string>, excused: set<string>,
                l2r: map<string, string>, r2l: map<string, string>, visited: set<Pair>, walked: seq<Mismatch>, unreached: seq<Mismatch>)
    requires var r := RefMachine(table, refInitial);
             && Walk(l, r, alphabet, l2r, r2l, visited, [])
             && (walked != [] ==> !Isomorphic(l, r, alphabet))
             && (walked == [] ==> VisitedAgree(l, r, alphabet, l2r, visited))
             && (forall m <- walked :: Genuine(l, r, alphabet, m) && !m.RefStateUnreached?)
    requires forall t :: RefStateUnreached(t) in unreached <==> t in table && t !in r2l && t !in excused
    requires forall m <- unreached :: m.RefStateUnreached?
    ensures var r, all := RefMachine(table, refInitial), walked + unreached;
            && (all == [] <==> Isomorphic(l, r, alphabet) && Covered(table, refInitial, alphabet, excused))
            && (Minimal(l, alphabet) && Minimal(r, alphabet) ==>
                  (all == [] <==> TraceEquivalent(l, r, alphabet) && Covered(table, refInitial, alphabet, excused)))
            && (forall m <- all :: Genuine(l, r, alphabet, m))
            && (forall t :: RefStateUnreached(t) in all ==> t in table && t !in excused)
            && (forall t :: t in table && t !in excused && !Reachable(r, alphabet, t) ==> RefStateUnreached(t) in all)
  {
    hide Isomorphic, TraceEquivalent, Minimal, Met, Reachable, Walk, VisitedAgree, RefMachine, Genuine;
    var r, all := RefMachine(table, refInitial), walked + unreached;
    PairedWasReached(l, r, alphabet, l2r, r2l, visited);
    UnreachedReported(table, r2l, excused, unreached);
    if walked == [] { WalkEnded(l, r, alphabet, l2r, r2l, visited); }
    if Minimal(l, alphabet) && Minimal(r, alphabet) { MinimalEquivalence(l, r, alphabet); }
    forall m <- all ensures Genuine(l, r, alphabet, m) {
      if m in unreached {
        assert m == RefStateUnreached(m.refState);
        UnreachedIsGenuine(l, r, alphabet, m.refState, walked, r2l);
      }
    }
  }

  lemma UnreachedIsGenuine(l: Machine, r: Machine, alphabet: seq<string>, t: string, walked: seq<Mismatch>, r2l: map<string, string>)
    requires walked != [] ==> !Isomorphic(l, r, alphabet)
    requires walked == [] ==> forall x :: x in r2l <==> Reachable(r, alphabet, x)
    requires t !in r2l
    ensures Genuine(l, r, alphabet, RefStateUnreached(t))
  {
    hide Isomorphic, Reachable, Met;
  }

  lemma PairedWasReached(l: Machine, r: Machine, alphabet: seq<string>, l2r: map<string, string>, r2l: map<string, string>,
                         visited: set<Pair>)
    requires Walk(l, r, alphabet, l2r, r2l, visited, [])
    ensures forall t :: t in r2l ==> Reachable(r, alphabet, t)
  {
    hide After;
    forall t | t in r2l ensures Reachable(r, alphabet, t) {
      assert Met(l, r, alphabet, (r2l[t], t));
    }
  }

  lemma UnreachedReported(table: Table, r2l: map<string, string>, expectedUnreachable: set<string>, found: seq<Mismatch>)
    requires forall s :: RefStateUnreached(s) in found <==> s in table && s !in r2l && s !in expectedUnreachable
    requires forall m <- found :: m.RefStateUnreached?
    ensures found == [] <==> forall s <- table.Keys :: s in expectedUnreachable || s in r2l
  {
    if found != [] {
      assert found[0] in found;
      assert found[0] == RefStateUnreached(found[0].refState);
    }
  }

  lemma OneMoreAgrees(l: Machine, r: Machine, alphabet: seq<string>, l2r: map<string, string>, visited: set<Pair>, p: Pair)
    requires VisitedAgree(l, r, alphabet, l2r, visited) && AgreesUpTo(l, r, l2r, p, alphabet, |alphabet|)
    ensures VisitedAgree(l, r, alphabet, l2r, visited + {p})
  {}

  lemma RefStart(table: Table, initial: string)
    ensures RefMachine(table, initial).initial == initial
  {}

  lemma WalkStarts(l: Machine, r: Machine, alphabet: seq<string>)
    ensures Walk(l, r, alphabet, map[l.initial := r.initial], map[r.initial := l.initial], {}, [(l.initial, r.initial)])
    ensures VisitedAgree(l, r, alphabet, map[l.initial := r.initial], {})
  {
    StartsMet(l, r, alphabet);
  }

  lemma StartsMet(l: Machine, r: Machine, alphabet: seq<string>)
    ensures Met(l, r, alphabet, (l.initial, r.initial))
  {
    assert Over([], alphabet) && Reach(l, []) == Some(l.initial) && Reach(r, []) == Some(r.initial);
  }
}
