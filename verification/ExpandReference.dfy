/** The total machine read off a partial state table: listed rows, then the default rules in order. */
module ExpandReference {
  import opened Bytes
  import opened Mealy
  import DiffModel

  const INIT_CLOSE := "INIT_CLOSE"
  const CLOSED := "CLOSED"
  const CLOSING := "CLOSING"
  const ESTABLISHED := "ESTABLISHED"
  const SILENT := "SILENT"
  const APP := "APP"

  datatype ListedRow = ListedRow(role: string, from: string, input: string, output: string, to: string)

  datatype StateTable = StateTable(
    states: map<string, seq<string>>,
    inputAlphabet: seq<string>,
    transitions: seq<ListedRow>,
    keyEstablished: map<string, bool>,
    outputPostKey: string,
    outputPreKey: string,
    unauthInputs: set<string>,
    unauthStates: set<string>)

  function Inputs(t: StateTable): seq<string> { t.inputAlphabet + [INIT_CLOSE] }

  /** The rows that apply to a role; a later one replaces an earlier one. */
  function Listed(rows: seq<ListedRow>, role: string): map<(string, string), Cell> {
    if rows == [] then map[]
    else
      var r := rows[|rows| - 1];
      var before := Listed(rows[..|rows| - 1], role);
      if r.role != role && r.role != "both" then before
      else before[(r.from, r.input) := Cell(r.output, r.to)]
  }

  /** No rule but the last one speaks for this cell: the association is aborted. */
  predicate Aborts(t: StateTable, role: string, s: string, i: string) {
    && (s, i) !in Listed(t.transitions, role)
    && s != CLOSED
    && !(i in t.unauthInputs && s in t.unauthStates)
    && i != INIT_CLOSE
    && !(i == APP && s != ESTABLISHED && s != CLOSING)
  }

  function ExpectedCell(t: StateTable, role: string, s: string, i: string): Cell {
    var listed := Listed(t.transitions, role);
    if (s, i) in listed then listed[(s, i)]
    else if Aborts(t, role, s, i) then
      Cell(if s in t.keyEstablished && t.keyEstablished[s] then t.outputPostKey else t.outputPreKey, CLOSED)
    else if s == ESTABLISHED && i == INIT_CLOSE && !(i in t.unauthInputs && s in t.unauthStates) then Cell(SILENT, CLOSING)
    else Cell(SILENT, s)
  }

  function Expanded(t: StateTable, role: string): DiffModel.Table
    requires role in t.states
  {
    map s | s in t.states[role] :: map i | i in Inputs(t) :: ExpectedCell(t, role, s, i)
  }

  // ---------- what a cell must be, rule by rule ----------

  predicate SpeaksFor(r: ListedRow, role: string, s: string, i: string) {
    (r.role == role || r.role == "both") && r.from == s && r.input == i
  }

  /** Row k is the last that speaks for the cell. */
  predicate LastRow(rows: seq<ListedRow>, role: string, s: string, i: string, k: nat)
    requires k < |rows|
  {
    SpeaksFor(rows[k], role, s, i) && forall j :: k < j < |rows| ==> !SpeaksFor(rows[j], role, s, i)
  }

  predicate Unlisted(rows: seq<ListedRow>, role: string, s: string, i: string) {
    forall k :: 0 <= k < |rows| ==> !SpeaksFor(rows[k], role, s, i)
  }

  predicate Dropped(t: StateTable, s: string, i: string) { i in t.unauthInputs && s in t.unauthStates }

  predicate TooEarly(s: string, i: string) { i == "APP" && s != "ESTABLISHED" && s != "CLOSING" }

  predicate KeyEstablished(t: StateTable, s: string) { s in t.keyEstablished && t.keyEstablished[s] == true }

  /** What the default rules, tried in this order, make of a cell. */
  ghost predicate DefaultFollowed(t: StateTable, s: string, i: string, c: Cell) {
    && (s == "CLOSED" ==> c == Cell("SILENT", "CLOSED"))
    && (s != "CLOSED" && Dropped(t, s, i) ==> c == Cell("SILENT", s))
    && (s == "ESTABLISHED" && !Dropped(t, s, i) && i == "INIT_CLOSE" ==> c == Cell("SILENT", "CLOSING"))
    && (s != "ESTABLISHED" && i == "INIT_CLOSE" ==> c == Cell("SILENT", s))
    && (TooEarly(s, i) ==> c == Cell("SILENT", s))
    && (s != "CLOSED" && !Dropped(t, s, i) && i != "INIT_CLOSE" && !TooEarly(s, i) ==>
          && c.next == "CLOSED"
          && (KeyEstablished(t, s) ==> c.output == t.outputPostKey)
          && (!KeyEstablished(t, s) ==> c.output == t.outputPreKey))
  }

  /** The last row for the role or for both roles wins; a cell no row speaks for follows the defaults. */
  ghost predicate Follows(t: StateTable, role: string, s: string, i: string, c: Cell) {
    var rows := t.transitions;
    && (forall k :: 0 <= k < |rows| && LastRow(rows, role, s, i, k) ==> c == Cell(rows[k].output, rows[k].to))
    && (Unlisted(rows, role, s, i) ==> DefaultFollowed(t, s, i, c))
  }

  lemma {:induction false} ListedNamed(rows: seq<ListedRow>, role: string, s: string, i: string)
    ensures (s, i) !in Listed(rows, role) <==> Unlisted(rows, role, s, i)
  {
    if rows != [] {
      var n := |rows| - 1;
      ListedNamed(rows[..n], role, s, i);
      if Unlisted(rows[..n], role, s, i) && !SpeaksFor(rows[n], role, s, i) {
        assert forall k :: 0 <= k < n ==> rows[..n][k] == rows[k];
      }
    }
  }

  lemma {:induction false} ListedLast(rows: seq<ListedRow>, role: string, s: string, i: string, k: nat)
    requires k < |rows| && LastRow(rows, role, s, i, k)
    ensures (s, i) in Listed(rows, role) && Listed(rows, role)[(s, i)] == Cell(rows[k].output, rows[k].to)
  {
    var n := |rows| - 1;
    if k < n {
      assert !SpeaksFor(rows[n], role, s, i);
      ListedLast(rows[..n], role, s, i, k);
    }
  }

  /** The listed cells are the ones some row speaks for, each as its last row says. */
  lemma ListedExactly(rows: seq<ListedRow>, role: string, s: string, i: string)
    ensures (s, i) !in Listed(rows, role) <==> Unlisted(rows, role, s, i)
    ensures forall k :: 0 <= k < |rows| && LastRow(rows, role, s, i, k) ==>
              (s, i) in Listed(rows, role) && Listed(rows, role)[(s, i)] == Cell(rows[k].output, rows[k].to)
  {
    hide Listed, LastRow, Unlisted;
    ListedNamed(rows, role, s, i);
    forall k | 0 <= k < |rows| && LastRow(rows, role, s, i, k)
      ensures (s, i) in Listed(rows, role) && Listed(rows, role)[(s, i)] == Cell(rows[k].output, rows[k].to)
    {
      ListedLast(rows, role, s, i, k);
    }
  }

  lemma ExpectedFollows(t: StateTable, role: string, s: string, i: string)
    ensures Follows(t, role, s, i, ExpectedCell(t, role, s, i))
  {
    hide Listed, LastRow, Unlisted;
    ListedExactly(t.transitions, role, s, i);
  }

  // ---------- the loops ----------

  method BuildListed(rows: seq<ListedRow>, role: string) returns (listed: map<(string, string), Cell>)
    ensures listed == Listed(rows, role)
    ensures forall s, i :: (s, i) !in listed <==> Unlisted(rows, role, s, i)
    ensures forall k, s, i :: 0 <= k < |rows| && LastRow(rows, role, s, i, k) ==>
              (s, i) in listed && listed[(s, i)] == Cell(rows[k].output, rows[k].to)
  {
    listed := map[];
    for k := 0 to |rows|
      invariant listed == Listed(rows[..k], role)
    {
      assert rows[..k + 1][..k] == rows[..k];
      var tr := rows[k];
      if tr.role != role && tr.role != "both" { continue; }
      listed := listed[(tr.from, tr.input) := Cell(tr.output, tr.to)];
    }
    assert rows[..|rows|] == rows;
    forall s, i { ListedExactly(rows, role, s, i); }
  }

  method FillRow(t: StateTable, role: string, listed: map<(string, string), Cell>, s: string)
    returns (row: map<string, Cell>)
    requires listed == Listed(t.transitions, role)
    ensures row == map i | i in Inputs(t) :: ExpectedCell(t, role, s, i)
    ensures forall i :: i in row <==> i in t.inputAlphabet || i == "INIT_CLOSE"
    ensures forall i <- row :: Follows(t, role, s, i, row[i])
  {
    hide Listed;
    row := map[];
    var inputs := Inputs(t);
    for k := 0 to |inputs|
      invariant row.Keys == set i | i in inputs[..k]
      invariant forall i <- row.Keys :: row[i] == ExpectedCell(t, role, s, i)
    {
      assert inputs[..k + 1] == inputs[..k] + [inputs[k]];
      var inp := inputs[k];
      if (s, inp) in listed {
        row := row[inp := listed[(s, inp)]];
      } else if s == CLOSED {
        row := row[inp := Cell(SILENT, CLOSED)];
      } else if inp in t.unauthInputs && s in t.unauthStates {
        row := row[inp := Cell(SILENT, s)];
      } else if inp == INIT_CLOSE {
        row := row[inp := Cell(SILENT, if s == ESTABLISHED then CLOSING else s)];
      } else if inp == APP && s !in {ESTABLISHED, CLOSING} {
        row := row[inp := Cell(SILENT, s)];
      } else {
        var ke := s in t.keyEstablished && t.keyEstablished[s];
        row := row[inp := Cell(if ke then t.outputPostKey else t.outputPreKey, CLOSED)];
      }
    }
    assert inputs[..|inputs|] == inputs;
    forall i | i in row ensures Follows(t, role, s, i, row[i]) { ExpectedFollows(t, role, s, i); }
  }

  method Expand(t: StateTable, role: string) returns (ref: DiffModel.Table)
    requires role in t.states
    ensures ref == Expanded(t, role)
    ensures forall s :: s in ref <==> s in t.states[role]
    ensures forall s <- ref, i :: i in ref[s] <==> i in t.inputAlphabet || i == "INIT_CLOSE"
    ensures forall s <- ref, i | i in ref[s] :: Follows(t, role, s, i, ref[s][i])
  {
    hide Listed, ExpectedCell, Follows;
    var states := t.states[role];
    var listed := BuildListed(t.transitions, role);
    ref := map[];
    for k := 0 to |states|
      invariant ref.Keys == set s | s in states[..k]
      invariant forall s <- ref.Keys :: ref[s] == map i | i in Inputs(t) :: ExpectedCell(t, role, s, i)
      invariant forall s <- ref.Keys, i | i in ref[s] :: Follows(t, role, s, i, ref[s][i])
    {
      assert states[..k + 1] == states[..k] + [states[k]];
      var row := FillRow(t, role, listed, states[k]);
      ref := ref[states[k] := row];
    }
    assert states[..|states|] == states;
  }

  // ---------- runs of the expanded machine ----------

  function ExpandedMachine(t: StateTable, role: string, initial: string): Machine
    requires role in t.states
  {
    DiffModel.RefMachine(Expanded(t, role), initial)
  }

  /** Every cell leads to a state of the table. */
  ghost predicate Consistent(t: StateTable, role: string)
    requires role in t.states
  {
    var states, listed := t.states[role], Listed(t.transitions, role);
    && CLOSED in states && (ESTABLISHED in states ==> CLOSING in states)
    && forall k <- listed :: k.0 in states && k.1 in Inputs(t) ==> listed[k].next in states
  }

  lemma CellAt(t: StateTable, role: string, initial: string, s: string, i: string)
    requires role in t.states && s in t.states[role] && i in Inputs(t)
    ensures var m := ExpandedMachine(t, role, initial);
            (s, i) in m.cells && m.cells[(s, i)] == ExpectedCell(t, role, s, i)
    ensures Consistent(t, role) ==> ExpectedCell(t, role, s, i).next in t.states[role]
  {
    hide ExpectedCell, Consistent;
    if Consistent(t, role) { CellStays(t, role, s, i); }
  }

  lemma CellStays(t: StateTable, role: string, s: string, i: string)
    requires role in t.states && s in t.states[role] && i in Inputs(t) && Consistent(t, role)
    ensures ExpectedCell(t, role, s, i).next in t.states[role]
  {
    hide Listed, Inputs;
  }

  /** The expanded machine has one cell for every state of the role and every input, and it follows the table. */
  lemma ExpandedCells(t: StateTable, role: string, initial: string)
    requires role in t.states
    ensures var m := ExpandedMachine(t, role, initial);
            && m.initial == initial
            && (forall s, i :: (s, i) in m.cells <==>
                  s in t.states[role] && (i in t.inputAlphabet || i == "INIT_CLOSE"))
            && forall s, i :: (s, i) in m.cells ==> Follows(t, role, s, i, m.cells[(s, i)])
  {
    hide Follows, ExpectedCell, ExpandedMachine;
    var m := ExpandedMachine(t, role, initial);
    CellPlaces(t, role, initial);
    forall s, i | (s, i) in m.cells ensures Follows(t, role, s, i, m.cells[(s, i)]) {
      CellAt(t, role, initial, s, i);
      ExpectedFollows(t, role, s, i);
    }
  }

  lemma CellPlaces(t: StateTable, role: string, initial: string)
    requires role in t.states
    ensures var m := ExpandedMachine(t, role, initial);
            && m.initial == initial
            && forall s, i :: (s, i) in m.cells <==> s in t.states[role] && i in Inputs(t)
  {
    hide ExpectedCell;
  }

  /** Every input word has a run that stays inside the table's states. */
  lemma {:induction false} Total(t: StateTable, role: string, initial: string, s: string, w: Word)
    requires role in t.states && Consistent(t, role) && s in t.states[role] && Over(w, Inputs(t))
    ensures var m := ExpandedMachine(t, role, initial);
            After(m, s, w).Some? && After(m, s, w).value in t.states[role] && Outputs(m, s, w).Some?
    decreases |w|
  {
    hide Consistent, Expanded, ExpectedCell;
    if w != [] {
      CellAt(t, role, initial, s, w[0]);
      Total(t, role, initial, ExpectedCell(t, role, s, w[0]).next, w[1..]);
    }
  }

  /** The table lists nothing that leaves CLOSED or makes it speak. */
  ghost predicate ClosedIsTerminal(t: StateTable, role: string) {
    var listed := Listed(t.transitions, role);
    forall i <- Inputs(t) :: (CLOSED, i) in listed ==> listed[(CLOSED, i)] == Cell(SILENT, CLOSED)
  }

  ghost predicate AllSilent(o: seq<string>) { forall k :: 0 <= k < |o| ==> o[k] == SILENT }

  lemma {:induction false} ClosedStays(t: StateTable, role: string, initial: string, w: Word)
    requires role in t.states && CLOSED in t.states[role] && ClosedIsTerminal(t, role) && Over(w, Inputs(t))
    ensures var m := ExpandedMachine(t, role, initial);
            && After(m, CLOSED, w) == Some(CLOSED)
            && Outputs(m, CLOSED, w).Some? && AllSilent(Outputs(m, CLOSED, w).value)
    decreases |w|
  {
    hide Expanded, Listed;
    if w != [] {
      CellAt(t, role, initial, CLOSED, w[0]);
      assert ExpectedCell(t, role, CLOSED, w[0]) == Cell(SILENT, CLOSED);
      ClosedStays(t, role, initial, w[1..]);
    }
  }

  /** CLOSED absorbs every word in silence exactly when no listed row makes it do otherwise. */
  lemma ClosedAbsorbs(t: StateTable, role: string, initial: string)
    requires role in t.states && CLOSED in t.states[role]
    ensures ClosedIsTerminal(t, role)
       <==> forall w: Word :: Over(w, Inputs(t)) ==>
              var m := ExpandedMachine(t, role, initial);
              && After(m, CLOSED, w) == Some(CLOSED)
              && Outputs(m, CLOSED, w).Some? && AllSilent(Outputs(m, CLOSED, w).value)
  {
    hide ExpandedMachine, Listed, AllSilent, After, Outputs, ExpectedCell;
    var m := ExpandedMachine(t, role, initial);
    if ClosedIsTerminal(t, role) {
      forall w: Word | Over(w, Inputs(t))
        ensures After(m, CLOSED, w) == Some(CLOSED) && Outputs(m, CLOSED, w).Some? && AllSilent(Outputs(m, CLOSED, w).value)
      {
        ClosedStays(t, role, initial, w);
      }
    } else {
      var i :| i in Inputs(t) && (CLOSED, i) in Listed(t.transitions, role)
               && Listed(t.transitions, role)[(CLOSED, i)] != Cell(SILENT, CLOSED);
      ListedCell(t, role, i);
      OneLoudCell(t, role, initial, i);
      assert Over([i], Inputs(t));
    }
  }

  lemma ListedCell(t: StateTable, role: string, i: string)
    requires (CLOSED, i) in Listed(t.transitions, role)
    ensures ExpectedCell(t, role, CLOSED, i) == Listed(t.transitions, role)[(CLOSED, i)]
  {}

  lemma OneLoudCell(t: StateTable, role: string, initial: string, i: string)
    requires role in t.states && CLOSED in t.states[role] && i in Inputs(t)
    requires ExpectedCell(t, role, CLOSED, i) != Cell(SILENT, CLOSED)
    ensures var m := ExpandedMachine(t, role, initial);
            !(After(m, CLOSED, [i]) == Some(CLOSED) && Outputs(m, CLOSED, [i]).Some? && AllSilent(Outputs(m, CLOSED, [i]).value))
  {
    hide Expanded, ExpectedCell;
    CellAt(t, role, initial, CLOSED, i);
    var m := ExpandedMachine(t, role, initial);
    var c := m.cells[(CLOSED, i)];
    assert [i][1..] == [];
    assert After(m, CLOSED, [i]) == Some(c.next);
    assert Outputs(m, CLOSED, [i]) == Some([c.output] + []);
    assert ([c.output] + [])[0] == c.output;
  }

  // ---------- an association is aborted at most once ----------

  /** How often a run takes a cell of the default abort rule. */
  function Aborted(t: StateTable, role: string, s: string, w: Word): nat
    decreases |w|
  {
    if w == [] then 0
    else (if Aborts(t, role, s, w[0]) then 1 else 0) + Aborted(t, role, ExpectedCell(t, role, s, w[0]).next, w[1..])
  }

  lemma {:induction false} NoAbortAfterClosed(t: StateTable, role: string, w: Word)
    requires ClosedIsTerminal(t, role) && Over(w, Inputs(t))
    ensures Aborted(t, role, CLOSED, w) == 0
    decreases |w|
  {
    hide Listed;
    if w != [] { NoAbortAfterClosed(t, role, w[1..]); }
  }

  lemma {:induction false} AbortsOnce(t: StateTable, role: string, s: string, w: Word)
    requires ClosedIsTerminal(t, role) && Over(w, Inputs(t))
    ensures Aborted(t, role, s, w) <= 1
    decreases |w|
  {
    hide ClosedIsTerminal, Listed;
    if w != [] {
      if Aborts(t, role, s, w[0]) {
        NoAbortAfterClosed(t, role, w[1..]);
      } else {
        AbortsOnce(t, role, ExpectedCell(t, role, s, w[0]).next, w[1..]);
      }
    }
  }

  // ---------- closing needs an established association ----------

  /** No listed row enters CLOSING from a state other than ESTABLISHED and CLOSING itself. */
  ghost predicate ClosingIsEntered(t: StateTable, role: string) {
    var listed := Listed(t.transitions, role);
    forall k <- listed :: listed[k].next == CLOSING ==> k.0 == ESTABLISHED || k.0 == CLOSING
  }

  /** A run from anywhere but CLOSING that ends in CLOSING passed through ESTABLISHED. */
  lemma {:induction false} ClosingWasEstablished(t: StateTable, role: string, initial: string, s: string, w: Word)
    requires role in t.states && Consistent(t, role) && ClosingIsEntered(t, role)
    requires s in t.states[role] && s != CLOSING && Over(w, Inputs(t))
    requires After(ExpandedMachine(t, role, initial), s, w) == Some(CLOSING)
    ensures exists n :: 0 <= n <= |w| && After(ExpandedMachine(t, role, initial), s, w[..n]) == Some(ESTABLISHED)
    decreases |w|
  {
    hide Expanded, Listed, Consistent;
    var m := ExpandedMachine(t, role, initial);
    if s == ESTABLISHED {
      assert After(m, s, w[..0]) == Some(ESTABLISHED);
    } else {
      CellAt(t, role, initial, s, w[0]);
      var next := ExpectedCell(t, role, s, w[0]).next;
      assert next != CLOSING;
      ClosingWasEstablished(t, role, initial, next, w[1..]);
      var n :| 0 <= n <= |w| - 1 && After(m, next, w[1..][..n]) == Some(ESTABLISHED);
      assert w[..n + 1][0] == w[0] && w[..n + 1][1..] == w[1..][..n];
    }
  }
}
