/**
 * The frames a driver seals over a whole episode, handshake and established phase together, and
 * exactly when no two of them share secret, context and nonce.
 */
module DriverNonces {
  import opened Bytes
  import opened KeySchedule
  import opened SealCounters
  import opened DriverRuns

  /** The scenario before step `k` of an episode. */
  function At(role: Role, sHS: bytes, run: seq<Event>, k: nat): State
    requires k <= |run|
  {
    After(role, Fresh(role, sHS), run[..k])
  }

  lemma AtNext(role: Role, sHS: bytes, run: seq<Event>, k: nat)
    requires k < |run| && run[k].Apply?
    ensures At(role, sHS, run, k + 1) == Step(role, At(role, sHS, run, k), run[k].input, run[k].seen).0
  {
    hide Step;
    assert run[..k + 1][..k] == run[..k];
  }

  lemma {:induction false} SealsAt(role: Role, sHS: bytes, run: seq<Event>, k: nat)
    requires NoReset(run) && k < |run|
    ensures run[k].Apply?
    ensures Seals(role, Fresh(role, sHS), run)[k] == Seal(At(role, sHS, run, k), run[k].input, run[k].seen)
    decreases |run|
  {
    hide Seal, After;
    assert run[k] in run;
    var before := run[..|run| - 1];
    if k < |before| {
      SealsAt(role, sHS, before, k);
      assert before[..k] == run[..k];
    }
  }

  // ---------- the two phases ----------

  /** Step `k` builds a frame from a symbol, in a scenario that is still open. */
  predicate Builds(role: Role, sHS: bytes, run: seq<Event>, k: nat)
    requires k < |run|
  {
    run[k].Apply? && run[k].input.Inject? && run[k].seen.built && !At(role, sHS, run, k).closed
  }

  /** A Control frame sealed before the scenario is established. */
  predicate Early(role: Role, sHS: bytes, run: seq<Event>, k: nat)
    requires k < |run|
  {
    Builds(role, sHS, run, k) && !At(role, sHS, run, k).established && Control(run[k].input.sym)
  }

  /** A Control frame sealed after that. */
  predicate Late(role: Role, sHS: bytes, run: seq<Event>, k: nat)
    requires k < |run|
  {
    Builds(role, sHS, run, k) && At(role, sHS, run, k).established && Control(run[k].input.sym)
  }

  predicate DamagedAt(run: seq<Event>, k: nat)
    requires k < |run|
  {
    run[k].Apply? && run[k].input.Inject? && Corrupt(run[k].input.sym)
  }

  /** What step `k` injects once established. */
  function Slot(role: Role, sHS: bytes, run: seq<Event>, k: nat): Option<Symbol>
    requires k < |run|
  {
    if Builds(role, sHS, run, k) && At(role, sHS, run, k).established then Some(run[k].input.sym) else None
  }

  function Slots(role: Role, sHS: bytes, run: seq<Event>): (r: Run)
    ensures |r| == |run| && forall k :: 0 <= k < |run| ==> r[k] == Slot(role, sHS, run, k)
  {
    seq(|run|, k requires 0 <= k < |run| => Slot(role, sHS, run, k))
  }

  lemma HandshakeCounters(role: Role, s: State, o: Observed)
    ensures HandshakeReaction(role, s, o).0.counters == s.counters
  {
    hide InitiatorReaction, ResponderReaction;
    if role.Initiator? { InitiatorCounters(s, o); } else { ResponderCounters(s, o); }
  }

  lemma PollCounters(s: State, c: Option<Completion>)
    ensures Poll(s, c).counters == s.counters && PollAccept(s, c).counters == s.counters
  {}

  lemma InitiatorCounters(s: State, o: Observed)
    ensures InitiatorReaction(s, o).0.counters == s.counters
  {
    hide Poll;
    PollCounters(s, o.first);
    if o.handshake.Some? && o.handshake.value.ClientAuthFrame? {
      PollCounters(s.(master := o.handshake.value.master), o.second);
    }
  }

  lemma ResponderCounters(s: State, o: Observed)
    ensures ResponderReaction(s, o).0.counters == s.counters
  {
    hide PollAccept, ClassifyResponder;
    if o.handshake.Some? {
      ClassifyCounters(s, o.handshake.value);
    } else {
      PollCounters(s, o.first);
      PollCounters(PollAccept(s, o.first), o.second);
    }
  }

  lemma ClassifyCounters(s: State, f: HandshakeFrame)
    ensures ClassifyResponder(s, f).0.counters == s.counters
  {}

  lemma StepMovesCounters(role: Role, s: State, i: Input, o: Observed)
    ensures Step(role, s, i, o).0.counters ==
            if !s.closed && s.established && i.Inject? && o.built then Next(s.counters, i.sym) else s.counters
  {
    hide Next, HandshakeReaction;
    HandshakeCounters(role, s, o);
  }

  /** An episode's counters are those of what it injected once established. */
  lemma {:induction false} EpisodeCounters(role: Role, sHS: bytes, run: seq<Event>, k: nat)
    requires NoReset(run) && k <= |run|
    ensures At(role, sHS, run, k).counters == CountersAfter(Slots(role, sHS, run)[..k])
    decreases k
  {
    hide Step, Next, CountersAfter;
    var slots := Slots(role, sHS, run);
    if k == 0 {
      NoSteps(slots);
      assert run[..0] == [];
    } else {
      hide At;
      assert run[k - 1] in run;
      EpisodeCounters(role, sHS, run, k - 1);
      AtNext(role, sHS, run, k - 1);
      StepMovesCounters(role, At(role, sHS, run, k - 1), run[k - 1].input, run[k - 1].seen);
      StepCounters(slots, k - 1);
    }
  }

  /** Later in an episode: what was established stays so, under the same master secret. */
  lemma AtOnward(role: Role, sHS: bytes, run: seq<Event>, i: nat, j: nat)
    requires NoReset(run) && i <= j <= |run|
    ensures Onward(At(role, sHS, run, i), At(role, sHS, run, j))
  {
    hide After, Onward, Step;
    assert run[..j] == run[..i] + run[i..j];
    AfterConcat(role, Fresh(role, sHS), run[..i], run[i..j]);
    assert NoReset(run[i..j]);
    EpisodeOnward(role, At(role, sHS, run, i), run[i..j]);
  }

  /** What a step seals, phase by phase. */
  lemma SealedIn(role: Role, sHS: bytes, run: seq<Event>, k: nat)
    requires NoReset(run) && k < |run|
    ensures var s, f, slots := At(role, sHS, run, k), Seals(role, Fresh(role, sHS), run)[k], Slots(role, sHS, run);
            && (Early(role, sHS, run, k) ==> f == Some(Sealing(s.base, CHAN_CONTROL, ORIGIN, DamagedAt(run, k))))
            && (!Early(role, sHS, run, k) ==> f == SealedAt(slots, MasterOf(s), k))
            && (Late(role, sHS, run, k) <==> SealsControl(slots[k]))
            && (Late(role, sHS, run, k) ==> (DamagedAt(run, k) <==> Damages(slots[k])))
            && (SealedAt(slots, MasterOf(s), k).Some? ==> s.established && !Early(role, sHS, run, k))
  {
    hide After, CountersAfter;
    SealsAt(role, sHS, run, k);
    EpisodeCounters(role, sHS, run, k);
  }

  // ---------- distinct keys and nonces ----------

  /** Every two sealed frames, damaged ones counted or not, differ in secret, context or nonce. */
  ghost predicate Distinct(c: Crypto, dir: Direction, ss: seq<Option<Sealing>>, damaged: bool)
    requires ExpandLengths(c)
  {
    forall i, j ::
      && 0 <= i < j < |ss| && ss[i].Some? && ss[j].Some?
      && (damaged || (!ss[i].value.corrupt && !ss[j].value.corrupt))
      ==> KeyAndNonce(c, dir, ss[i].value) != KeyAndNonce(c, dir, ss[j].value)
  }

  /** No undamaged Control frame was sealed between establishment and step `j`. */
  ghost predicate FirstLate(role: Role, sHS: bytes, run: seq<Event>, j: nat)
    requires j < |run|
  {
    forall k :: 0 <= k < j && Late(role, sHS, run, k) ==> DamagedAt(run, k)
  }

  /** Two steps of an episode that clash, by the phase they fall in and the secrets then in use. */
  ghost predicate Clash(role: Role, sHS: bytes, run: seq<Event>, damaged: bool, i: nat, j: nat)
    requires i < j < |run|
  {
    var s, t := At(role, sHS, run, i), At(role, sHS, run, j);
    var counted := damaged || (!DamagedAt(run, i) && !DamagedAt(run, j));
    || (counted && Early(role, sHS, run, i) && Early(role, sHS, run, j) && s.base == t.base)
    || (counted && Early(role, sHS, run, i) && Late(role, sHS, run, j) && s.base == MasterOf(t) && FirstLate(role, sHS, run, j))
    || (damaged && Late(role, sHS, run, i) && DamagedAt(run, i) && Late(role, sHS, run, j))
  }

  ghost predicate SomeClash(role: Role, sHS: bytes, run: seq<Event>, damaged: bool) {
    exists i, j :: 0 <= i < j < |run| && Clash(role, sHS, run, damaged, i, j)
  }

  lemma FirstLateAtOrigin(role: Role, sHS: bytes, run: seq<Event>, j: nat)
    requires NoReset(run) && j < |run| < LIMIT
    ensures FirstLate(role, sHS, run, j) <==> CountersAfter(Slots(role, sHS, run)[..j]).ctrl == ORIGIN
  {
    hide At, CountersAfter, Slots, SealsControl, Damages, Late, DamagedAt;
    var slots := Slots(role, sHS, run);
    AtOrigin(slots, j);
    forall k | 0 <= k < j
      ensures Late(role, sHS, run, k) <==> SealsControl(slots[k])
      ensures Late(role, sHS, run, k) ==> (DamagedAt(run, k) <==> Damages(slots[k]))
    {
      SealedIn(role, sHS, run, k);
    }
  }

  /** Frames that share secret, context and nonce clash. */
  lemma RepeatClashes(c: Crypto, dir: Direction, role: Role, sHS: bytes, run: seq<Event>, damaged: bool, i: nat, j: nat)
    requires ExpandLengths(c) && NoReset(run) && i < j < |run| < LIMIT
    requires var ss := Seals(role, Fresh(role, sHS), run);
             && ss[i].Some? && ss[j].Some? && (damaged || (!ss[i].value.corrupt && !ss[j].value.corrupt))
             && KeyAndNonce(c, dir, ss[i].value) == KeyAndNonce(c, dir, ss[j].value)
    ensures Clash(role, sHS, run, damaged, i, j)
  {
    hide At, CountersAfter, Slots, Early, Late, Seals, ExpandLengths, KeyAndNonce, FirstLate, DamagedAt, Builds;
    var ss, slots := Seals(role, Fresh(role, sHS), run), Slots(role, sHS, run);
    var s, t := At(role, sHS, run, i), At(role, sHS, run, j);
    SameNonceSamePlace(c, dir, ss[i].value, ss[j].value);
    SealedIn(role, sHS, run, i);
    SealedIn(role, sHS, run, j);
    AtOnward(role, sHS, run, i, j);
    if Early(role, sHS, run, i) {
      if !Early(role, sHS, run, j) {
        StepForward(slots, MasterOf(t), j);
        FirstLateAtOrigin(role, sHS, run, j);
      }
    } else {
      assert MasterOf(s) == MasterOf(t);
      StepForward(slots, MasterOf(s), i);
      StepForward(slots, MasterOf(s), j);
      EarlyIsOver(role, sHS, run, i, j);
      if !ss[i].value.corrupt { StrictlyForward(slots, MasterOf(s), i, j); }
    }
  }

  /** Once established, no later frame is an early one. */
  lemma EarlyIsOver(role: Role, sHS: bytes, run: seq<Event>, i: nat, j: nat)
    requires NoReset(run) && i < j < |run| && At(role, sHS, run, i).established
    ensures !Early(role, sHS, run, j)
  {
    hide At;
    AtOnward(role, sHS, run, i, j);
  }

  /** Steps that clash lead to frames that share secret, context and nonce. */
  lemma ClashRepeats(c: Crypto, dir: Direction, role: Role, sHS: bytes, run: seq<Event>, damaged: bool, i: nat, j: nat)
    requires ExpandLengths(c) && NoReset(run) && i < j < |run| < LIMIT && Clash(role, sHS, run, damaged, i, j)
    ensures !Distinct(c, dir, Seals(role, Fresh(role, sHS), run), damaged)
  {
    hide At, CountersAfter, Slots, Early, Late, Seals, ExpandLengths, KeyAndNonce, FirstLate, DamagedAt, SealedAt, SealsControl, Damages;
    var ss, slots := Seals(role, Fresh(role, sHS), run), Slots(role, sHS, run);
    var s, t := At(role, sHS, run, i), At(role, sHS, run, j);
    SealedIn(role, sHS, run, i);
    SealedIn(role, sHS, run, j);
    if Late(role, sHS, run, i) { ControlFrameAt(slots, MasterOf(s), i); }
    if Early(role, sHS, run, i) {
      if Late(role, sHS, run, j) {
        ControlFrameAt(slots, MasterOf(t), j);
        FirstLateAtOrigin(role, sHS, run, j);
      }
      SameNonceSamePlace(c, dir, ss[i].value, ss[j].value);
    } else {
      var k := DamageRepeats(slots, i, j);
      SealedIn(role, sHS, run, k);
      AtOnward(role, sHS, run, i, k);
      ControlFrameAt(slots, MasterOf(s), k);
      SameNonceSamePlace(c, dir, ss[i].value, ss[k].value);
    }
  }

  /**
   * Over any episode shorter than the counter range, whatever the peer does, all frames the driver
   * seals (the undamaged ones, or the damaged as well) differ in secret, context or nonce exactly when
   * no two of its steps clash: no two Control frames sealed before establishment under one secret, none
   * of those under the master secret itself before the first Control frame that follows, and, counting
   * damaged frames, no Control frame after a damaged one.
   */
  lemma EpisodeDistinctExactly(c: Crypto, dir: Direction, role: Role, sHS: bytes, run: seq<Event>, damaged: bool)
    requires ExpandLengths(c) && NoReset(run) && |run| < LIMIT
    ensures Distinct(c, dir, Seals(role, Fresh(role, sHS), run), damaged) <==> !SomeClash(role, sHS, run, damaged)
  {
    hide Clash, Seals, ExpandLengths, KeyAndNonce, Fresh;
    var ss := Seals(role, Fresh(role, sHS), run);
    if SomeClash(role, sHS, run, damaged) {
      var i, j :| 0 <= i < j < |run| && Clash(role, sHS, run, damaged, i, j);
      ClashRepeats(c, dir, role, sHS, run, damaged, i, j);
    } else if !Distinct(c, dir, ss, damaged) {
      var i, j :|
        && 0 <= i < j < |ss| && ss[i].Some? && ss[j].Some?
        && (damaged || (!ss[i].value.corrupt && !ss[j].value.corrupt))
        && KeyAndNonce(c, dir, ss[i].value) == KeyAndNonce(c, dir, ss[j].value);
      RepeatClashes(c, dir, role, sHS, run, damaged, i, j);
    }
  }

  /** Once established, undamaged frames never clash with one another. */
  lemma EpisodeNonces(c: Crypto, dir: Direction, role: Role, sHS: bytes, run: seq<Event>, i: nat, j: nat)
    requires ExpandLengths(c) && NoReset(run) && i < j < |run| < LIMIT && At(role, sHS, run, i).established
    requires var ss := Seals(role, Fresh(role, sHS), run);
             ss[i].Some? && ss[j].Some? && !ss[i].value.corrupt && !ss[j].value.corrupt
    ensures var ss := Seals(role, Fresh(role, sHS), run);
            KeyAndNonce(c, dir, ss[i].value) != KeyAndNonce(c, dir, ss[j].value)
  {
    hide At, Seals, ExpandLengths, KeyAndNonce, FirstLate, Late;
    var ss := Seals(role, Fresh(role, sHS), run);
    if KeyAndNonce(c, dir, ss[i].value) == KeyAndNonce(c, dir, ss[j].value) {
      RepeatClashes(c, dir, role, sHS, run, false, i, j);
    }
  }

  /** Before that they do: two sealed inputs to a peer that says nothing share secret, context and nonce. */
  lemma SilentPeerReuses(c: Crypto, dir: Direction, role: Role, sHS: bytes)
    requires ExpandLengths(c)
    ensures var quiet := Observed(true, true, None, None, None, None, ReceiveFailed);
            var run := [Apply(Inject(KeyUpdate), quiet), Apply(Inject(Close), quiet)];
            && !After(role, Fresh(role, sHS), run).closed
            && !Distinct(c, dir, Seals(role, Fresh(role, sHS), run), false)
  {
    hide ExpandLengths, KeyAndNonce, Seals;
    var quiet := Observed(true, true, None, None, None, None, ReceiveFailed);
    var run := [Apply(Inject(KeyUpdate), quiet), Apply(Inject(Close), quiet)];
    assert run[..0] == [] && run[..2] == run;
    AtNext(role, sHS, run, 0);
    AtNext(role, sHS, run, 1);
    assert At(role, sHS, run, 0) == Fresh(role, sHS);
    assert At(role, sHS, run, 1) == Fresh(role, sHS);
    assert Early(role, sHS, run, 0) && Early(role, sHS, run, 1);
    assert Clash(role, sHS, run, false, 0, 1);
    EpisodeDistinctExactly(c, dir, role, sHS, run, false);
  }
}
