/**
 * The driver's outbound epoch and sequence counters, and the nonces its sealed frames use over
 * whole established-phase runs.
 */
module SealCounters {
  import opened Bytes
  import opened KeySchedule

  const LIMIT: nat := 0x1_0000_0000_0000_0000

  /** One channel's send counter; both numbers wrap at 64 bits. */
  datatype ChanState = ChanState(epoch: u64, seqno: u64) {
    function Bump(): ChanState { ChanState(epoch, (seqno + 1) % LIMIT) }
    function Advance(): ChanState { ChanState((epoch + 1) % LIMIT, 0) }
  }

  datatype Counters = Counters(ctrl: ChanState, app: ChanState)

  const ORIGIN: ChanState := ChanState(0, 0)
  const START: Counters := Counters(ORIGIN, ORIGIN)

  datatype Symbol =
    | ClientHelloSym | ServerHelloSym | ServerHelloBadSel | ServerAuthSym | ServerAuthBadAuth
    | ClientAuthSym | ClientAuthBadAuth | KeyUpdate | KeyUpdateAck | Close | CloseAck | Unknown | App

  predicate Cleartext(i: Symbol) { i.ClientHelloSym? || i.ServerHelloSym? || i.ServerHelloBadSel? }
  predicate Corrupt(i: Symbol) { i.ServerAuthBadAuth? || i.ClientAuthBadAuth? }

  /** The symbols that become sealed Control frames. */
  predicate Control(i: Symbol) { !Cleartext(i) && !i.App? }

  /** A frame the driver sealed: under which secret, where in its key schedule, and whether its octets were damaged afterwards. */
  datatype Sealing = Sealing(base: bytes, channel: u16, at: ChanState, corrupt: bool)

  function Emit(c: Counters, base: bytes, i: Symbol): Option<Sealing> {
    if i.App? then Some(Sealing(base, CHAN_MEMORY, ChanState(0, c.app.seqno), false))
    else if Cleartext(i) then None
    else Some(Sealing(base, CHAN_CONTROL, c.ctrl, Corrupt(i)))
  }

  /** A damaged frame leaves the counter where it was; a key update moves on to the next epoch. */
  function Next(c: Counters, i: Symbol): Counters {
    if i.App? then c.(app := c.app.Bump())
    else if Cleartext(i) || Corrupt(i) then c
    else if i.KeyUpdate? then c.(ctrl := c.ctrl.Bump().Advance())
    else c.(ctrl := c.ctrl.Bump())
  }

  /** Which symbols seal a frame, on which channel, and which of those are then damaged. */
  lemma SealedSymbols(c: Counters, base: bytes, i: Symbol)
    ensures Emit(c, base, i).None? <==> i in {ClientHelloSym, ServerHelloSym, ServerHelloBadSel}
    ensures Emit(c, base, i).Some? ==>
              var s := Emit(c, base, i).value;
              && s.base == base
              && (s.channel == 0x0001 <==> i == App) && (s.channel == 0x0000 <==> i != App)
              && (s.corrupt <==> i in {ServerAuthBadAuth, ClientAuthBadAuth})
              && (i != App ==> s.at == c.ctrl) && (i == App ==> s.at == ChanState(0, c.app.seqno))
  {}

  /** One entry per step: the symbol injected, or None for a step that builds no frame. */
  type Run = seq<Option<Symbol>>

  function CountersAfter(run: Run): Counters {
    if run == [] then START
    else
      var c, last := CountersAfter(run[..|run| - 1]), run[|run| - 1];
      if last.Some? then Next(c, last.value) else c
  }

  /** The frame step `k` of a run seals. */
  function SealedAt(run: Run, base: bytes, k: nat): Option<Sealing>
    requires k < |run|
  {
    if run[k].Some? then Emit(CountersAfter(run[..k]), base, run[k].value) else None
  }

  predicate SealsControl(x: Option<Symbol>) { x.Some? && Control(x.value) }
  predicate Damages(x: Option<Symbol>) { x.Some? && Corrupt(x.value) }

  // ---------- what the counters count ----------

  function Count(run: Run, sym: Symbol): nat {
    if run == [] then 0 else Count(run[..|run| - 1], sym) + if run[|run| - 1] == Some(sym) then 1 else 0
  }

  /** Undamaged Control frames sealed since the last key update. */
  function SinceUpdate(run: Run): nat {
    if run == [] || run[|run| - 1] == Some(KeyUpdate) then 0
    else
      var last := run[|run| - 1];
      SinceUpdate(run[..|run| - 1]) + if SealsControl(last) && !Damages(last) then 1 else 0
  }

  lemma NextCounts(c: Counters, i: Symbol)
    requires c.ctrl.epoch + 1 < LIMIT && c.ctrl.seqno + 1 < LIMIT && c.app.seqno + 1 < LIMIT
    ensures var d := Next(c, i);
            && d.ctrl.epoch == c.ctrl.epoch + (if i.KeyUpdate? then 1 else 0)
            && d.ctrl.seqno == (if i.KeyUpdate? then 0 else c.ctrl.seqno + if Control(i) && !Corrupt(i) then 1 else 0)
            && d.app == ChanState(c.app.epoch, c.app.seqno + if i.App? then 1 else 0)
  {}

  /** Epoch, Control sequence and application sequence are counts of what the run contained. */
  lemma {:induction false} CountersMean(run: Run)
    requires |run| < LIMIT
    ensures var c := CountersAfter(run);
            && c.ctrl.epoch == Count(run, KeyUpdate) && c.ctrl.seqno == SinceUpdate(run)
            && c.app.epoch == 0 && c.app.seqno == Count(run, App)
    ensures Count(run, KeyUpdate) <= |run| && SinceUpdate(run) <= |run| && Count(run, App) <= |run|
  {
    hide Next, Control, Corrupt;
    if run != [] {
      var before, last := run[..|run| - 1], run[|run| - 1];
      CountersMean(before);
      if last.Some? { NextCounts(CountersAfter(before), last.value); }
    }
  }

  // ---------- counters only move forward ----------

  predicate Before(a: ChanState, b: ChanState) { a.epoch < b.epoch || (a.epoch == b.epoch && a.seqno < b.seqno) }
  predicate NotAfter(a: ChanState, b: ChanState) { a == b || Before(a, b) }

  function On(c: Counters, channel: u16): ChanState { if channel == CHAN_CONTROL then c.ctrl else c.app }

  lemma StepCounters(run: Run, k: nat)
    requires k < |run|
    ensures CountersAfter(run[..k + 1]) ==
            if run[k].Some? then Next(CountersAfter(run[..k]), run[k].value) else CountersAfter(run[..k])
  {
    assert run[..k + 1][..k] == run[..k];
  }

  /** A step never moves a counter back, and moves the one it sealed an undamaged frame on. */
  lemma StepForward(run: Run, base: bytes, k: nat)
    requires k < |run| < LIMIT
    ensures var c, d := CountersAfter(run[..k]), CountersAfter(run[..k + 1]);
            && NotAfter(c.ctrl, d.ctrl) && NotAfter(c.app, d.app)
            && (SealedAt(run, base, k).Some? ==>
                  var s := SealedAt(run, base, k).value;
                  && (s.channel == CHAN_CONTROL || s.channel == CHAN_MEMORY) && s.at == On(c, s.channel) && s.base == base
                  && (s.channel == CHAN_CONTROL <==> SealsControl(run[k])) && (s.corrupt <==> Damages(run[k]))
                  && (!s.corrupt ==> Before(s.at, On(d, s.channel))))
  {
    hide CountersAfter;
    CountersMean(run[..k]);
    StepCounters(run, k);
    if run[k].Some? { NextCounts(CountersAfter(run[..k]), run[k].value); }
  }

  lemma {:induction false} CountersOnward(run: Run, i: nat, j: nat)
    requires i <= j <= |run| < LIMIT
    ensures var c, d := CountersAfter(run[..i]), CountersAfter(run[..j]); NotAfter(c.ctrl, d.ctrl) && NotAfter(c.app, d.app)
    decreases j
  {
    hide CountersAfter, SealedAt;
    if i < j {
      CountersOnward(run, i, j - 1);
      StepForward(run, [], j - 1);
    }
  }

  /** Two frames on one channel, the earlier one undamaged, sit at strictly increasing (epoch, sequence) pairs. */
  lemma StrictlyForward(run: Run, base: bytes, i: nat, j: nat)
    requires i < j < |run| < LIMIT && SealedAt(run, base, i).Some? && SealedAt(run, base, j).Some?
    requires var s, t := SealedAt(run, base, i).value, SealedAt(run, base, j).value; s.channel == t.channel && !s.corrupt
    ensures Before(SealedAt(run, base, i).value.at, SealedAt(run, base, j).value.at)
  {
    hide CountersAfter, SealedAt;
    StepForward(run, base, i);
    CountersOnward(run, i + 1, j);
    StepForward(run, base, j);
  }

  /** The Control counter is where it started exactly until an undamaged Control frame is sealed. */
  lemma {:induction false} AtOrigin(run: Run, j: nat)
    requires j <= |run| < LIMIT
    ensures CountersAfter(run[..j]).ctrl == ORIGIN <==> forall k :: 0 <= k < j ==> !SealsControl(run[k]) || Damages(run[k])
  {
    hide CountersAfter, Next;
    if j == 0 {
      assert CountersAfter(run[..0]) == START by { NoSteps(run); }
    } else {
      AtOrigin(run, j - 1);
      StepCounters(run, j - 1);
      CountersMean(run[..j - 1]);
      if run[j - 1].Some? { NextCounts(CountersAfter(run[..j - 1]), run[j - 1].value); }
    }
  }

  lemma NoSteps(run: Run)
    ensures CountersAfter(run[..0]) == START
  {}

  // ---------- nonces ----------

  /** The secret, the key-derivation context and the nonce a frame is sealed under. */
  function KeyAndNonce(c: Crypto, dir: Direction, s: Sealing): (bytes, bytes, bytes)
    requires ExpandLengths(c)
  {
    IvLength(c, s.base, dir, s.at.epoch, s.channel);
    (s.base, TrafficContext(dir, s.at.epoch, AES256GCM, s.channel),
     Nonce(TrafficIv(c, s.base, dir, s.at.epoch, s.channel), s.at.seqno))
  }

  /** Two sealed frames share secret, context and nonce only at the same secret, channel, epoch and sequence number. */
  lemma SameNonceSamePlace(c: Crypto, dir: Direction, s: Sealing, t: Sealing)
    requires ExpandLengths(c)
    ensures KeyAndNonce(c, dir, s) == KeyAndNonce(c, dir, t) <==> s.base == t.base && s.channel == t.channel && s.at == t.at
  {
    hide TrafficContext, TrafficIv, Nonce, ExpandLengths;
    TrafficContextInjective(dir, s.at.epoch, AES256GCM, s.channel, dir, t.at.epoch, AES256GCM, t.channel);
    if s.base == t.base && s.channel == t.channel && s.at.epoch == t.at.epoch {
      IvLength(c, s.base, dir, s.at.epoch, s.channel);
      NonceInjective(TrafficIv(c, s.base, dir, s.at.epoch, s.channel), s.at.seqno, t.at.seqno);
    }
  }

  /** Over every run shorter than the counter range, no two undamaged frames share secret, context and nonce. */
  lemma NoNonceReuse(c: Crypto, dir: Direction, base: bytes, run: Run, i: nat, j: nat)
    requires ExpandLengths(c) && i < j < |run| < LIMIT
    requires SealedAt(run, base, i).Some? && !SealedAt(run, base, i).value.corrupt
    requires SealedAt(run, base, j).Some? && !SealedAt(run, base, j).value.corrupt
    ensures KeyAndNonce(c, dir, SealedAt(run, base, i).value) != KeyAndNonce(c, dir, SealedAt(run, base, j).value)
  {
    hide SealedAt, KeyAndNonce, ExpandLengths;
    var s, t := SealedAt(run, base, i).value, SealedAt(run, base, j).value;
    SameNonceSamePlace(c, dir, s, t);
    if s.channel == t.channel { StrictlyForward(run, base, i, j); }
  }

  // ---------- counting damaged frames too ----------

  /** Some Control symbol comes after a damaged one. */
  ghost predicate ControlAfterDamage(run: Run) {
    exists i, j :: 0 <= i < j < |run| && Damages(run[i]) && SealsControl(run[j])
  }

  ghost predicate AllDistinct(c: Crypto, dir: Direction, base: bytes, run: Run)
    requires ExpandLengths(c)
  {
    forall i, j :: 0 <= i < j < |run| && SealedAt(run, base, i).Some? && SealedAt(run, base, j).Some? ==>
      KeyAndNonce(c, dir, SealedAt(run, base, i).value) != KeyAndNonce(c, dir, SealedAt(run, base, j).value)
  }

  lemma ControlFrameAt(run: Run, base: bytes, k: nat)
    requires k < |run| && SealsControl(run[k])
    ensures SealedAt(run, base, k) == Some(Sealing(base, CHAN_CONTROL, CountersAfter(run[..k]).ctrl, Damages(run[k])))
  {}

  /** The next Control frame after a damaged one is sealed where the damaged one was. */
  lemma {:induction false} DamageRepeats(run: Run, i: nat, j: nat) returns (k: nat)
    requires i < j < |run| && Damages(run[i]) && SealsControl(run[j])
    ensures i < k <= j && SealsControl(run[i]) && SealsControl(run[k])
    ensures CountersAfter(run[..k]).ctrl == CountersAfter(run[..i]).ctrl
    decreases j
  {
    hide CountersAfter;
    if m :| i < m < j && SealsControl(run[m]) {
      k := DamageRepeats(run, i, m);
    } else {
      k := j;
      QuietSteps(run, i, j);
    }
  }

  lemma {:induction false} QuietSteps(run: Run, i: nat, j: nat)
    requires i < j < |run| && Damages(run[i]) && forall m :: i < m < j ==> !SealsControl(run[m])
    ensures CountersAfter(run[..j]).ctrl == CountersAfter(run[..i]).ctrl
    decreases j
  {
    hide CountersAfter;
    StepCounters(run, j - 1);
    if i < j - 1 { QuietSteps(run, i, j - 1); }
  }

  /**
   * Counting the deliberately damaged frames as well, every frame of a run has its own secret,
   * context and nonce exactly when no Control symbol comes after a damaged one.
   */
  lemma DistinctExactly(c: Crypto, dir: Direction, base: bytes, run: Run)
    requires ExpandLengths(c) && |run| < LIMIT
    ensures AllDistinct(c, dir, base, run) <==> !ControlAfterDamage(run)
  {
    hide SealedAt, KeyAndNonce, ExpandLengths, CountersAfter;
    if ControlAfterDamage(run) {
      var i, j :| 0 <= i < j < |run| && Damages(run[i]) && SealsControl(run[j]);
      var k := DamageRepeats(run, i, j);
      ControlFrameAt(run, base, i);
      ControlFrameAt(run, base, k);
      SameNonceSamePlace(c, dir, SealedAt(run, base, i).value, SealedAt(run, base, k).value);
    } else {
      forall i, j | 0 <= i < j < |run| && SealedAt(run, base, i).Some? && SealedAt(run, base, j).Some?
        ensures KeyAndNonce(c, dir, SealedAt(run, base, i).value) != KeyAndNonce(c, dir, SealedAt(run, base, j).value)
      {
        var s, t := SealedAt(run, base, i).value, SealedAt(run, base, j).value;
        SameNonceSamePlace(c, dir, s, t);
        StepForward(run, base, i);
        StepForward(run, base, j);
        if s.channel == t.channel && !s.corrupt { StrictlyForward(run, base, i, j); }
      }
    }
  }

  /** A damaged frame and then any Control frame is a shortest run that repeats: shorter ones never do. */
  lemma DamageThenClose(c: Crypto, dir: Direction, base: bytes)
    requires ExpandLengths(c)
    ensures !AllDistinct(c, dir, base, [Some(ServerAuthBadAuth), Some(Close)])
    ensures forall run: Run :: |run| < 2 ==> AllDistinct(c, dir, base, run)
  {
    hide SealedAt, KeyAndNonce, ExpandLengths;
    var run := [Some(ServerAuthBadAuth), Some(Close)];
    assert Damages(run[0]) && SealsControl(run[1]);
    DistinctExactly(c, dir, base, run);
  }
}
