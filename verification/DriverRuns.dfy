/**
 * The two scenario drivers of the learning harness as state machines: what a reset/step run keeps
 * whatever the peer does.  Everything the driver observes of the peer in one step is a parameter.
 */
module DriverRuns {
  import opened Bytes
  import opened KeySchedule
  import opened SealCounters

  /** Which side of the protocol the system under test plays. */
  datatype Role = Initiator | Responder

  datatype Input = Inject(sym: Symbol) | InitClose

  datatype Output = Silent | SilentAbort | ErrorCode(code: byte) | ClientAuthSeen | HelloAndAuth | Accepted | CloseAckSeen
                  | KeyUpdateAckSeen

  /** What the background dial or accept call reports when it returns. */
  datatype Completion = Completion(conn: bool, err: bool)

  /** How far deriving from the server's flight got: nothing, the client handshake secret, or the master secret as well. */
  datatype Derived = Underived | Secret(cHS: bytes) | SecretAndMaster(cHS: bytes, master: bytes)

  /** A handshake-phase reaction, with what opening and deriving from it yields. */
  datatype HandshakeFrame =
    | HandshakeError(code: Option<byte>)
    | ClientAuthFrame(master: Option<bytes>)
    | ServerHelloFrame(flight: bool, derived: Derived)
    | OtherFrame

  datatype RecordFrame = RecordError(code: Option<byte>) | CloseAckFrame | KeyUpdateAckFrame | OtherRecord

  datatype Received = Delivered | PeerClosed | ReceiveFailed

  /** One step's observations; `first` and `second` are what the completion channel offers at the two places it is asked. */
  datatype Observed = Observed(built: bool, written: bool, handshake: Option<HandshakeFrame>, first: Option<Completion>,
                               second: Option<Completion>, record: Option<RecordFrame>, recv: Received)

  /**
   * The scenario's fields.  `base` is the secret handshake-phase frames are sealed under; `taken` and
   * `closes` count completion-channel receives and CloseGraceful calls this episode.
   */
  datatype State = State(resolved: bool, err: bool, sutConn: bool, established: bool, closing: bool, closed: bool,
                         base: bytes, pending: Option<bytes>, master: Option<bytes>, counters: Counters, taken: nat, closes: nat)

  /** Thirty-two zero octets, standing in for the client handshake secret until a server flight has been seen. */
  const PLACEHOLDER: bytes := Be(0, 32)

  /** The state after a reset: the initiator driver has derived the server handshake secret, the responder driver nothing. */
  function Fresh(role: Role, sHS: bytes): State {
    State(false, false, false, false, false, false, if role.Initiator? then sHS else PLACEHOLDER, None, None, START, 0, 0)
  }

  // ---------- one step ----------

  function Poll(s: State, c: Option<Completion>): State {
    if !s.resolved && c.Some? then s.(resolved := true, err := c.value.err, sutConn := c.value.conn, taken := s.taken + 1)
    else s
  }

  function Promote(s: State): State {
    if s.resolved && !s.established && !s.err && s.pending.Some? then s.(master := s.pending, established := true) else s
  }

  function PollAccept(s: State, c: Option<Completion>): State { Promote(Poll(s, c)) }

  function ErrorSeen(s: State, code: Option<byte>, undecoded: Output): (State, Output) {
    (s.(closed := true), if code.Some? then ErrorCode(code.value) else undecoded)
  }

  /** After a genuine CLIENT_AUTH: established if the dial succeeded with a connection. */
  function Conclude(s: State): (State, Output) {
    if s.err || !s.sutConn then (s.(closed := true), SilentAbort) else (s.(established := true), ClientAuthSeen)
  }

  function ClassifyInitiator(s: State, f: HandshakeFrame, o: Observed): (State, Output) {
    match f
    case HandshakeError(code) => ErrorSeen(s, code, SilentAbort)
    case ClientAuthFrame(master) =>
      if master.None? then (s, Silent)
      else
        Conclude(Poll(s.(master := master), o.second))
    case _ => (s, Silent)
  }

  function Learn(s: State, d: Derived): State {
    match d
    case Underived => s
    case Secret(cHS) => s.(base := cHS)
    case SecretAndMaster(cHS, master) => s.(base := cHS, pending := Some(master))
  }

  function ClassifyResponder(s: State, f: HandshakeFrame): (State, Output) {
    match f
    case HandshakeError(code) => ErrorSeen(s, code, SilentAbort)
    case ServerHelloFrame(flight, derived) =>
      if !flight then (s, Silent) else (Learn(s, derived), HelloAndAuth)
    case _ => (s, Silent)
  }

  function InitiatorReaction(s: State, o: Observed): (State, Output) {
    if o.handshake.Some? then ClassifyInitiator(s, o.handshake.value, o)
    else
      var t := Poll(s, o.first);
      if t.resolved && t.err then (t.(closed := true), SilentAbort) else (t, Silent)
  }

  function ResponderReaction(s: State, o: Observed): (State, Output) {
    if o.handshake.Some? then ClassifyResponder(s, o.handshake.value)
    else
      var t := PollAccept(s, o.first);
      if t.resolved && t.err && !t.established then (t.(closed := true), SilentAbort)
      else (PollAccept(t, o.second), Silent)
  }

  function HandshakeReaction(role: Role, s: State, o: Observed): (State, Output) {
    if role.Initiator? then InitiatorReaction(s, o) else ResponderReaction(s, o)
  }

  function StepHandshake(role: Role, s: State, sym: Symbol, o: Observed): (State, Output) {
    if sym.App? || !o.built then (s, Silent)
    else if !o.written then (s.(closed := true), Silent)
    else HandshakeReaction(role, s, o)
  }

  function ClassifyRecord(s: State, f: RecordFrame): (State, Output) {
    match f
    case RecordError(code) => ErrorSeen(s, code, Silent)
    case CloseAckFrame => (s.(closed := true), CloseAckSeen)
    case KeyUpdateAckFrame => (s, KeyUpdateAckSeen)
    case OtherRecord => (s, Silent)
  }

  function InjectAndObserve(s: State, o: Observed): (State, Output) {
    if !o.written then (s.(closed := true), Silent)
    else if o.record.Some? then ClassifyRecord(s, o.record.value)
    else if o.recv.Delivered? then (s, Accepted)
    else if o.recv.PeerClosed? then (s.(closed := true), Silent)
    else (s, Silent)
  }

  function StepEstablished(s: State, sym: Symbol, o: Observed): (State, Output) {
    if !o.built then (s, Silent) else InjectAndObserve(s.(counters := Next(s.counters, sym)), o)
  }

  function StepInitClose(s: State): (State, Output) {
    if !s.sutConn || s.closing then (s, Silent) else (s.(closing := true, closes := s.closes + 1), Silent)
  }

  function Step(role: Role, s: State, i: Input, o: Observed): (State, Output) {
    if s.closed then (s, Silent)
    else if i.InitClose? then StepInitClose(s)
    else if s.established then StepEstablished(s, i.sym, o)
    else StepHandshake(role, s, i.sym, o)
  }

  function MasterOf(s: State): bytes { if s.master.Some? then s.master.value else [] }

  /**
   * The frame a step seals: once established, at the counters under the master secret; before that, at
   * epoch 0 and sequence number 0 of the Control channel under the handshake secret.
   */
  function Seal(s: State, i: Input, o: Observed): Option<Sealing> {
    if s.closed || i.InitClose? || !o.built then None
    else if s.established then Emit(s.counters, MasterOf(s), i.sym)
    else if Control(i.sym) then Some(Sealing(s.base, CHAN_CONTROL, ORIGIN, Corrupt(i.sym)))
    else None
  }

  // ---------- runs ----------

  datatype Event = Reset(sHS: bytes) | Apply(input: Input, seen: Observed)

  function StepEvent(role: Role, s: State, e: Event): State {
    if e.Reset? then Fresh(role, e.sHS) else Step(role, s, e.input, e.seen).0
  }

  /** The state after a run; reset starts over. */
  function After(role: Role, s: State, run: seq<Event>): State {
    if run == [] then s else StepEvent(role, After(role, s, run[..|run| - 1]), run[|run| - 1])
  }

  /** The outputs of the run's steps. */
  function Outputs(role: Role, s: State, run: seq<Event>): seq<Output> {
    if run == [] then []
    else
      var last := run[|run| - 1];
      Outputs(role, s, run[..|run| - 1]) +
      if last.Reset? then [] else [Step(role, After(role, s, run[..|run| - 1]), last.input, last.seen).1]
  }

  /** What each event of the run seals. */
  function Seals(role: Role, s: State, run: seq<Event>): (r: seq<Option<Sealing>>)
    ensures |r| == |run|
  {
    if run == [] then []
    else
      var last := run[|run| - 1];
      Seals(role, s, run[..|run| - 1]) +
      [if last.Reset? then None else Seal(After(role, s, run[..|run| - 1]), last.input, last.seen)]
  }

  lemma NothingRun(role: Role, s: State, run: seq<Event>)
    ensures After(role, s, run[..0]) == s && Outputs(role, s, run[..0]) == [] && Seals(role, s, run[..0]) == []
  {}

  /** One more event. */
  lemma RunNext(role: Role, s: State, run: seq<Event>, k: nat)
    requires k < |run|
    ensures var t, e := After(role, s, run[..k]), run[k];
            && After(role, s, run[..k + 1]) == StepEvent(role, t, e)
            && Outputs(role, s, run[..k + 1]) ==
               Outputs(role, s, run[..k]) + (if e.Reset? then [] else [Step(role, t, e.input, e.seen).1])
            && Seals(role, s, run[..k + 1]) == Seals(role, s, run[..k]) + [if e.Reset? then None else Seal(t, e.input, e.seen)]
  {
    hide Step, Seal;
    assert run[..k + 1][..k] == run[..k];
  }

  predicate NoReset(run: seq<Event>) { forall e <- run :: e.Apply? }

  /** A dial or accept that succeeds hands over a connection. */
  predicate Sound(c: Option<Completion>) { c.Some? && !c.value.err ==> c.value.conn }
  predicate SoundPeer(run: seq<Event>) { forall e <- run :: e.Apply? ==> Sound(e.seen.first) && Sound(e.seen.second) }

  // ---------- what every run keeps ----------

  /** Holds whatever the peer does. */
  predicate Consistent(s: State) {
    && s.taken == (if s.resolved then 1 else 0)
    && s.closes == (if s.closing then 1 else 0)
    && (!s.resolved ==> !s.err && !s.sutConn)
    && (s.closing ==> s.sutConn)
    && (s.established ==> s.master.Some? && s.resolved && !s.err)
  }

  /** Holds when success comes with a connection. */
  predicate Connected(s: State) { s.resolved && !s.err ==> s.sutConn }

  lemma PollKeeps(s: State, c: Option<Completion>)
    requires Consistent(s)
    ensures Consistent(Poll(s, c)) && Consistent(PollAccept(s, c)) && Poll(s, c).master == s.master
    ensures Connected(s) && Sound(c) ==> Connected(Poll(s, c)) && Connected(PollAccept(s, c))
  {}

  lemma InitiatorKeeps(s: State, o: Observed)
    requires Consistent(s)
    ensures Consistent(InitiatorReaction(s, o).0)
    ensures Connected(s) && Sound(o.first) && Sound(o.second) ==> Connected(InitiatorReaction(s, o).0)
  {
    hide Poll;
    PollKeeps(s, o.first);
    if o.handshake.Some? && o.handshake.value.ClientAuthFrame? && o.handshake.value.master.Some? {
      PollKeeps(s.(master := o.handshake.value.master), o.second);
    }
  }

  lemma ResponderKeeps(s: State, o: Observed)
    requires Consistent(s)
    ensures Consistent(ResponderReaction(s, o).0)
    ensures Connected(s) && Sound(o.first) && Sound(o.second) ==> Connected(ResponderReaction(s, o).0)
  {
    hide PollAccept;
    PollKeeps(s, o.first);
    PollKeeps(PollAccept(s, o.first), o.second);
  }

  lemma StepKeeps(role: Role, s: State, i: Input, o: Observed)
    requires Consistent(s)
    ensures Consistent(Step(role, s, i, o).0)
    ensures Connected(s) && Sound(o.first) && Sound(o.second) ==> Connected(Step(role, s, i, o).0)
  {
    hide Next, InitiatorReaction, ResponderReaction;
    if role.Initiator? { InitiatorKeeps(s, o); } else { ResponderKeeps(s, o); }
  }

  lemma FreshKeeps(role: Role, sHS: bytes)
    ensures Consistent(Fresh(role, sHS)) && Connected(Fresh(role, sHS))
  {}

  lemma {:induction false} RunKeeps(role: Role, sHS: bytes, run: seq<Event>)
    ensures Consistent(After(role, Fresh(role, sHS), run))
    ensures SoundPeer(run) ==> Connected(After(role, Fresh(role, sHS), run))
  {
    hide Step, Consistent, Connected, Sound, Fresh;
    FreshKeeps(role, sHS);
    if run != [] {
      var before, e := run[..|run| - 1], run[|run| - 1];
      RunKeeps(role, sHS, before);
      if e.Apply? {
        StepKeeps(role, After(role, Fresh(role, sHS), before), e.input, e.seen);
      } else {
        FreshKeeps(role, e.sHS);
      }
    }
  }

  /**
   * After any reset/step run: an established scenario has its master secret, and its dial or accept
   * resolved without error, and with a sound peer it has a connection; the completion channel was
   * received from at most once and CloseGraceful called at most once in the episode.
   */
  lemma EstablishedIsReal(role: Role, sHS: bytes, run: seq<Event>)
    ensures var s := After(role, Fresh(role, sHS), run);
            && (s.established ==> s.master.Some? && s.resolved && !s.err)
            && (s.established && SoundPeer(run) ==> s.sutConn)
            && s.taken <= 1 && s.closes <= 1
  {
    hide After, SoundPeer;
    RunKeeps(role, sHS, run);
  }

  lemma InitiatorStep(s: State, i: Input, o: Observed)
    requires Consistent(s) && (s.established ==> s.sutConn)
    ensures var t := Step(Initiator, s, i, o).0; t.established ==> t.sutConn
  {
    hide Next;
    StepOnward(Initiator, s, i, o);
  }

  /** The initiator driver checks for the connection itself, so it needs no such peer. */
  lemma {:induction false} InitiatorConnected(sHS: bytes, run: seq<Event>)
    ensures var s := After(Initiator, Fresh(Initiator, sHS), run); s.established ==> s.sutConn
  {
    hide Step, Consistent;
    if run != [] {
      var before, e := run[..|run| - 1], run[|run| - 1];
      InitiatorConnected(sHS, before);
      RunKeeps(Initiator, sHS, before);
      if e.Apply? { InitiatorStep(After(Initiator, Fresh(Initiator, sHS), before), e.input, e.seen); }
    }
  }

  // ---------- what the completion channel delivered ----------

  /** The completion a step receives, if it asks the channel and the channel offers one. */
  function TakenBy(role: Role, s: State, i: Input, o: Observed): Option<Completion> {
    if s.closed || i.InitClose? || s.established || s.resolved || i.sym.App? || !o.built || !o.written then None
    else if o.handshake.None? then (if role.Responder? && o.first.None? then o.second else o.first)
    else if role.Initiator? && o.handshake.value.ClientAuthFrame? && o.handshake.value.master.Some? then o.second
    else None
  }

  /** The completion received in the current episode. */
  function Completed(role: Role, s: State, run: seq<Event>): Option<Completion> {
    if run == [] then None
    else
      var before, last := run[..|run| - 1], run[|run| - 1];
      if last.Reset? then None
      else if Completed(role, s, before).Some? then Completed(role, s, before)
      else TakenBy(role, After(role, s, before), last.input, last.seen)
  }

  /** Holds between a state and the completion received so far. */
  predicate Reflects(s: State, c: Option<Completion>) {
    if c.None? then !s.resolved else s.resolved && s.sutConn == c.value.conn && s.err == c.value.err
  }

  lemma StepReflects(role: Role, s: State, i: Input, o: Observed)
    requires Consistent(s)
    ensures !s.resolved ==> Reflects(Step(role, s, i, o).0, TakenBy(role, s, i, o))
  {
    hide Next, Emit;
  }

  /** The connection and error fields are those of the one completion received in the episode. */
  lemma {:induction false} CompletedExactly(role: Role, sHS: bytes, run: seq<Event>)
    ensures Reflects(After(role, Fresh(role, sHS), run), Completed(role, Fresh(role, sHS), run))
  {
    hide Step, TakenBy, Consistent;
    if run != [] {
      var before, e := run[..|run| - 1], run[|run| - 1];
      CompletedExactly(role, sHS, before);
      RunKeeps(role, sHS, before);
      var s := After(role, Fresh(role, sHS), before);
      if e.Apply? {
        StepReflects(role, s, e.input, e.seen);
        StepOnward(role, s, e.input, e.seen);
      }
    }
  }

  /** An established driver, of either role, has a connection exactly when the completion received in the episode carried one. */
  lemma ConnectedExactly(role: Role, sHS: bytes, run: seq<Event>)
    requires After(role, Fresh(role, sHS), run).established
    ensures Completed(role, Fresh(role, sHS), run).Some? && !Completed(role, Fresh(role, sHS), run).value.err
    ensures After(role, Fresh(role, sHS), run).sutConn <==> Completed(role, Fresh(role, sHS), run).value.conn
  {
    hide After, Completed;
    CompletedExactly(role, sHS, run);
    RunKeeps(role, sHS, run);
  }

  /** For the responder driver both happen: a success without a connection leaves it established without one. */
  lemma ResponderUnconnected(cHS: bytes, m: bytes)
    ensures var o := Observed(true, true, None, None, None, None, ReceiveFailed);
            var hello := Apply(Inject(ClientHelloSym), o.(handshake := Some(ServerHelloFrame(true, SecretAndMaster(cHS, m)))));
            var auth := Apply(Inject(ClientAuthSym), o.(first := Some(Completion(false, false))));
            var s := After(Responder, Fresh(Responder, []), [hello, auth]);
            s.established && !s.sutConn
  {
    var o := Observed(true, true, None, None, None, None, ReceiveFailed);
    var hello := Apply(Inject(ClientHelloSym), o.(handshake := Some(ServerHelloFrame(true, SecretAndMaster(cHS, m)))));
    var auth := Apply(Inject(ClientAuthSym), o.(first := Some(Completion(false, false))));
    var run := [hello, auth];
    assert run[..1] == [hello] && [hello][..0] == [];
    assert After(Responder, Fresh(Responder, []), [hello]) == StepEvent(Responder, After(Responder, Fresh(Responder, []), []), hello);
  }

  // ---------- flags do not revert ----------

  predicate Onward(s: State, t: State) {
    && (s.established ==> t.established && t.master == s.master)
    && (s.closing ==> t.closing)
    && (s.closed ==> t == s)
    && (s.resolved ==> t.resolved && t.err == s.err && t.sutConn == s.sutConn)
  }

  lemma HandshakeOnward(role: Role, s: State, o: Observed)
    requires !s.closed && !s.established
    ensures Onward(s, HandshakeReaction(role, s, o).0)
  {}

  lemma StepOnward(role: Role, s: State, i: Input, o: Observed)
    ensures Onward(s, Step(role, s, i, o).0)
  {
    hide Next, HandshakeReaction;
    if !s.closed && !s.established { HandshakeOnward(role, s, o); }
  }

  /** Within an episode nothing is undone: established, its master secret, closing, the dial result, and closed for good. */
  lemma {:induction false} EpisodeOnward(role: Role, s: State, run: seq<Event>)
    requires NoReset(run)
    ensures Onward(s, After(role, s, run))
  {
    hide Step;
    if run != [] {
      var before, e := run[..|run| - 1], run[|run| - 1];
      assert e in run;
      EpisodeOnward(role, s, before);
      StepOnward(role, After(role, s, before), e.input, e.seen);
    }
  }

  // ---------- outputs ----------

  /** Outputs that report the end of the connection. */
  predicate Final(r: Output) { r.ErrorCode? || r.CloseAckSeen? || r.SilentAbort? }

  lemma FinalCloses(role: Role, s: State, i: Input, o: Observed)
    ensures Final(Step(role, s, i, o).1) ==> !s.closed && Step(role, s, i, o).0.closed
    ensures s.closed ==> Step(role, s, i, o) == (s, Silent)
    ensures Step(role, s, i, o).1.ClientAuthSeen? <==>
            role.Initiator? && !s.established && Step(role, s, i, o).0.established
  {
    hide Next;
  }

  /** A closed scenario answers every later step with silence and does not change. */
  lemma {:induction false} ClosedAbsorbs(role: Role, s: State, run: seq<Event>)
    requires s.closed && NoReset(run)
    ensures After(role, s, run) == s
    ensures |Outputs(role, s, run)| == |run| && forall r <- Outputs(role, s, run) :: r == Silent
  {
    hide Step;
    if run != [] {
      var before, e := run[..|run| - 1], run[|run| - 1];
      assert e in run;
      ClosedAbsorbs(role, s, before);
      FinalCloses(role, s, e.input, e.seen);
    }
  }

  lemma {:induction false} AfterConcat(role: Role, s: State, a: seq<Event>, b: seq<Event>)
    ensures After(role, s, a + b) == After(role, After(role, s, a), b)
    ensures Outputs(role, s, a + b) == Outputs(role, s, a) + Outputs(role, After(role, s, a), b)
    decreases |b|
  {
    hide Step;
    if b == [] {
      assert a + b == a;
    } else {
      var front := b[..|b| - 1];
      assert (a + b)[..|a + b| - 1] == a + front;
      AfterConcat(role, s, a, front);
    }
  }

  lemma {:induction false} OutputPerStep(role: Role, s: State, run: seq<Event>)
    requires NoReset(run)
    ensures |Outputs(role, s, run)| == |run|
  {
    hide Step;
    if run != [] {
      assert run[|run| - 1] in run;
      OutputPerStep(role, s, run[..|run| - 1]);
    }
  }

  /** In one episode, everything after the first final output is silence. */
  lemma FinalOnce(role: Role, s: State, run: seq<Event>, i: nat, j: nat)
    requires NoReset(run) && i < j < |run| && |Outputs(role, s, run)| == |run|
    requires Final(Outputs(role, s, run)[i])
    ensures Outputs(role, s, run)[j] == Silent
  {
    hide Step, After, Outputs;
    var a, b := run[..i + 1], run[i + 1..];
    assert run == a + b;
    AfterConcat(role, s, a, b);
    OutputPerStep(role, s, a);
    var before, e := a[..i], a[i];
    assert e in run;
    LastOutput(role, s, a);
    FinalCloses(role, After(role, s, before), e.input, e.seen);
    ClosedAbsorbs(role, After(role, s, a), b);
    assert Outputs(role, After(role, s, a), b)[j - i - 1] in Outputs(role, After(role, s, a), b);
  }

  lemma LastOutput(role: Role, s: State, run: seq<Event>)
    requires run != [] && NoReset(run)
    ensures var before, e := After(role, s, run[..|run| - 1]), run[|run| - 1];
            && e.Apply? && After(role, s, run) == Step(role, before, e.input, e.seen).0
            && |Outputs(role, s, run)| == |run|
            && Outputs(role, s, run)[|run| - 1] == Step(role, before, e.input, e.seen).1
  {
    hide Step;
    assert run[|run| - 1] in run;
    OutputPerStep(role, s, run[..|run| - 1]);
  }
}
