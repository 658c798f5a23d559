/**
 * When a scenario driver gives each of its answers, and when it closes, over every reset/step run: said of
 * the state before the step and of what the step observed, answer by answer.
 */
module DriverAnswers {
  import opened Bytes
  import opened SealCounters
  import opened DriverRuns

  // ---------- what a step did and saw ----------

  /** A frame went out to an established, open peer. */
  predicate Probed(s: State, i: Input, o: Observed) {
    !s.closed && s.established && i.Inject? && o.built && o.written
  }

  /** A frame went out to a peer still in its handshake, where APP is never sent. */
  predicate Knocked(s: State, i: Input, o: Observed) {
    !s.closed && !s.established && i.Inject? && !i.sym.App? && o.built && o.written
  }

  /** A frame was built and could not be written. */
  predicate WriteFailed(s: State, i: Input, o: Observed) {
    !s.closed && i.Inject? && (s.established || !i.sym.App?) && o.built && !o.written
  }

  /** What the dial or accept has come to: what is known already, else what its channel now offers. */
  function Outcome(s: State, c: Option<Completion>): Option<Completion> {
    if s.resolved then Some(Completion(s.sutConn, s.err)) else c
  }

  predicate Failed(c: Option<Completion>) { c.Some? && c.value.err }

  predicate Succeeded(c: Option<Completion>) { c.Some? && !c.value.err }

  /** The initiator's CLIENT_AUTH arrived, and the master secret could be derived from it. */
  predicate ClientAuthArrived(role: Role, o: Observed) {
    role.Initiator? && o.handshake.Some? && o.handshake.value.ClientAuthFrame? && o.handshake.value.master.Some?
  }

  /** The responder's whole flight arrived. */
  predicate FlightArrived(role: Role, o: Observed) {
    role.Responder? && o.handshake.Some? && o.handshake.value.ServerHelloFrame? && o.handshake.value.flight
  }

  predicate NoReaction(o: Observed) { o.handshake.None? }

  /** A reset leaves nothing of the last episode: the responder starts from thirty-two zero octets. */
  lemma FreshStart(role: Role, sHS: bytes)
    ensures var s := Fresh(role, sHS);
            && !s.resolved && !s.err && !s.sutConn && !s.established && !s.closing && !s.closed
            && s.pending == None && s.master == None && s.taken == 0 && s.closes == 0
            && s.counters == Counters(ChanState(0, 0), ChanState(0, 0))
            && (role.Initiator? ==> s.base == sHS)
            && (role.Responder? ==> |s.base| == 32 && forall i :: 0 <= i < 32 ==> s.base[i] == 0)
  {
    ZeroOctets(32);
  }

  lemma {:induction false} ZeroOctets(k: nat)
    ensures forall i :: 0 <= i < k ==> Be(0, k)[i] == 0
  {
    if k > 0 { ZeroOctets(k - 1); }
  }

  // ---------- one step ----------

  ghost predicate EstablishedAnswers(s: State, i: Input, o: Observed, t: State, r: Output) {
    && (r.Accepted? <==> Probed(s, i, o) && o.record.None? && o.recv.Delivered?)
    && (r.KeyUpdateAckSeen? <==> Probed(s, i, o) && o.record == Some(KeyUpdateAckFrame))
    && (r.CloseAckSeen? <==> Probed(s, i, o) && o.record == Some(CloseAckFrame))
    && (forall c :: r == ErrorCode(c) <==>
          || (Probed(s, i, o) && o.record == Some(RecordError(Some(c))))
          || (Knocked(s, i, o) && o.handshake == Some(HandshakeError(Some(c)))))
    && (!s.closed && s.established ==>
          (t.closed <==>
             || WriteFailed(s, i, o)
             || (Probed(s, i, o) && o.record.Some? && (o.record.value.RecordError? || o.record.value.CloseAckFrame?))
             || (Probed(s, i, o) && o.record.None? && o.recv.PeerClosed?)))
  }

  ghost predicate HandshakeAnswers(role: Role, s: State, i: Input, o: Observed, t: State, r: Output) {
    && (r.HelloAndAuth? <==> Knocked(s, i, o) && FlightArrived(role, o))
    && (r.ClientAuthSeen? <==>
          Knocked(s, i, o) && ClientAuthArrived(role, o) && Outcome(s, o.second) == Some(Completion(true, false)))
    && (r.SilentAbort? <==>
          && Knocked(s, i, o)
          && (|| o.handshake == Some(HandshakeError(None))
              || (ClientAuthArrived(role, o) && Outcome(s, o.second) != Some(Completion(true, false)))
              || (NoReaction(o) && Failed(Outcome(s, o.first)))))
    && (!s.closed && !s.established ==>
          (t.closed <==> WriteFailed(s, i, o) || r.SilentAbort? || (Knocked(s, i, o) && r.ErrorCode?)))
  }

  /** How the scenario comes to be established, and under which master secret. */
  ghost predicate EstablishedBy(role: Role, s: State, i: Input, o: Observed, t: State, r: Output) {
    var accepted := Outcome(s, if o.first.Some? then o.first else o.second);
    && (t.established <==>
          || s.established || r.ClientAuthSeen?
          || (role.Responder? && Knocked(s, i, o) && NoReaction(o) && s.pending.Some? && Succeeded(accepted)))
    && (s.established ==> t.master == s.master)
    && (r.ClientAuthSeen? && ClientAuthArrived(role, o) ==> t.master == o.handshake.value.master)
    && (role.Responder? && !s.established && t.established ==> t.master == s.pending)
  }

  /** The responder's flight, and nothing else, replaces the handshake secret and the master secret to come. */
  ghost predicate SecretsLearned(role: Role, s: State, i: Input, o: Observed, t: State) {
    && (!(Knocked(s, i, o) && FlightArrived(role, o)) ==> t.base == s.base && t.pending == s.pending)
    && (Knocked(s, i, o) && FlightArrived(role, o) ==>
          match o.handshake.value.derived
          case Underived => t.base == s.base && t.pending == s.pending
          case Secret(cHS) => t.base == cHS && t.pending == s.pending
          case SecretAndMaster(cHS, master) => t.base == cHS && t.pending == Some(master))
  }

  /** What the step takes from the completion channel, if it asks at all. */
  function Offered(role: Role, s: State, i: Input, o: Observed): Option<Completion> {
    if !Knocked(s, i, o) then None
    else if ClientAuthArrived(role, o) then o.second
    else if !NoReaction(o) then None
    else if role.Initiator? || o.first.Some? then o.first
    else o.second
  }

  /** The first completion offered is the one that counts; closing needs a connection and an open scenario. */
  ghost predicate OutcomeTaken(role: Role, s: State, i: Input, o: Observed, t: State) {
    && var c := Offered(role, s, i, o);
    && (s.resolved || c.None? ==> t.resolved == s.resolved && t.err == s.err && t.sutConn == s.sutConn)
    && (!s.resolved && c.Some? ==> t.resolved && t.err == c.value.err && t.sutConn == c.value.conn)
    && (t.closing <==> s.closing || (!s.closed && i.InitClose? && s.sutConn))
  }

  lemma EstablishedStepAnswers(role: Role, s: State, i: Input, o: Observed)
    ensures var (t, r) := Step(role, s, i, o); EstablishedAnswers(s, i, o, t, r)
  {
    hide Next, Poll, Promote;
  }

  lemma HandshakeStepAnswers(role: Role, s: State, i: Input, o: Observed)
    requires Consistent(s)
    ensures var (t, r) := Step(role, s, i, o); HandshakeAnswers(role, s, i, o, t, r)
  {
    hide Next;
  }

  lemma EstablishingStep(role: Role, s: State, i: Input, o: Observed)
    requires Consistent(s)
    ensures var (t, r) := Step(role, s, i, o); EstablishedBy(role, s, i, o, t, r)
  {
    hide Next;
  }

  function Known(s: State): (bool, bool, bool) { (s.resolved, s.err, s.sutConn) }

  function Knowing(s: State, c: Option<Completion>): (bool, bool, bool) {
    if s.resolved || c.None? then Known(s) else (true, c.value.err, c.value.conn)
  }

  /** What a step may leave alone besides: the secrets learned, and whether closing has begun. */
  predicate SameRest(s: State, t: State) { t.base == s.base && t.pending == s.pending && t.closing == s.closing }

  lemma PollTakes(s: State, c: Option<Completion>)
    ensures Known(Poll(s, c)) == Knowing(s, c) == Known(PollAccept(s, c))
    ensures SameRest(s, Poll(s, c)) && SameRest(s, PollAccept(s, c))
  {}

  lemma ConcludeTakes(s: State)
    ensures Known(Conclude(s).0) == Known(s) && SameRest(s, Conclude(s).0)
  {}

  lemma InitiatorTakes(s: State, i: Input, o: Observed)
    requires Knocked(s, i, o)
    ensures var t := InitiatorReaction(s, o).0; Known(t) == Knowing(s, Offered(Initiator, s, i, o)) && SameRest(s, t)
  {
    if NoReaction(o) {
      hide Poll;
      PollTakes(s, o.first);
    } else if ClientAuthArrived(Initiator, o) {
      hide Poll, Conclude;
      var u := s.(master := o.handshake.value.master);
      PollTakes(u, o.second);
      ConcludeTakes(Poll(u, o.second));
    } else {
      hide Poll, Conclude;
    }
  }

  lemma ResponderTakes(s: State, i: Input, o: Observed)
    requires Knocked(s, i, o)
    ensures var t := ResponderReaction(s, o).0;
            && Known(t) == Knowing(s, Offered(Responder, s, i, o)) && t.closing == s.closing
            && (if FlightArrived(Responder, o) then t == Learn(s, o.handshake.value.derived) else SameRest(s, t))
  {
    hide Poll, PollAccept;
    if NoReaction(o) {
      PollTakes(s, o.first);
      PollTakes(PollAccept(s, o.first), o.second);
    }
  }

  lemma TakingStep(role: Role, s: State, i: Input, o: Observed)
    ensures OutcomeTaken(role, s, i, o, Step(role, s, i, o).0)
  {
    hide Next, InitiatorReaction, ResponderReaction;
    if Knocked(s, i, o) {
      hide Offered;
      if role.Initiator? { InitiatorTakes(s, i, o); } else { ResponderTakes(s, i, o); }
    }
  }

  lemma LearningStep(role: Role, s: State, i: Input, o: Observed)
    ensures SecretsLearned(role, s, i, o, Step(role, s, i, o).0)
  {
    hide Next, InitiatorReaction, ResponderReaction;
    if Knocked(s, i, o) {
      hide Offered, Known, Knowing;
      if role.Initiator? { InitiatorTakes(s, i, o); } else { ResponderTakes(s, i, o); }
    }
  }

  /** The reaction to a frame sent to an established peer, on its own. */
  ghost predicate Reacted(s: State, o: Observed, t: State, r: Output) {
    && (r.Accepted? <==> o.written && o.record.None? && o.recv.Delivered?)
    && (r.KeyUpdateAckSeen? <==> o.written && o.record == Some(KeyUpdateAckFrame))
    && (r.CloseAckSeen? <==> o.written && o.record == Some(CloseAckFrame))
    && (forall c :: r == ErrorCode(c) <==> o.written && o.record == Some(RecordError(Some(c))))
    && !r.SilentAbort? && !r.ClientAuthSeen? && !r.HelloAndAuth?
    && (t.closed <==>
          || s.closed || !o.written
          || (o.record.Some? && (o.record.value.RecordError? || o.record.value.CloseAckFrame?))
          || (o.record.None? && o.recv.PeerClosed?))
    && t == s.(closed := t.closed)
  }

  lemma InjectReacts(s: State, o: Observed)
    ensures var (t, r) := InjectAndObserve(s, o); Reacted(s, o, t, r)
  {}

  // ---------- over runs ----------

  /** The answer to step `k` of a run. */
  function Answer(role: Role, s: State, run: seq<Event>, k: nat): Option<Output>
    requires k < |run|
  {
    var outputs := Outputs(role, s, run[..k + 1]);
    if outputs == [] then None else Some(outputs[|outputs| - 1])
  }

  /** Every step of every run gives each answer, closes and establishes exactly when it should. */
  lemma AnswersExactly(role: Role, sHS: bytes, run: seq<Event>, k: nat)
    requires k < |run| && run[k].Apply?
    ensures var fresh0 := Fresh(role, sHS);
            var s, t := After(role, fresh0, run[..k]), After(role, fresh0, run[..k + 1]);
            var i, o, a := run[k].input, run[k].seen, Answer(role, fresh0, run, k);
            && a.Some?
            && EstablishedAnswers(s, i, o, t, a.value)
            && HandshakeAnswers(role, s, i, o, t, a.value)
            && EstablishedBy(role, s, i, o, t, a.value)
            && SecretsLearned(role, s, i, o, t)
            && OutcomeTaken(role, s, i, o, t)
  {
    hide OutcomeTaken, EstablishedAnswers, HandshakeAnswers, EstablishedBy, SecretsLearned, Consistent, Step, Fresh, After, Outputs;
    var s := After(role, Fresh(role, sHS), run[..k]);
    RunKeeps(role, sHS, run[..k]);
    RunNext(role, Fresh(role, sHS), run, k);
    EstablishedStepAnswers(role, s, run[k].input, run[k].seen);
    HandshakeStepAnswers(role, s, run[k].input, run[k].seen);
    EstablishingStep(role, s, run[k].input, run[k].seen);
    LearningStep(role, s, run[k].input, run[k].seen);
    TakingStep(role, s, run[k].input, run[k].seen);
  }
}
