/**
 * The scenario drivers themselves: fields updated by each step.  The initiator and responder drivers
 * share every field and every step but the handshake reaction, so one class carries the role.
 */
module Driver {
  import opened Bytes
  import KeySchedule
  import opened SealCounters
  import opened DriverRuns
  import opened DriverAnswers

  class Scenario {
    const role: Role
    var resolved: bool
    var err: bool
    var sutConn: bool
    var established: bool
    var closing: bool
    var closed: bool
    var handshakeSecret: bytes
    var pendingMaster: Option<bytes>
    var master: Option<bytes>
    var ctrlOut: ChanState
    var appOut: ChanState
    ghost var taken: nat
    ghost var closes: nat

    ghost function View(): State
      reads this
    {
      State(resolved, err, sutConn, established, closing, closed, handshakeSecret, pendingMaster, master, Counters(ctrlOut, appOut),
            taken, closes)
    }

    /** A scenario that has been reset once. */
    constructor (role: Role, sHS: bytes)
      ensures this.role == role && View() == Fresh(role, sHS)
    {
      this.role := role;
      resolved, err, sutConn, established, closing, closed := false, false, false, false, false, false;
      handshakeSecret := if role.Initiator? then sHS else PLACEHOLDER;
      pendingMaster, master := None, None;
      ctrlOut, appOut := ORIGIN, ORIGIN;
      taken, closes := 0, 0;
    }

    method ClearFlags()
      modifies `sutConn, `resolved, `err, `established, `closing, `closed
      ensures !sutConn && !resolved && !err && !established && !closing && !closed
    {
      sutConn := false;
      resolved := false;
      err := false;
      established := false;
      closing := false;
      closed := false;
    }

    /** Starts a fresh episode, whatever the last one left behind. */
    method ResetEpisode(sHS: bytes)
      modifies this
      ensures View() == Fresh(role, sHS)
    {
      ClearFlags();
      handshakeSecret := if role.Initiator? then sHS else PLACEHOLDER;
      pendingMaster := None;
      master := None;
      ctrlOut := ORIGIN;
      appOut := ORIGIN;
      taken := 0;
      closes := 0;
    }

    /** Receives from the completion channel, unless its one value was taken before. */
    method Take(c: Option<Completion>)
      modifies `resolved, `err, `sutConn, `taken
      ensures View() == Poll(old(View()), c)
    {
      if !resolved && c.Some? {
        resolved := true;
        err := c.value.err;
        sutConn := c.value.conn;
        taken := taken + 1;
      }
    }

    method PollForAccept(c: Option<Completion>)
      modifies this
      ensures View() == PollAccept(old(View()), c)
    {
      Take(c);
      if resolved && !established && !err && pendingMaster.Some? {
        master := pendingMaster;
        established := true;
      }
    }

    method ConcludeHandshake() returns (r: Output)
      modifies `closed, `established
      ensures (View(), r) == Conclude(old(View()))
    {
      if err || !sutConn {
        closed := true;
        return SilentAbort;
      }
      established := true;
      return ClientAuthSeen;
    }

    /** A genuine CLIENT_AUTH: adopt its master secret, then require the dial to have succeeded. */
    method Adopt(derived: bytes, o: Observed) returns (r: Output)
      modifies this
      ensures (View(), r) == Conclude(Poll(old(View()).(master := Some(derived)), o.second))
    {
      hide Poll, Conclude;
      master := Some(derived);
      Take(o.second);
      r := ConcludeHandshake();
    }

    method ClassifyAsInitiator(f: HandshakeFrame, o: Observed) returns (r: Output)
      modifies this
      ensures (View(), r) == ClassifyInitiator(old(View()), f, o)
    {
      match f {
        case HandshakeError(code) =>
          closed := true;
          return if code.Some? then ErrorCode(code.value) else SilentAbort;
        case ClientAuthFrame(m) =>
          if m.None? { return Silent; }
          r := Adopt(m.value, o);
        case _ => return Silent;
      }
    }

    method ReactAsInitiator(o: Observed) returns (r: Output)
      modifies this
      ensures (View(), r) == InitiatorReaction(old(View()), o)
    {
      hide ClassifyInitiator;
      if o.handshake.Some? {
        r := ClassifyAsInitiator(o.handshake.value, o);
        return;
      }
      Take(o.first);
      if resolved && err { closed := true; return SilentAbort; }
      return Silent;
    }

    method ReactAsResponder(o: Observed) returns (r: Output)
      modifies this
      ensures (View(), r) == ResponderReaction(old(View()), o)
    {
      if o.handshake.None? {
        PollForAccept(o.first);
        if resolved && err && !established { closed := true; return SilentAbort; }
        PollForAccept(o.second);
        return Silent;
      }
      match o.handshake.value {
        case HandshakeError(code) =>
          closed := true;
          return if code.Some? then ErrorCode(code.value) else SilentAbort;
        case ServerHelloFrame(flight, derived) =>
          if !flight { return Silent; }
          if !derived.Underived? { handshakeSecret := derived.cHS; }
          if derived.SecretAndMaster? { pendingMaster := Some(derived.master); }
          return HelloAndAuth;
        case _ => return Silent;
      }
    }

    /** Seals, unless the symbol goes in the clear, at epoch 0 and sequence number 0 under the handshake secret. */
    method HandshakeStep(sym: Symbol, o: Observed) returns (r: Output, sealed: Option<Sealing>)
      requires !closed && !established
      modifies this
      ensures (View(), r) == StepHandshake(role, old(View()), sym, o)
      ensures sealed == Seal(old(View()), Inject(sym), o)
    {
      hide InitiatorReaction, ResponderReaction;
      sealed := None;
      if sym.App? { return Silent, None; }
      if !o.built { return Silent, None; }
      if !Cleartext(sym) { sealed := Some(Sealing(handshakeSecret, KeySchedule.CHAN_CONTROL, ORIGIN, Corrupt(sym))); }
      if !o.written { closed := true; return Silent, sealed; }
      if role.Initiator? { r := ReactAsInitiator(o); } else { r := ReactAsResponder(o); }
    }

    method ClassifyEstablished(f: RecordFrame) returns (r: Output)
      modifies `closed
      ensures (View(), r) == ClassifyRecord(old(View()), f)
    {
      match f {
        case RecordError(code) =>
          closed := true;
          return if code.Some? then ErrorCode(code.value) else Silent;
        case CloseAckFrame =>
          closed := true;
          return CloseAckSeen;
        case KeyUpdateAckFrame => return KeyUpdateAckSeen;
        case OtherRecord => return Silent;
      }
    }

    /** What became of a frame sent to the established peer. */
    method Observe(o: Observed) returns (r: Output)
      modifies `closed
      ensures (View(), r) == InjectAndObserve(old(View()), o)
      ensures Reacted(old(View()), o, View(), r)
    {
      hide Reacted, ClassifyRecord;
      InjectReacts(View(), o);
      if !o.written { closed := true; return Silent; }
      if o.record.Some? {
        r := ClassifyEstablished(o.record.value);
        return;
      }
      match o.recv {
        case Delivered => return Accepted;
        case PeerClosed =>
          closed := true;
          return Silent;
        case ReceiveFailed => return Silent;
      }
    }

    /** Seals at the current counter, then moves it; a damaged frame leaves it, a key update starts the next epoch. */
    method Advance(sym: Symbol) returns (s: Option<Sealing>)
      modifies `ctrlOut, `appOut
      ensures s == Emit(old(Counters(ctrlOut, appOut)), MasterOf(old(View())), sym)
      ensures Counters(ctrlOut, appOut) == Next(old(Counters(ctrlOut, appOut)), sym)
    {
      var base := if master.Some? then master.value else [];
      if sym.App? {
        s := Some(Sealing(base, KeySchedule.CHAN_MEMORY, ChanState(0, appOut.seqno), false));
        appOut := ChanState(appOut.epoch, (appOut.seqno + 1) % LIMIT);
        return;
      }
      if Cleartext(sym) { return None; }
      s := Some(Sealing(base, KeySchedule.CHAN_CONTROL, ctrlOut, Corrupt(sym)));
      if !Corrupt(sym) {
        ctrlOut := ChanState(ctrlOut.epoch, (ctrlOut.seqno + 1) % LIMIT);
        if sym.KeyUpdate? { ctrlOut := ChanState((ctrlOut.epoch + 1) % LIMIT, 0); }
      }
    }

    method EstablishedStep(sym: Symbol, o: Observed) returns (r: Output, sealed: Option<Sealing>)
      requires !closed && established
      modifies this
      ensures (View(), r) == StepEstablished(old(View()), sym, o)
      ensures sealed == Seal(old(View()), Inject(sym), o)
    {
      hide InjectAndObserve, Next, Emit;
      if !o.built { return Silent, None; }
      sealed := Advance(sym);
      r := Observe(o);
    }

    method InitCloseStep() returns (r: Output)
      modifies this
      ensures (View(), r) == StepInitClose(old(View()))
    {
      if !sutConn || closing { return Silent; }
      closing := true;
      closes := closes + 1;
      return Silent;
    }

    /** One abstract input against the current episode: its output, and the frame it sealed. */
    method StepInput(i: Input, o: Observed) returns (r: Output, sealed: Option<Sealing>)
      modifies this
      ensures (View(), r) == Step(role, old(View()), i, o)
      ensures sealed == Seal(old(View()), i, o)
      ensures old(Consistent(View())) ==> Consistent(View())
      ensures old(closed) ==> r == Silent && View() == old(View())
    {
      hide StepHandshake, StepEstablished, StepInitClose, Consistent, Emit;
      if old(Consistent(View())) { StepKeeps(role, View(), i, o); }
      if closed { return Silent, None; }
      match i {
        case InitClose =>
          r := InitCloseStep();
          sealed := None;
        case Inject(sym) =>
          if established { r, sealed := EstablishedStep(sym, o); } else { r, sealed := HandshakeStep(sym, o); }
      }
    }

    /** A whole session of resets and steps, as the harness drives it: states, outputs and sealed frames are those of the run. */
    method Play(run: seq<Event>) returns (outputs: seq<Output>, seals: seq<Option<Sealing>>)
      modifies this
      ensures View() == After(role, old(View()), run)
      ensures outputs == Outputs(role, old(View()), run) && seals == Seals(role, old(View()), run)
    {
      hide Step, Seal, After, Outputs, Seals;
      outputs, seals := [], [];
      ghost var start := View();
      NothingRun(role, start, run);
      for k := 0 to |run|
        invariant View() == After(role, start, run[..k])
        invariant outputs == Outputs(role, start, run[..k]) && seals == Seals(role, start, run[..k])
      {
        RunNext(role, start, run, k);
        match run[k] {
          case Reset(sHS) =>
            ResetEpisode(sHS);
            seals := seals + [None];
          case Apply(input, seen) =>
            var r, sealed := StepInput(input, seen);
            outputs := outputs + [r];
            seals := seals + [sealed];
        }
      }
      assert run[..|run|] == run;
    }
  }
}
