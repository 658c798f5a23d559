/** The drivers against an honest peer: what they derive is what the peer holds. */
module HonestDriver {
  import opened Bytes
  import opened KeySchedule
  import opened Agreement
  import opened SealCounters
  import opened DriverRuns

  /**
   * The steps of an honest handshake.  Testing an initiator, the driver plays the server and derives its
   * master from the client's AUTH frame; testing a responder, it plays the client and derives from the
   * server's flight.  The peer answers in turn and its dial or accept succeeds.
   */
  function HonestHandshake(role: DriverRuns.Role, e: Outcome): seq<Event> {
    var quiet := Observed(true, true, None, None, None, None, ReceiveFailed);
    var done := Some(Completion(true, false));
    match role
    case Initiator =>
      [Apply(Inject(ServerHelloSym), quiet),
       Apply(Inject(ServerAuthSym), quiet.(handshake := Some(ClientAuthFrame(Some(e.serverMaster))), second := done))]
    case Responder =>
      [Apply(Inject(ClientHelloSym), quiet.(handshake := Some(ServerHelloFrame(true, SecretAndMaster(e.client.cHS, e.client.master))))),
       Apply(Inject(ClientAuthSym), quiet.(first := done))]
  }

  /** The master secret the system under test holds. */
  function PeerMaster(role: DriverRuns.Role, e: Outcome): bytes {
    if role.Initiator? then e.client.master else e.serverMaster
  }

  lemma TwoEvents(role: DriverRuns.Role, start: State, e: Event, f: Event)
    requires e.Apply? && f.Apply?
    ensures var mid := Step(role, start, e.input, e.seen);
            var end := Step(role, mid.0, f.input, f.seen);
            After(role, start, [e, f]) == end.0 && Outputs(role, start, [e, f]) == [mid.1, end.1]
  {
    hide Step;
    var run := [e, f];
    assert run[..1] == [e] && [e][..0] == [];
    assert After(role, start, [e]) == StepEvent(role, After(role, start, []), e);
    assert Outputs(role, start, [e]) == [Step(role, start, e.input, e.seen).1];
  }

  lemma TwoSteps(role: DriverRuns.Role, e: Outcome)
    ensures var start := Fresh(role, e.server.sHS);
            var s := After(role, start, HonestHandshake(role, e));
            && s.established && !s.closed && s.sutConn && s.taken == 1
            && s.master == Some(if role.Initiator? then e.serverMaster else e.client.master)
            && s.base == (if role.Initiator? then e.server.sHS else e.client.cHS)
            && Outputs(role, start, HonestHandshake(role, e)) ==
               if role.Initiator? then [Silent, ClientAuthSeen] else [HelloAndAuth, Silent]
  {
    hide After, Outputs, Next, Be;
    var run := HonestHandshake(role, e);
    assert run == [run[0], run[1]];
    TwoEvents(role, Fresh(role, e.server.sHS), run[0], run[1]);
  }

  /** Either driver ends established and open, with a connection and with the master secret of the system under test. */
  lemma HonestEpisode(role: DriverRuns.Role, c: Crypto, kemSk: bytes, coins: bytes, serverSk: bytes, clientSk: bytes)
    requires PrimitivesCorrect(c)
    ensures var e := Exchange(c, kemSk, coins, serverSk, clientSk);
            && e.Some?
            && var s := After(role, Fresh(role, e.value.server.sHS), HonestHandshake(role, e.value));
            && s.established && !s.closed && s.sutConn && s.taken == 1
            && s.master == Some(PeerMaster(role, e.value))
            && s.base == (if role.Initiator? then e.value.client.sHS else e.value.server.cHS)
  {
    hide Exchange, ClientAccepts, ServerAccepts, After, Fresh, HonestHandshake, ExpandLengths, AeadCorrect, KemRoundTrip;
    HonestRunAgrees(c, kemSk, coins, serverSk, clientSk);
    TwoSteps(role, Exchange(c, kemSk, coins, serverSk, clientSk).value);
  }
}
