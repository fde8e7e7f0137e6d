/** Which events the two descriptors of an exchange are registered for, when it ends, and what the
    history of an exchange records: over every run, and said of the events alone. */
module RelayInterest {
  import opened RelaySpec

  // ---------------------------------------------------------------------
  // Who is registered for what

  /** The upstream is read unless bytes are kept for the client, and then it counts as paused; a paused client
      waits for request bytes that are still unsent, and any other client is read. */
  ghost predicate Attended(s: Link) {
    s.live ==>
      && (s.downstream == "" ==> s.upstreamSet.read)
      && (s.downstream != "" <==> s.upstreamPaused) && (s.downstream != "" ==> s.downstreamSent < |s.downstream|)
      && (s.clientPaused ==> s.connected && s.pendingSent < |s.pending|)
      && (!s.clientPaused ==> s.clientSet.read)
      && (s.clientSet.write ==> s.downstream != "")
  }

  /** No writing event is asked for without something to write, or a connection to wait for. */
  ghost predicate NoIdleWrites(s: Link) {
    s.live && s.upstreamSet.write ==> !s.connected || s.pendingSent < |s.pending|
  }

  lemma RequestSideAttended(s: Link, connects: bool, data: string, w: WriteResult)
    requires Attended(s) && s.live && s.pendingSent <= |s.pending|
    ensures s.pendingSent + Taken(w) <= |s.pending| ==> Attended(OnUpstreamWrite(s, connects, w))
    ensures Taken(w) <= |data| ==> Attended(OnBodyData(s, data, w))
  {
    hide Part, Rest;
  }

  lemma ResponseSideAttended(s: Link, r: ReadResult, w: WriteResult)
    requires Attended(s) && s.live
    ensures (r.Data? ==> Taken(w) <= |r.bytes|) ==> Attended(OnUpstreamRead(s, r, w))
    ensures s.downstreamSent + Taken(w) <= |s.downstream| ==> Attended(OnClientWritable(s, w))
  {
    hide Part, Rest;
  }

  lemma StepAttended(s: Link, e: Event)
    requires Attended(s) && s.pendingSent <= |s.pending| && Enabled(s, e)
    ensures Attended(Handle(s, e))
  {
    hide OnUpstreamRead, OnClientWritable, OnUpstreamWrite, OnBodyData;
    if s.live {
      match e {
        case Wait(_, _) =>
        case UpstreamWritable(c, w) => RequestSideAttended(s.(upstreamReady := s.upstreamReady.(write := false)), c, "", w);
        case UpstreamReadable(r, w) => ResponseSideAttended(s.(upstreamReady := NOTHING), r, w);
        case ClientReadable(data, w) => RequestSideAttended(s.(clientReady := s.clientReady.(read := false)), false, data, w);
        case ClientWritable(w) => ResponseSideAttended(s.(clientReady := NOTHING), NotReady, w);
      }
    }
  }

  lemma RequestNoIdleWrites(s: Link, connects: bool, data: string, w: WriteResult)
    requires NoIdleWrites(s) && s.live && s.pendingSent <= |s.pending|
    ensures s.pendingSent + Taken(w) <= |s.pending| ==> NoIdleWrites(OnUpstreamWrite(s, connects, w))
    ensures Taken(w) <= |data| ==> NoIdleWrites(OnBodyData(s, data, w))
  {
    hide Part, Rest;
  }

  lemma ReadStaysConnected(s: Link, r: ReadResult, w: WriteResult)
    requires r.Data? ==> Taken(w) <= |r.bytes|
    ensures OnUpstreamRead(s, r, w).connected == s.connected
  {
    hide Part, Rest;
  }

  lemma DrainStaysConnected(s: Link, w: WriteResult)
    requires s.downstreamSent + Taken(w) <= |s.downstream|
    ensures OnClientWritable(s, w).connected == s.connected
  {
    hide Part, Rest;
  }

  lemma StepNoIdleWrites(s: Link, e: Event)
    requires NoIdleWrites(s) && s.pendingSent <= |s.pending| && Enabled(s, e)
    ensures NoIdleWrites(Handle(s, e))
  {
    hide OnUpstreamRead, OnClientWritable, OnUpstreamWrite, OnBodyData;
    if s.live {
      match e {
        case Wait(_, _) =>
        case UpstreamWritable(c, w) => RequestNoIdleWrites(s.(upstreamReady := s.upstreamReady.(write := false)), c, "", w);
        case UpstreamReadable(r, w) =>
          ReadSameRequest(s.(upstreamReady := NOTHING), r, w);
          ReadStaysConnected(s.(upstreamReady := NOTHING), r, w);
        case ClientReadable(data, w) => RequestNoIdleWrites(s.(clientReady := s.clientReady.(read := false)), false, data, w);
        case ClientWritable(w) =>
          DrainSameRequest(s.(clientReady := NOTHING), w);
          DrainStaysConnected(s.(clientReady := NOTHING), w);
      }
    }
  }

  /** In every run the upstream is read whenever nothing is kept for the client, the client whenever it is
      not paused, and nobody waits to write for nothing. */
  lemma {:induction false} AlwaysAttended(header: string, reused: bool, run: seq<Event>)
    requires Possible(Started(header, reused), run)
    ensures Attended(After(Started(header, reused), run))
    ensures header != "" || !reused ==> NoIdleWrites(After(Started(header, reused), run))
  {
    hide Handle, Enabled;
    if run != [] {
      var before := run[..|run| - 1];
      AlwaysAttended(header, reused, before);
      RequestIsFifo(header, reused, before);
      StepAttended(After(Started(header, reused), before), run[|run| - 1]);
      if header != "" || !reused {
        StepNoIdleWrites(After(Started(header, reused), before), run[|run| - 1]);
      }
    }
  }

  // ---------------------------------------------------------------------
  // Bytes kept for the client go on when it can take them

  ghost predicate Served(s: Link) { s.live && s.downstream != "" ==> s.clientSet.write }

  /** The upstream takes the last pending bytes, and the client that was paused for them is only read again. */
  ghost predicate ReadsOnly(s: Link, e: Event) {
    && e.UpstreamWritable? && s.live && s.downstream != "" && s.clientPaused
    && s.pendingSent + Taken(e.w) == |s.pending|
  }

  lemma RequestServed(s: Link, connects: bool, data: string, w: WriteResult)
    requires Served(s) && Attended(s) && s.live && s.pendingSent <= |s.pending|
    ensures s.pendingSent + Taken(w) <= |s.pending| ==>
              (Served(OnUpstreamWrite(s, connects, w)) <==> !ReadsOnly(s, UpstreamWritable(connects, w)))
    ensures Taken(w) <= |data| ==> (Served(OnBodyData(s, data, w)) <==> !Clash(s, ClientReadable(data, w)))
  {
    hide Part, Rest;
  }

  lemma ResponseServed(s: Link, r: ReadResult, w: WriteResult)
    requires Served(s) && Attended(s) && s.live
    ensures (r.Data? ==> Taken(w) <= |r.bytes|) ==> Served(OnUpstreamRead(s, r, w))
    ensures s.downstreamSent + Taken(w) <= |s.downstream| ==> Served(OnClientWritable(s, w))
  {
    hide Part, Rest;
  }

  /** A step keeps the client registered for the bytes kept for it exactly when it is neither a clash nor the end
      of the pause of a client for which bytes are kept. */
  lemma StepServed(s: Link, e: Event)
    requires Served(s) && Attended(s) && s.pendingSent <= |s.pending| && Enabled(s, e)
    ensures Served(Handle(s, e)) <==> !Clash(s, e) && !ReadsOnly(s, e)
  {
    hide OnUpstreamRead, OnClientWritable, OnUpstreamWrite, OnBodyData;
    if s.live {
      match e {
        case Wait(_, _) =>
        case UpstreamWritable(c, w) => RequestServed(s.(upstreamReady := s.upstreamReady.(write := false)), c, "", w);
        case UpstreamReadable(r, w) => ResponseServed(s.(upstreamReady := NOTHING), r, w);
        case ClientReadable(data, w) => RequestServed(s.(clientReady := s.clientReady.(read := false)), false, data, w);
        case ClientWritable(w) => ResponseServed(s.(clientReady := NOTHING), NotReady, w);
      }
    }
  }

  /** In every run without a clash the client stays registered for the bytes kept for it. */
  lemma {:induction false} AlwaysServed(header: string, reused: bool, run: seq<Event>)
    requires var s := Started(header, reused); Possible(s, run) && !Clashes(s, run)
    ensures Served(After(Started(header, reused), run))
  {
    hide Handle, Clash;
    if run != [] {
      var before := run[..|run| - 1];
      AlwaysServed(header, reused, before);
      AlwaysAttended(header, reused, before);
      RequestIsFifo(header, reused, before);
      ResponseIsConserved(header, reused, before);
      var s, e := After(Started(header, reused), before), run[|run| - 1];
      assert !ReadsOnly(s, e) by { assert Conserved(s) && Enabled(s, e); }
      StepServed(s, e);
    }
  }

  /** It happens: request data that the upstream takes only in part, while bytes are kept for the client. */
  lemma NotServed() returns (run: seq<Event>)
    ensures var s := Started("H", true);
            Possible(s, run) && After(s, run).live && After(s, run).downstream != "" && !After(s, run).clientSet.write
  {
    hide Possible, After;
    var s := Started("H", true);
    run := Begin(s, Wait(Interest(true, true), NOTHING));
    Extend(s, run, UpstreamWritable(true, Wrote(1)));
    run := run + [UpstreamWritable(true, Wrote(1))];
    Extend(s, run, UpstreamReadable(Data("ab"), Wrote(0)));
    run := run + [UpstreamReadable(Data("ab"), Wrote(0))];
    Extend(s, run, Wait(NOTHING, READ));
    run := run + [Wait(NOTHING, READ)];
    Extend(s, run, ClientReadable("xy", Wrote(1)));
    run := run + [ClientReadable("xy", Wrote(1))];
  }

  // ---------------------------------------------------------------------
  // A paused client

  /** A paused client is not read. */
  ghost predicate HeldBack(s: Link) { s.live && s.clientPaused ==> s.clientSet == NOTHING }

  /** Response bytes are kept for a paused client, and it is registered for both. */
  ghost predicate KeepsForPaused(s: Link, e: Event) {
    && e.UpstreamReadable? && s.live && s.clientPaused
    && e.r.Data? && 0 <= Taken(e.w) < |e.r.bytes|
  }

  /** Everything kept for a paused client is written, and it is registered for reading. */
  ghost predicate ServesPaused(s: Link, e: Event) {
    && e.ClientWritable? && s.live && s.clientPaused
    && (s.downstreamSent >= |s.downstream| || s.downstreamSent + Taken(e.w) == |s.downstream|)
  }

  lemma RequestHeldBack(s: Link, connects: bool, data: string, w: WriteResult)
    requires HeldBack(s) && Attended(s) && s.live && s.pendingSent <= |s.pending|
    ensures s.pendingSent + Taken(w) <= |s.pending| ==> HeldBack(OnUpstreamWrite(s, connects, w))
    ensures Taken(w) <= |data| ==> HeldBack(OnBodyData(s, data, w))
  {
    hide Part, Rest;
  }

  lemma ResponseHeldBack(s: Link, r: ReadResult, w: WriteResult)
    requires HeldBack(s) && s.live
    ensures (r.Data? ==> Taken(w) <= |r.bytes|) ==>
              (HeldBack(OnUpstreamRead(s, r, w)) <==> !KeepsForPaused(s, UpstreamReadable(r, w)))
    ensures s.downstreamSent + Taken(w) <= |s.downstream| ==>
              (HeldBack(OnClientWritable(s, w)) <==> !ServesPaused(s, ClientWritable(w)))
  {
    hide Part, Rest;
  }

  /** A step keeps a paused client from being read exactly when it neither keeps bytes for it nor writes the last of them. */
  lemma StepHeldBack(s: Link, e: Event)
    requires HeldBack(s) && Attended(s) && s.pendingSent <= |s.pending| && Enabled(s, e)
    ensures HeldBack(Handle(s, e)) <==> !KeepsForPaused(s, e) && !ServesPaused(s, e)
  {
    hide OnUpstreamRead, OnClientWritable, OnUpstreamWrite, OnBodyData;
    if s.live {
      match e {
        case Wait(_, _) =>
        case UpstreamWritable(c, w) => RequestHeldBack(s.(upstreamReady := s.upstreamReady.(write := false)), c, "", w);
        case UpstreamReadable(r, w) => ResponseHeldBack(s.(upstreamReady := NOTHING), r, w);
        case ClientReadable(data, w) => RequestHeldBack(s.(clientReady := s.clientReady.(read := false)), false, data, w);
        case ClientWritable(w) => ResponseHeldBack(s.(clientReady := NOTHING), NotReady, w);
      }
    }
  }

  /** It happens: the upstream answers while the client is paused, and the client is read although request bytes are unsent. */
  lemma ReadsPausedClient() returns (run: seq<Event>)
    ensures var s := Started("H", true);
            Possible(s, run) && After(s, run).live && After(s, run).clientPaused && After(s, run).clientReady.read
  {
    hide Possible, After;
    var s := Started("H", true);
    run := Begin(s, Wait(Interest(false, true), NOTHING));
    Extend(s, run, UpstreamWritable(true, Wrote(1)));
    run := run + [UpstreamWritable(true, Wrote(1))];
    Extend(s, run, Wait(NOTHING, READ));
    run := run + [Wait(NOTHING, READ)];
    Extend(s, run, ClientReadable("xy", Wrote(1)));
    run := run + [ClientReadable("xy", Wrote(1))];
    Extend(s, run, Wait(READ, NOTHING));
    run := run + [Wait(READ, NOTHING)];
    Extend(s, run, UpstreamReadable(Data("ab"), Wrote(0)));
    run := run + [UpstreamReadable(Data("ab"), Wrote(0))];
    Extend(s, run, Wait(NOTHING, READ));
    run := run + [Wait(NOTHING, READ)];
  }

  // ---------------------------------------------------------------------
  // When the exchange ends, and what its history records

  /** The connection cannot be made, a peer is gone, or the upstream has closed. */
  ghost predicate Ends(s: Link, e: Event) {
    match e
    case Wait(_, _) => false
    case UpstreamWritable(connects, w) => (!s.connected && !connects) || (s.pendingSent < |s.pending| && w.WriteFailed?)
    case UpstreamReadable(r, w) => r.Eof? || r.ReadFailed? || (r.Data? && w.WriteFailed?)
    case ClientReadable(_, w) => s.connected && s.pendingSent >= |s.pending| && w.WriteFailed?
    case ClientWritable(w) => s.downstreamSent < |s.downstream| && w.WriteFailed?
  }

  ghost predicate EndsWith(s: Link, t: Link, e: Event) {
    && (t.live <==> !Ends(s, e))
    && (t.connected <==> s.connected || (e.UpstreamWritable? && e.connects))
    && (t.ended <==> s.ended || (e.UpstreamReadable? && e.r.Eof?))
  }

  lemma RequestEnds(s: Link, connects: bool, data: string, w: WriteResult)
    requires s.live
    ensures s.pendingSent + Taken(w) <= |s.pending| ==> EndsWith(s, OnUpstreamWrite(s, connects, w), UpstreamWritable(connects, w))
    ensures Taken(w) <= |data| ==> EndsWith(s, OnBodyData(s, data, w), ClientReadable(data, w))
  {
    hide Part, Rest;
  }

  lemma ResponseEnds(s: Link, r: ReadResult, w: WriteResult)
    requires s.live
    ensures (r.Data? ==> Taken(w) <= |r.bytes|) ==> EndsWith(s, OnUpstreamRead(s, r, w), UpstreamReadable(r, w))
    ensures s.downstreamSent + Taken(w) <= |s.downstream| ==> EndsWith(s, OnClientWritable(s, w), ClientWritable(w))
  {
    hide Part, Rest;
  }

  /** An exchange ends with exactly these events, and the upstream is connected once it has said so. */
  lemma StepEnds(s: Link, e: Event)
    requires s.live && Enabled(s, e)
    ensures EndsWith(s, Handle(s, e), e)
  {
    hide OnUpstreamRead, OnClientWritable, OnUpstreamWrite, OnBodyData;
    match e {
      case Wait(_, _) =>
      case UpstreamWritable(c, w) => RequestEnds(s.(upstreamReady := s.upstreamReady.(write := false)), c, "", w);
      case UpstreamReadable(r, w) => ResponseEnds(s.(upstreamReady := NOTHING), r, w);
      case ClientReadable(data, w) => RequestEnds(s.(clientReady := s.clientReady.(read := false)), false, data, w);
      case ClientWritable(w) => ResponseEnds(s.(clientReady := NOTHING), NotReady, w);
    }
  }

  /** How many bytes the event writes to the upstream and to the client. */
  ghost function ToUpstream(s: Link, e: Event): nat {
    if e.UpstreamWritable? && (s.connected || e.connects) && s.pendingSent < |s.pending| && e.w.Wrote? then e.w.n
    else if e.ClientReadable? && s.connected && s.pendingSent >= |s.pending| && e.w.Wrote? then e.w.n
    else 0
  }

  ghost function ToClient(s: Link, e: Event): nat {
    if e.UpstreamReadable? && e.r.Data? && e.w.Wrote? then e.w.n
    else if e.ClientWritable? && s.downstreamSent < |s.downstream| && e.w.Wrote? then e.w.n
    else 0
  }

  ghost predicate Longer(t: string, s: string, n: nat) { |t| == |s| + n && t[..|s|] == s }

  ghost predicate Recorded(s: Link, t: Link, e: Event) {
    && t.received == s.received + (if e.UpstreamReadable? && e.r.Data? then e.r.bytes else "")
    && t.request == s.request + (if e.ClientReadable? then e.data else "")
    && Longer(t.sent, s.sent, ToUpstream(s, e))
    && Longer(t.delivered, s.delivered, ToClient(s, e))
  }

  lemma LongerIs(s: string, x: string)
    ensures Longer(s, s, 0) && Longer(s + x, s, |x|) && s + "" == s
  {
  }

  lemma UpstreamWriteRecorded(s: Link, connects: bool, w: WriteResult)
    requires s.live && s.pendingSent + Taken(w) <= |s.pending|
    ensures Recorded(s, OnUpstreamWrite(s, connects, w), UpstreamWritable(connects, w))
  {
    hide Part, Rest, Longer;
    LongerIs(s.delivered, "");
    LongerIs(s.received, "");
    LongerIs(s.request, "");
    LongerIs(s.sent, if w.Wrote? then Part(s.pending, s.pendingSent, s.pendingSent + w.n) else "");
    LongerIs(s.sent, "");
  }

  lemma BodyDataRecorded(s: Link, data: string, w: WriteResult)
    requires s.live && Taken(w) <= |data|
    ensures Recorded(s, OnBodyData(s, data, w), ClientReadable(data, w))
  {
    hide Part, Rest, Longer;
    LongerIs(s.delivered, "");
    LongerIs(s.received, "");
    LongerIs(s.sent, if w.Wrote? then Part(data, 0, w.n) else "");
    LongerIs(s.sent, "");
  }

  lemma ReadRecorded(s: Link, r: ReadResult, w: WriteResult)
    requires s.live && (r.Data? ==> Taken(w) <= |r.bytes|)
    ensures Recorded(s, OnUpstreamRead(s, r, w), UpstreamReadable(r, w))
  {
    hide Part, Rest, Longer;
    LongerIs(s.sent, "");
    LongerIs(s.request, "");
    LongerIs(s.received, "");
    LongerIs(s.delivered, if r.Data? && w.Wrote? then Part(r.bytes, 0, w.n) else "");
    LongerIs(s.delivered, "");
  }

  lemma DrainRecorded(s: Link, w: WriteResult)
    requires s.live && s.downstreamSent + Taken(w) <= |s.downstream|
    ensures Recorded(s, OnClientWritable(s, w), ClientWritable(w))
  {
    hide Part, Rest, Longer;
    LongerIs(s.sent, "");
    LongerIs(s.request, "");
    LongerIs(s.received, "");
    LongerIs(s.delivered, if w.Wrote? then Part(s.downstream, s.downstreamSent, s.downstreamSent + w.n) else "");
    LongerIs(s.delivered, "");
  }

  lemma WaitRecorded(s: Link, u: Interest, c: Interest)
    ensures Recorded(s, s.(upstreamReady := u, clientReady := c), Wait(u, c))
  {
    LongerIs(s.sent, "");
    LongerIs(s.request, "");
    LongerIs(s.received, "");
    LongerIs(s.delivered, "");
  }

  /** The history has every byte that was read, in order, and as many bytes more as were written. */
  lemma StepHistory(s: Link, e: Event)
    requires s.live && Enabled(s, e)
    ensures Recorded(s, Handle(s, e), e)
  {
    hide OnUpstreamRead, OnClientWritable, OnUpstreamWrite, OnBodyData, Longer;
    match e {
      case Wait(u, c) => WaitRecorded(s, u, c);
      case UpstreamWritable(c, w) => UpstreamWriteRecorded(s.(upstreamReady := s.upstreamReady.(write := false)), c, w);
      case UpstreamReadable(r, w) => ReadRecorded(s.(upstreamReady := NOTHING), r, w);
      case ClientReadable(data, w) => BodyDataRecorded(s.(clientReady := s.clientReady.(read := false)), data, w);
      case ClientWritable(w) => DrainRecorded(s.(clientReady := NOTHING), w);
    }
  }

  // ---------------------------------------------------------------------
  // What the system may do

  /** Nothing less: when all reported events have been handled any of the registered ones may be reported; a reported
      event may take, or fail to take, any number of the bytes there are, and bring up to 65536 of them. */
  lemma AnythingMayHappen(s: Link, u: Interest, c: Interest, connects: bool, n: nat, bytes: string)
    ensures s.upstreamReady == NOTHING && s.clientReady == NOTHING
            && (u.read ==> s.upstreamSet.read) && (u.write ==> s.upstreamSet.write) && (c.read ==> s.clientSet.read) && (c.write ==> s.clientSet.write)
            ==> Enabled(s, Wait(u, c))
    ensures s.upstreamReady.write && s.pendingSent <= |s.pending| ==>
              && Enabled(s, UpstreamWritable(connects, WriteFailed)) && Enabled(s, UpstreamWritable(connects, WouldBlock))
              && (s.pendingSent + n <= |s.pending| ==> Enabled(s, UpstreamWritable(connects, Wrote(n))))
    ensures s.upstreamReady == READ ==>
              && Enabled(s, UpstreamReadable(NotReady, WouldBlock)) && Enabled(s, UpstreamReadable(Eof, WouldBlock))
              && Enabled(s, UpstreamReadable(ReadFailed, WouldBlock))
              && (0 < |bytes| <= 65536 ==>
                    && Enabled(s, UpstreamReadable(Data(bytes), WriteFailed)) && Enabled(s, UpstreamReadable(Data(bytes), WouldBlock))
                    && (n <= |bytes| ==> Enabled(s, UpstreamReadable(Data(bytes), Wrote(n)))))
    ensures s.clientReady.read && bytes != "" ==>
              && Enabled(s, ClientReadable(bytes, WriteFailed)) && Enabled(s, ClientReadable(bytes, WouldBlock))
              && (n <= |bytes| ==> Enabled(s, ClientReadable(bytes, Wrote(n))))
    ensures s.clientReady == Interest(false, true) && s.downstreamSent <= |s.downstream| ==>
              && Enabled(s, ClientWritable(WriteFailed)) && Enabled(s, ClientWritable(WouldBlock))
              && (s.downstreamSent + n <= |s.downstream| ==> Enabled(s, ClientWritable(Wrote(n))))
  {
  }
}
