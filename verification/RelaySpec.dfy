/** One proxied exchange between a client and an upstream server, event by event.

    The operating system decides which registered events are reported, how much a write
    takes and what a read returns; the handlers decide what is kept, what is registered
    and when the exchange ends.  A batch of reported events is handled before the next wait,
    so an event may be handled after it was switched off. */
module RelaySpec {
  const CHUNK_SIZE: nat := 0x1_0000

  /** The events a descriptor is registered for, or that were reported for it. */
  datatype Interest = Interest(read: bool, write: bool)

  const NOTHING := Interest(false, false)
  const READ := Interest(true, false)
  const READ_WRITE := Interest(true, true)

  datatype WriteResult = Wrote(n: nat) | WouldBlock | WriteFailed
  datatype ReadResult = Data(bytes: string) | NotReady | Eof | ReadFailed

  datatype Event =
    | Wait(upstream: Interest, client: Interest)
    | UpstreamWritable(connects: bool, w: WriteResult)
    | UpstreamReadable(r: ReadResult, w: WriteResult)
    | ClientReadable(data: string, w: WriteResult)
    | ClientWritable(w: WriteResult)

  /** The last five components are history: all bytes for the upstream, those written to it,
      those read from it, those written to the client, and whether it has closed. */
  datatype Link = Link(
    live: bool,
    connected: bool,
    pending: string,
    pendingSent: nat,
    downstream: string,
    downstreamSent: nat,
    clientPaused: bool,
    upstreamPaused: bool,
    upstreamSet: Interest,
    clientSet: Interest,
    upstreamReady: Interest,
    clientReady: Interest,
    request: string,
    sent: string,
    received: string,
    delivered: string,
    ended: bool)

  /** The header block is pending; a pooled connection is connected already. */
  function Started(header: string, reused: bool): Link {
    Link(true, reused, header, 0, "", 0, false, false, READ_WRITE, READ, NOTHING, NOTHING, header, "", "", "", false)
  }

  // ---------------------------------------------------------------------
  // Handlers

  function Part(s: string, a: nat, b: nat): (r: string)
    requires a <= b <= |s|
    ensures |r| == b - a
  {
    s[a..b]
  }

  function Rest(s: string, a: nat): (r: string)
    requires a <= |s|
    ensures |r| == |s| - a
  {
    s[a..]
  }

  function Cleanup(s: Link): Link { s.(live := false) }

  /** Number of bytes taken, or -1 if the peer is gone. */
  function Taken(w: WriteResult): int {
    match w
    case Wrote(n) => n
    case WouldBlock => 0
    case WriteFailed => -1
  }

  function OnUpstreamWrite(s: Link, connects: bool, w: WriteResult): Link
    requires s.pendingSent + Taken(w) <= |s.pending|
  {
    if !s.connected && !connects then Cleanup(s)
    else
      var t := s.(connected := true);
      if s.pendingSent < |s.pending| then
        if w.WriteFailed? then Cleanup(t)
        else
          var u := Sent(t, Taken(w));
          if u.pending == "" then Drained(u) else u
      else Drained(t)
  }

  /** n pending bytes are written; a buffer that is used up is dropped. */
  function Sent(s: Link, n: nat): Link
    requires s.pendingSent + n <= |s.pending|
  {
    var u := s.(sent := s.sent + Part(s.pending, s.pendingSent, s.pendingSent + n));
    if s.pendingSent + n == |s.pending| then u.(pending := "", pendingSent := 0) else u.(pendingSent := s.pendingSent + n)
  }

  /** Nothing left to write to the upstream: only reading matters, and the client may go on. */
  function Drained(s: Link): Link {
    if s.clientPaused then s.(clientPaused := false, clientSet := READ, upstreamSet := READ) else s.(upstreamSet := READ)
  }

  /** What the client does not take at once is kept, and the upstream is not read any more. */
  function OnUpstreamRead(s: Link, r: ReadResult, w: WriteResult): Link
    requires r.Data? ==> Taken(w) <= |r.bytes|
  {
    match r
    case NotReady => s
    case Eof => Cleanup(s).(ended := true)
    case ReadFailed => Cleanup(s)
    case Data(b) =>
      var t := s.(received := s.received + b);
      if w.WriteFailed? then Cleanup(t)
      else
        var n := Taken(w);
        var u := t.(delivered := t.delivered + Part(b, 0, n));
        if n == |b| then u
        else u.(downstream := Rest(b, n), downstreamSent := 0, upstreamPaused := true, upstreamSet := NOTHING, clientSet := READ_WRITE)
  }

  /** More of the request: behind what is still pending, or written at once as far as possible. */
  function OnBodyData(s: Link, data: string, w: WriteResult): Link
    requires Taken(w) <= |data|
  {
    var t := s.(request := s.request + data);
    if !s.connected || s.pendingSent < |s.pending| then t.(pending := t.pending + data)
    else if w.WriteFailed? then Cleanup(t)
    else
      var n := Taken(w);
      var u := t.(sent := t.sent + Part(data, 0, n));
      if n == |data| then u
      else u.(pending := Rest(data, n), pendingSent := 0, clientPaused := true, clientSet := NOTHING, upstreamSet := READ_WRITE)
  }

  function OnClientWritable(s: Link, w: WriteResult): Link
    requires s.downstreamSent + Taken(w) <= |s.downstream|
  {
    if s.downstreamSent >= |s.downstream| then s.(clientSet := READ)
    else if w.WriteFailed? then Cleanup(s)
    else
      var u := Delivered(s, Taken(w));
      if u.downstream != "" then u
      else if u.upstreamPaused then u.(upstreamPaused := false, upstreamSet := READ, clientSet := READ)
      else u.(clientSet := READ)
  }

  /** n kept bytes are written; a buffer that is used up is dropped. */
  function Delivered(s: Link, n: nat): Link
    requires s.downstreamSent + n <= |s.downstream|
  {
    var u := s.(delivered := s.delivered + Part(s.downstream, s.downstreamSent, s.downstreamSent + n));
    if s.downstreamSent + n == |s.downstream| then u.(downstream := "", downstreamSent := 0)
    else u.(downstreamSent := s.downstreamSent + n)
  }

  // ---------------------------------------------------------------------
  // Runs

  predicate Within(a: Interest, b: Interest) { (a.read ==> b.read) && (a.write ==> b.write) }

  /** What the operating system may do next; of two events of one descriptor the upstream
      reports writing first, the client reading first. */
  predicate Enabled(s: Link, e: Event) {
    match e
    case Wait(u, c) =>
      s.upstreamReady == NOTHING && s.clientReady == NOTHING && Within(u, s.upstreamSet) && Within(c, s.clientSet)
    case UpstreamWritable(_, w) => s.upstreamReady.write && s.pendingSent + Taken(w) <= |s.pending|
    case UpstreamReadable(r, w) =>
      s.upstreamReady.read && !s.upstreamReady.write && (r.Data? ==> 0 < |r.bytes| <= CHUNK_SIZE && Taken(w) <= |r.bytes|)
    case ClientReadable(data, w) => s.clientReady.read && data != "" && Taken(w) <= |data|
    case ClientWritable(w) => s.clientReady.write && !s.clientReady.read && s.downstreamSent + Taken(w) <= |s.downstream|
  }

  /** Handling an event; after the exchange has ended nothing happens. */
  function Handle(s: Link, e: Event): Link
    requires Enabled(s, e)
  {
    if !s.live then s
    else match e
      case Wait(u, c) => s.(upstreamReady := u, clientReady := c)
      case UpstreamWritable(connects, w) => OnUpstreamWrite(s.(upstreamReady := s.upstreamReady.(write := false)), connects, w)
      case UpstreamReadable(r, w) => OnUpstreamRead(s.(upstreamReady := NOTHING), r, w)
      case ClientReadable(data, w) => OnBodyData(s.(clientReady := s.clientReady.(read := false)), data, w)
      case ClientWritable(w) => OnClientWritable(s.(clientReady := NOTHING), w)
  }

  ghost predicate Possible(s: Link, run: seq<Event>)
    decreases |run|, 0
  {
    run == [] || (Possible(s, run[..|run| - 1]) && Enabled(After(s, run[..|run| - 1]), run[|run| - 1]))
  }

  ghost function After(s: Link, run: seq<Event>): Link
    requires Possible(s, run)
    decreases |run|, 1
  {
    if run == [] then s else Handle(After(s, run[..|run| - 1]), run[|run| - 1])
  }

  // ---------------------------------------------------------------------
  // The request is first in, first out

  predicate Prefix(a: string, b: string) { |a| <= |b| && b[..|a|] == a }

  predicate Fifo(s: Link) {
    && s.pendingSent <= |s.pending|
    && (s.live ==> s.sent + Rest(s.pending, s.pendingSent) == s.request)
    && Prefix(s.sent, s.request)
  }

  lemma SplitOff(a: string, rest: string, k: nat, n: nat, whole: string)
    requires k + n <= |rest| && a + Rest(rest, k) == whole
    ensures a + Part(rest, k, k + n) + Rest(rest, k + n) == whole
    ensures Prefix(a + Part(rest, k, k + n), whole) && Prefix(a, whole)
    ensures k + n == |rest| ==> a + Part(rest, k, k + n) + Rest("", 0) == whole
  {
    assert rest[k..] == rest[k..k + n] + rest[k + n..];
    assert a + rest[k..k + n] + rest[k + n..] == a + rest[k..];
  }

  lemma SplitAll(a: string, data: string, n: nat)
    requires n <= |data|
    ensures a + Part(data, 0, n) + Rest(Rest(data, n), 0) == a + data
    ensures Prefix(a + Part(data, 0, n), a + data) && Prefix(a, a + data)
    ensures n == |data| ==> a + Part(data, 0, n) == a + data
  {
    assert data == data[..n] + data[n..];
  }

  lemma NoRest(a: string, s: string)
    ensures a + Rest(s, |s|) == a
  {
  }

  lemma RestAppend(a: string, s: string, k: nat, t: string)
    requires k <= |s|
    ensures a + Rest(s + t, k) == a + Rest(s, k) + t
  {
    assert (s + t)[k..] == s[k..] + t;
  }

  lemma PrefixGrows(a: string, b: string, c: string)
    requires Prefix(a, b)
    ensures Prefix(a, b + c)
  {
  }

  lemma UpstreamWriteFifo(s: Link, connects: bool, w: WriteResult)
    requires Fifo(s) && s.live && s.pendingSent + Taken(w) <= |s.pending|
    ensures Fifo(OnUpstreamWrite(s, connects, w))
  {
    hide Prefix, Sent, Part, Rest;
    if s.pendingSent < |s.pending| && !w.WriteFailed? {
      SentFifo(s.(connected := true), Taken(w));
    }
  }

  lemma SentFifo(s: Link, n: nat)
    requires Fifo(s) && s.live && s.pendingSent + n <= |s.pending|
    ensures Fifo(Sent(s, n))
  {
    hide Prefix, Part, Rest;
    SplitOff(s.sent, s.pending, s.pendingSent, n, s.request);
  }

  lemma BodyDataFifo(s: Link, data: string, w: WriteResult)
    requires Fifo(s) && s.live && Taken(w) <= |data|
    ensures Fifo(OnBodyData(s, data, w))
  {
    hide Prefix, Part, Rest;
    PrefixGrows(s.sent, s.request, data);
    if !s.connected || s.pendingSent < |s.pending| {
      RestAppend(s.sent, s.pending, s.pendingSent, data);
    } else {
      NoRest(s.sent, s.pending);
      if !w.WriteFailed? {
        SplitAll(s.sent, data, Taken(w));
        NoRest(s.sent + Part(data, 0, Taken(w)), s.pending);
      }
    }
  }

  /** The response handlers leave the request alone. */
  predicate SameRequest(s: Link, t: Link) {
    t.pending == s.pending && t.pendingSent == s.pendingSent && t.sent == s.sent && t.request == s.request && (t.live ==> s.live)
  }

  lemma ReadSameRequest(s: Link, r: ReadResult, w: WriteResult)
    requires r.Data? ==> Taken(w) <= |r.bytes|
    ensures var t := OnUpstreamRead(s, r, w);
            SameRequest(s, t) && t.upstreamReady == s.upstreamReady && t.upstreamSet in {s.upstreamSet, NOTHING}
  {
    hide Part, Rest;
  }

  lemma DrainSameRequest(s: Link, w: WriteResult)
    requires s.downstreamSent + Taken(w) <= |s.downstream|
    ensures var t := OnClientWritable(s, w);
            SameRequest(s, t) && t.upstreamReady == s.upstreamReady && t.upstreamSet in {s.upstreamSet, READ}
  {
    hide Part, Rest;
  }

  lemma StepFifo(s: Link, e: Event)
    requires Fifo(s) && Enabled(s, e)
    ensures Fifo(Handle(s, e))
  {
    hide OnUpstreamWrite, OnBodyData, OnUpstreamRead, OnClientWritable, Prefix, Part, Rest;
    if s.live {
      match e {
        case Wait(_, _) =>
        case UpstreamWritable(c, w) => UpstreamWriteFifo(s.(upstreamReady := s.upstreamReady.(write := false)), c, w);
        case UpstreamReadable(r, w) => ReadSameRequest(s.(upstreamReady := NOTHING), r, w);
        case ClientReadable(data, w) => BodyDataFifo(s.(clientReady := s.clientReady.(read := false)), data, w);
        case ClientWritable(w) => DrainSameRequest(s.(clientReady := NOTHING), w);
      }
    }
  }

  /** In every run the bytes written to the upstream, followed by those pending, are the header
      block followed by every piece of the body in the order of arrival. */
  lemma {:induction false} RequestIsFifo(header: string, reused: bool, run: seq<Event>)
    requires Possible(Started(header, reused), run)
    ensures Fifo(After(Started(header, reused), run))
  {
    hide Handle, Enabled;
    if run != [] {
      var before := run[..|run| - 1];
      RequestIsFifo(header, reused, before);
      StepFifo(After(Started(header, reused), before), run[|run| - 1]);
    }
  }

  // ---------------------------------------------------------------------
  // The response loses nothing

  /** Bytes kept for the client mean that the upstream is neither registered nor reported. */
  predicate Conserved(s: Link) {
    && s.downstreamSent <= |s.downstream|
    && (s.downstream != "" ==> s.upstreamSet == NOTHING && s.upstreamReady == NOTHING && s.downstreamSent < |s.downstream|)
    && (s.downstream != "" && s.live ==> s.upstreamPaused)
    && (s.live ==> s.delivered + Rest(s.downstream, s.downstreamSent) == s.received && !s.ended)
    && Prefix(s.delivered, s.received)
    && (s.ended ==> s.delivered == s.received)
  }

  /** Request data that the upstream does not take at once registers the upstream again,
      even if it was switched off because of bytes kept for the client. */
  predicate Clash(s: Link, e: Event) {
    && e.ClientReadable? && s.live && s.downstream != ""
    && s.connected && s.pendingSent >= |s.pending|
    && 0 <= Taken(e.w) < |e.data|
  }

  lemma ReadConserves(s: Link, r: ReadResult, w: WriteResult)
    requires Conserved(s) && s.live && s.downstream == "" && s.upstreamReady == NOTHING
    requires r.Data? ==> Taken(w) <= |r.bytes|
    ensures Conserved(OnUpstreamRead(s, r, w))
  {
    hide Prefix, Part, Rest;
    NoRest(s.delivered, s.downstream);
    if r.Data? {
      PrefixGrows(s.delivered, s.received, r.bytes);
      if !w.WriteFailed? {
        SplitAll(s.delivered, r.bytes, Taken(w));
        NoRest(s.delivered + Part(r.bytes, 0, Taken(w)), "");
      }
    }
  }

  lemma DrainConserves(s: Link, w: WriteResult)
    requires Conserved(s) && s.live && s.downstreamSent + Taken(w) <= |s.downstream|
    ensures Conserved(OnClientWritable(s, w))
  {
    hide Prefix, Delivered, Part, Rest;
    if s.downstreamSent < |s.downstream| && !w.WriteFailed? {
      DeliveredAll(s, Taken(w));
    }
  }

  lemma DeliveredAll(s: Link, n: nat)
    requires s.live && s.downstreamSent + n <= |s.downstream| && s.delivered + Rest(s.downstream, s.downstreamSent) == s.received
    ensures var t := Delivered(s, n);
            && t.delivered + Rest(t.downstream, t.downstreamSent) == t.received == s.received && Prefix(t.delivered, t.received)
            && t.downstreamSent <= |t.downstream| && (t.downstream != "" ==> t.downstream == s.downstream && t.downstreamSent < |t.downstream|)
            && t == s.(delivered := t.delivered, downstream := t.downstream, downstreamSent := t.downstreamSent)
  {
    hide Prefix, Part, Rest;
    SplitOff(s.delivered, s.downstream, s.downstreamSent, n, s.received);
  }

  lemma UpstreamWriteConserves(s: Link, connects: bool, w: WriteResult)
    requires Conserved(s) && s.live && s.downstream == "" && s.pendingSent + Taken(w) <= |s.pending|
    ensures Conserved(OnUpstreamWrite(s, connects, w))
  {
    hide Prefix, Part, Rest;
  }

  lemma BodyDataConserves(s: Link, data: string, w: WriteResult)
    requires Conserved(s) && s.live && data != "" && Taken(w) <= |data|
    ensures Conserved(OnBodyData(s, data, w)) <==> !Clash(s, ClientReadable(data, w))
  {
    hide Prefix, Part, Rest;
  }

  /** A step keeps conservation exactly when it is not a clash. */
  lemma StepConserves(s: Link, e: Event)
    requires Conserved(s) && Enabled(s, e)
    ensures Conserved(Handle(s, e)) <==> !Clash(s, e)
  {
    hide OnUpstreamRead, OnClientWritable, OnUpstreamWrite, OnBodyData, Prefix, Part, Rest;
    if s.live {
      match e {
        case Wait(_, _) =>
        case UpstreamWritable(c, w) => UpstreamWriteConserves(s.(upstreamReady := s.upstreamReady.(write := false)), c, w);
        case UpstreamReadable(r, w) => ReadConserves(s.(upstreamReady := NOTHING), r, w);
        case ClientReadable(data, w) => BodyDataConserves(s.(clientReady := s.clientReady.(read := false)), data, w);
        case ClientWritable(w) => DrainConserves(s.(clientReady := NOTHING), w);
      }
    }
  }

  /** The byte equation alone. */
  predicate BytesKept(s: Link) {
    s.downstreamSent <= |s.downstream| && (s.live ==> s.delivered + Rest(s.downstream, s.downstreamSent) == s.received)
  }

  /** Bytes are read from the upstream while others are kept for the client: they overtake those,
      or take their place. */
  predicate Overtakes(s: Link, e: Event)
    requires s.downstreamSent <= |s.downstream|
  {
    && e.UpstreamReadable? && s.live && e.r.Data? && !e.w.WriteFailed?
    && var kept := Rest(s.downstream, s.downstreamSent);
       kept != "" && (Taken(e.w) < |e.r.bytes| || e.r.bytes + kept != kept + e.r.bytes)
  }

  lemma Cancel(d: string, x: string, y: string)
    ensures d + x == d + y <==> x == y
  {
    if d + x == d + y {
      assert x == (d + x)[|d|..] && y == (d + y)[|d|..];
    }
  }

  lemma ReadKeepsBytes(s: Link, r: ReadResult, w: WriteResult)
    requires BytesKept(s) && s.live && (r.Data? ==> r.bytes != "" && Taken(w) <= |r.bytes|)
    ensures BytesKept(OnUpstreamRead(s, r, w)) <==> !Overtakes(s, UpstreamReadable(r, w))
  {
    hide Part, Rest;
    if r.Data? && !w.WriteFailed? {
      var d, kept, b := s.delivered, Rest(s.downstream, s.downstreamSent), r.bytes;
      SplitAll(d, b, Taken(w));
      assert d + kept + b == d + (kept + b);
      if Taken(w) == |b| {
        assert d + b + kept == d + (b + kept);
        Cancel(d, b + kept, kept + b);
        assert kept == "" ==> b + kept == kept + b;
      } else {
        Cancel(d, b, kept + b);
        assert kept == "" ==> kept + b == b;
      }
    }
  }

  lemma DrainKeepsBytes(s: Link, w: WriteResult)
    requires BytesKept(s) && s.live && s.downstreamSent + Taken(w) <= |s.downstream|
    ensures BytesKept(OnClientWritable(s, w))
  {
    hide Prefix, Delivered, Part, Rest;
    if s.downstreamSent < |s.downstream| && !w.WriteFailed? {
      DeliveredAll(s, Taken(w));
    }
  }

  lemma RequestKeepsBytes(s: Link, connects: bool, data: string, w: WriteResult)
    requires BytesKept(s) && s.live
    ensures s.pendingSent + Taken(w) <= |s.pending| ==> BytesKept(OnUpstreamWrite(s, connects, w))
    ensures Taken(w) <= |data| ==> BytesKept(OnBodyData(s, data, w))
  {
    hide Part, Rest;
  }

  /** An event loses or reorders response bytes exactly when it overtakes kept ones. */
  lemma StepKeepsBytes(s: Link, e: Event)
    requires BytesKept(s) && Enabled(s, e)
    ensures BytesKept(Handle(s, e)) <==> !Overtakes(s, e)
  {
    hide OnUpstreamRead, OnClientWritable, OnUpstreamWrite, OnBodyData, Rest;
    if s.live {
      match e {
        case Wait(_, _) =>
        case UpstreamWritable(c, w) => RequestKeepsBytes(s.(upstreamReady := s.upstreamReady.(write := false)), c, "", w);
        case UpstreamReadable(r, w) => ReadKeepsBytes(s.(upstreamReady := NOTHING), r, w);
        case ClientReadable(data, w) => RequestKeepsBytes(s.(clientReady := s.clientReady.(read := false)), false, data, w);
        case ClientWritable(w) => DrainKeepsBytes(s.(clientReady := NOTHING), w);
      }
    }
  }

  ghost predicate Clashes(s: Link, run: seq<Event>)
    requires Possible(s, run)
  {
    run != [] && (Clashes(s, run[..|run| - 1]) || Clash(After(s, run[..|run| - 1]), run[|run| - 1]))
  }

  /** Without a clash the bytes written to the client, followed by those kept for it, are the
      bytes read from the upstream; and if the run ended with the upstream closing, everything
      has been delivered. */
  lemma {:induction false} ResponseIsConserved(header: string, reused: bool, run: seq<Event>)
    requires Possible(Started(header, reused), run) && !Clashes(Started(header, reused), run)
    ensures Conserved(After(Started(header, reused), run))
  {
    hide Handle, Enabled, Clash;
    if run != [] {
      var before := run[..|run| - 1];
      ResponseIsConserved(header, reused, before);
      StepConserves(After(Started(header, reused), before), run[|run| - 1]);
    }
  }

  /** In particular when the client sends nothing after its request. */
  lemma {:induction false} SilentClientNeverClashes(s: Link, run: seq<Event>)
    requires Possible(s, run) && forall i :: 0 <= i < |run| ==> !run[i].ClientReadable?
    ensures !Clashes(s, run)
  {
    hide Handle, Enabled;
    if run != [] {
      SilentClientNeverClashes(s, run[..|run| - 1]);
    }
  }

  // ---------------------------------------------------------------------
  // What does not hold

  lemma Extend(s: Link, run: seq<Event>, e: Event)
    requires Possible(s, run) && Enabled(After(s, run), e)
    ensures Possible(s, run + [e]) && After(s, run + [e]) == Handle(After(s, run), e)
  {
    hide Handle, Enabled;
    assert (run + [e])[..|run|] == run;
  }

  /** A run in which the client goes on sending while bytes are kept for it: those bytes are lost. */
  lemma BytesLost() returns (run: seq<Event>)
    ensures var s := Started("H", false);
            Possible(s, run) && After(s, run).ended && After(s, run).received == "abcd" && After(s, run).delivered == "cd"
  {
    hide Possible, After;
    var s := Started("H", false);
    run := Begin(s, Wait(Interest(false, true), NOTHING));
    Extend(s, run, UpstreamWritable(true, Wrote(1)));
    run := run + [UpstreamWritable(true, Wrote(1))];
    Extend(s, run, Wait(READ, NOTHING));
    run := run + [Wait(READ, NOTHING)];
    Extend(s, run, UpstreamReadable(Data("ab"), Wrote(0)));
    run := run + [UpstreamReadable(Data("ab"), Wrote(0))];
    Extend(s, run, Wait(NOTHING, READ));
    run := run + [Wait(NOTHING, READ)];
    assert Clash(After(s, run), ClientReadable("xy", Wrote(1)));
    Extend(s, run, ClientReadable("xy", Wrote(1)));
    run := run + [ClientReadable("xy", Wrote(1))];
    Extend(s, run, Wait(READ, NOTHING));
    run := run + [Wait(READ, NOTHING)];
    Extend(s, run, UpstreamReadable(Data("cd"), Wrote(0)));
    run := run + [UpstreamReadable(Data("cd"), Wrote(0))];
    Extend(s, run, Wait(NOTHING, Interest(false, true)));
    run := run + [Wait(NOTHING, Interest(false, true))];
    Extend(s, run, ClientWritable(Wrote(2)));
    run := run + [ClientWritable(Wrote(2))];
    Extend(s, run, Wait(READ, NOTHING));
    run := run + [Wait(READ, NOTHING)];
    Extend(s, run, UpstreamReadable(Eof, WouldBlock));
    run := run + [UpstreamReadable(Eof, WouldBlock)];
  }

  lemma Begin(s: Link, e: Event) returns (run: seq<Event>)
    requires Enabled(s, e)
    ensures run == [e] && Possible(s, run) && After(s, run) == Handle(s, e)
  {
    hide Handle, Enabled;
    run := [e];
    assert run[..0] == [];
  }

  /** Before the connection is made and while request bytes are unsent, the upstream is registered for writing. */
  predicate Watched(s: Link) {
    s.live && (!s.connected || s.pendingSent < |s.pending|) ==> s.upstreamSet.write
  }

  /** The upstream answers before it has taken the whole request, and the client is slow. */
  predicate AnswersEarly(s: Link, e: Event) {
    && e.UpstreamReadable? && s.live && e.r.Data?
    && 0 <= Taken(e.w) < |e.r.bytes|
    && (!s.connected || s.pendingSent < |s.pending|)
  }

  /** The last bytes kept for the client are written, and the upstream is only read again although
      it has not taken the whole request. */
  predicate ResumesEarly(s: Link, e: Event) {
    && e.ClientWritable? && s.live && s.upstreamPaused
    && s.downstreamSent < |s.downstream| && s.downstreamSent + Taken(e.w) == |s.downstream|
    && (!s.connected || s.pendingSent < |s.pending|)
  }

  lemma ReadWatched(s: Link, r: ReadResult, w: WriteResult)
    requires Watched(s) && s.live && (r.Data? ==> Taken(w) <= |r.bytes|)
    ensures Watched(OnUpstreamRead(s, r, w)) <==> !AnswersEarly(s, UpstreamReadable(r, w))
  {
    hide Part, Rest;
  }

  lemma DrainWatched(s: Link, w: WriteResult)
    requires Watched(s) && s.live && s.downstreamSent + Taken(w) <= |s.downstream|
    ensures Watched(OnClientWritable(s, w)) <==> !ResumesEarly(s, ClientWritable(w))
  {
    hide Part, Rest;
  }

  lemma RequestWatched(s: Link, connects: bool, data: string, w: WriteResult)
    requires Watched(s) && s.live && s.pendingSent <= |s.pending|
    ensures s.pendingSent + Taken(w) <= |s.pending| ==> Watched(OnUpstreamWrite(s, connects, w))
    ensures Taken(w) <= |data| ==> Watched(OnBodyData(s, data, w))
  {
    hide Part, Rest;
  }

  /** A step keeps the upstream registered for the rest of the request exactly when the
      upstream neither answers early nor is resumed early. */
  lemma StepWatched(s: Link, e: Event)
    requires Watched(s) && s.pendingSent <= |s.pending| && Enabled(s, e)
    ensures Watched(Handle(s, e)) <==> !AnswersEarly(s, e) && !ResumesEarly(s, e)
  {
    hide OnUpstreamRead, OnClientWritable, OnUpstreamWrite, OnBodyData;
    if s.live {
      match e {
        case Wait(_, _) =>
        case UpstreamWritable(c, w) => RequestWatched(s.(upstreamReady := s.upstreamReady.(write := false)), c, "", w);
        case UpstreamReadable(r, w) => ReadWatched(s.(upstreamReady := NOTHING), r, w);
        case ClientReadable(data, w) => RequestWatched(s.(clientReady := s.clientReady.(read := false)), false, data, w);
        case ClientWritable(w) => DrainWatched(s.(clientReady := NOTHING), w);
      }
    }
  }

  ghost predicate Answered(s: Link, run: seq<Event>)
    requires Possible(s, run)
  {
    run != [] && (Answered(s, run[..|run| - 1]) || AnswersEarly(After(s, run[..|run| - 1]), run[|run| - 1]))
  }

  ghost predicate Resumed(s: Link, run: seq<Event>)
    requires Possible(s, run)
  {
    run != [] && (Resumed(s, run[..|run| - 1]) || ResumesEarly(After(s, run[..|run| - 1]), run[|run| - 1]))
  }

  /** In every run in which neither happens the upstream stays registered for the rest of the request. */
  lemma {:induction false} AlwaysWatched(header: string, reused: bool, run: seq<Event>)
    requires var s := Started(header, reused); Possible(s, run) && !Answered(s, run) && !Resumed(s, run)
    ensures Watched(After(Started(header, reused), run))
  {
    hide Handle, Enabled, AnswersEarly, ResumesEarly;
    if run != [] {
      var before := run[..|run| - 1];
      AlwaysWatched(header, reused, before);
      RequestIsFifo(header, reused, before);
      StepWatched(After(Started(header, reused), before), run[|run| - 1]);
    }
  }

  predicate Stuck(s: Link) {
    s.pendingSent < |s.pending| && !s.upstreamSet.write && !s.upstreamReady.write
  }

  lemma BodyDataStuck(s: Link, data: string, w: WriteResult)
    requires Stuck(s) && Taken(w) <= |data|
    ensures var t := OnBodyData(s, data, w); Stuck(t) && t.sent == s.sent
  {
  }

  lemma StepStuck(s: Link, e: Event)
    requires Stuck(s) && Enabled(s, e)
    ensures Stuck(Handle(s, e)) && Handle(s, e).sent == s.sent
  {
    hide OnUpstreamRead, OnClientWritable, OnUpstreamWrite, OnBodyData;
    if s.live {
      match e {
        case Wait(_, _) =>
        case UpstreamWritable(c, w) =>
        case UpstreamReadable(r, w) => ReadSameRequest(s.(upstreamReady := NOTHING), r, w);
        case ClientReadable(data, w) => BodyDataStuck(s.(clientReady := s.clientReady.(read := false)), data, w);
        case ClientWritable(w) => DrainSameRequest(s.(clientReady := NOTHING), w);
      }
    }
  }

  /** Once the upstream is not registered for the rest of the request, no run sends it any more. */
  lemma {:induction false} StuckForever(s: Link, run: seq<Event>)
    requires Stuck(s) && Possible(s, run)
    ensures Stuck(After(s, run)) && After(s, run).sent == s.sent
  {
    hide Handle, Enabled, Stuck;
    if run != [] {
      var before := run[..|run| - 1];
      StuckForever(s, before);
      StepStuck(After(s, before), run[|run| - 1]);
    }
  }

  /** It happens: the upstream takes one byte of two and answers. */
  lemma GetsStuck() returns (run: seq<Event>)
    ensures var s := Started("HH", false); Possible(s, run) && After(s, run).live && Stuck(After(s, run))
  {
    hide Possible, After;
    var s := Started("HH", false);
    run := Begin(s, Wait(READ_WRITE, NOTHING));
    Extend(s, run, UpstreamWritable(true, Wrote(1)));
    run := run + [UpstreamWritable(true, Wrote(1))];
    Extend(s, run, UpstreamReadable(Data("a"), Wrote(0)));
    run := run + [UpstreamReadable(Data("a"), Wrote(0))];
  }

  /** One more event that is no early answer. */
  lemma ExtendUnanswered(s: Link, run: seq<Event>, e: Event)
    requires Possible(s, run) && Enabled(After(s, run), e) && !Answered(s, run) && !AnswersEarly(After(s, run), e)
    ensures Possible(s, run + [e]) && After(s, run + [e]) == Handle(After(s, run), e) && !Answered(s, run + [e])
  {
    hide Handle, Enabled, AnswersEarly;
    Extend(s, run, e);
    assert (run + [e])[..|run|] == run;
  }

  lemma BeginUnanswered(s: Link, e: Event) returns (run: seq<Event>)
    requires Enabled(s, e) && !AnswersEarly(s, e)
    ensures Possible(s, run) && After(s, run) == Handle(s, e) && !Answered(s, run)
  {
    hide Handle, Enabled, AnswersEarly;
    run := Begin(s, e);
    assert run[..0] == [];
  }

  /** It happens without an early answer, too: request data registers the upstream for writing
      while bytes are kept for the client, and writing those ends the registration. */
  lemma GetsStuckResuming() returns (run: seq<Event>)
    ensures var s := Started("H", false);
            Possible(s, run) && !Answered(s, run) && After(s, run).live && Stuck(After(s, run))
  {
    hide Possible, After, Answered;
    var s := Started("H", false);
    run := BeginUnanswered(s, Wait(Interest(false, true), NOTHING));
    ExtendUnanswered(s, run, UpstreamWritable(true, Wrote(1)));
    run := run + [UpstreamWritable(true, Wrote(1))];
    ExtendUnanswered(s, run, Wait(READ, NOTHING));
    run := run + [Wait(READ, NOTHING)];
    ExtendUnanswered(s, run, UpstreamReadable(Data("ab"), Wrote(0)));
    run := run + [UpstreamReadable(Data("ab"), Wrote(0))];
    ExtendUnanswered(s, run, Wait(NOTHING, READ_WRITE));
    run := run + [Wait(NOTHING, READ_WRITE)];
    ExtendUnanswered(s, run, ClientReadable("xy", Wrote(1)));
    run := run + [ClientReadable("xy", Wrote(1))];
    ExtendUnanswered(s, run, ClientWritable(Wrote(2)));
    run := run + [ClientWritable(Wrote(2))];
  }
}
