/** The handlers of a proxied exchange on their buffers and flags. */
module Relay {
  import opened RelaySpec
  import opened RelayInterest

  /** A buffer and how much of it has been written. */
  datatype Buffer = Buffer(bytes: string, done: nat)

  /** What the event loop knows of the two descriptors. */
  datatype Loop = Loop(upstreamSet: Interest, clientSet: Interest, upstreamReady: Interest, clientReady: Interest)

  datatype History = History(request: string, sent: string, received: string, delivered: string, ended: bool)

  const EMPTY := Buffer("", 0)

  class Exchange {
    var live: bool
    var connected: bool
    var pending: Buffer
    var downstream: Buffer
    var clientPaused: bool
    var upstreamPaused: bool
    var loop: Loop
    ghost var history: History

    ghost function Now(): Link
      reads this
    {
      Link(live, connected, pending.bytes, pending.done, downstream.bytes, downstream.done, clientPaused, upstreamPaused,
           loop.upstreamSet, loop.clientSet, loop.upstreamReady, loop.clientReady,
           history.request, history.sent, history.received, history.delivered, history.ended)
    }

    constructor (header: string, reused: bool)
      ensures Now() == Started(header, reused)
    {
      live, connected, pending, downstream := true, reused, Buffer(header, 0), EMPTY;
      clientPaused, upstreamPaused := false, false;
      loop := Loop(READ_WRITE, READ, NOTHING, NOTHING);
      history := History(header, "", "", "", false);
    }

    method Close()
      modifies this`live
      ensures !live
    {
      live := false;
    }

    /** The upstream is writable, or its connection attempt is over. */
    method UpstreamWrite(connects: bool, w: WriteResult)
      requires pending.done + Taken(w) <= |pending.bytes|
      modifies this
      ensures Now() == OnUpstreamWrite(old(Now()), connects, w)
    {
      hide Drained, Part, Rest;
      if !connected {
        if !connects {
          Close();
          return;
        }
        connected := true;
      }
      if pending.done < |pending.bytes| {
        if w.WriteFailed? {
          Close();
          return;
        }
        var n := Taken(w);
        history := history.(sent := history.sent + Part(pending.bytes, pending.done, pending.done + n));
        if pending.done + n < |pending.bytes| {
          pending := pending.(done := pending.done + n);
          return;
        }
        pending := EMPTY;
      }
      AllSent();
    }

    /** Nothing is pending: the client may go on, and the upstream is only read. */
    method AllSent()
      modifies this`clientPaused, this`loop
      ensures Now() == Drained(old(Now()))
    {
      if clientPaused {
        clientPaused := false;
        loop := loop.(clientSet := READ);
      }
      loop := loop.(upstreamSet := READ);
    }

    /** The upstream is readable: its bytes go to the client, or are kept for it. */
    method UpstreamRead(r: ReadResult, w: WriteResult)
      requires r.Data? ==> Taken(w) <= |r.bytes|
      modifies this
      ensures Now() == OnUpstreamRead(old(Now()), r, w)
    {
      hide Part, Rest;
      if r.NotReady? {
        return;
      }
      if r.Eof? || r.ReadFailed? {
        history := history.(ended := r.Eof? || history.ended);
        Close();
        return;
      }
      history := history.(received := history.received + r.bytes);
      if w.WriteFailed? {
        Close();
        return;
      }
      var n := Taken(w);
      history := history.(delivered := history.delivered + Part(r.bytes, 0, n));
      if n < |r.bytes| {
        downstream, upstreamPaused := Buffer(Rest(r.bytes, n), 0), true;
        loop := loop.(upstreamSet := NOTHING, clientSet := READ_WRITE);
      }
    }

    /** Part of the request body has been read from the client. */
    method BodyData(data: string, w: WriteResult)
      requires Taken(w) <= |data|
      modifies this
      ensures Now() == OnBodyData(old(Now()), data, w)
    {
      hide Part, Rest;
      history := history.(request := history.request + data);
      if !connected || pending.done < |pending.bytes| {
        pending := pending.(bytes := pending.bytes + data);
        return;
      }
      if w.WriteFailed? {
        Close();
        return;
      }
      var n := Taken(w);
      history := history.(sent := history.sent + Part(data, 0, n));
      if n < |data| {
        pending, clientPaused := Buffer(Rest(data, n), 0), true;
        loop := loop.(clientSet := NOTHING, upstreamSet := READ_WRITE);
      }
    }

    /** The client is writable: what is kept for it goes on. */
    method ClientWrite(w: WriteResult)
      requires downstream.done + Taken(w) <= |downstream.bytes|
      modifies this
      ensures Now() == OnClientWritable(old(Now()), w)
    {
      hide Part, Rest;
      if downstream.done >= |downstream.bytes| {
        loop := loop.(clientSet := READ);
        return;
      }
      if w.WriteFailed? {
        Close();
        return;
      }
      var n := Taken(w);
      history := history.(delivered := history.delivered + Part(downstream.bytes, downstream.done, downstream.done + n));
      downstream := downstream.(done := downstream.done + n);
      if downstream.done >= |downstream.bytes| {
        downstream := EMPTY;
        loop := loop.(clientSet := READ, upstreamSet := if upstreamPaused then READ else loop.upstreamSet);
        upstreamPaused := false;
      }
    }

    method Dispatch(e: Event)
      requires Enabled(Now(), e)
      modifies this
      ensures Now() == Handle(old(Now()), e)
    {
      hide OnUpstreamWrite, OnUpstreamRead, OnBodyData, OnClientWritable;
      if !live {
        return;
      }
      match e {
        case Wait(u, c) =>
          loop := loop.(upstreamReady := u, clientReady := c);
        case UpstreamWritable(connects, w) =>
          loop := loop.(upstreamReady := loop.upstreamReady.(write := false));
          UpstreamWrite(connects, w);
        case UpstreamReadable(r, w) =>
          loop := loop.(upstreamReady := NOTHING);
          UpstreamRead(r, w);
        case ClientReadable(data, w) =>
          loop := loop.(clientReady := loop.clientReady.(read := false));
          BodyData(data, w);
        case ClientWritable(w) =>
          loop := loop.(clientReady := NOTHING);
          ClientWrite(w);
      }
    }
  }

  /** A whole exchange: whatever the system reports, the request arrives in order; and if no
      request data collides with bytes kept for the client, an exchange that ends with the
      upstream closing has delivered the whole response. */
  method Run(header: string, reused: bool, run: seq<Event>) returns (x: Exchange)
    requires Possible(Started(header, reused), run)
    ensures fresh(x) && x.Now() == After(Started(header, reused), run)
    ensures Fifo(x.Now()) && Attended(x.Now())
    ensures !Clashes(Started(header, reused), run) ==> Served(x.Now())
    ensures !Clashes(Started(header, reused), run) ==> Conserved(x.Now()) && (x.history.ended ==> x.history.delivered == x.history.received)
  {
    hide Handle, Enabled, Clash;
    ghost var s := Started(header, reused);
    x := new Exchange(header, reused);
    var i := 0;
    PossibleBefore(s, run, 0);
    while i < |run|
      invariant i <= |run| && Possible(s, run[..i]) && x.Now() == After(s, run[..i])
    {
      PossibleBefore(s, run, i + 1);
      assert run[..i + 1][..i] == run[..i];
      x.Dispatch(run[i]);
      i := i + 1;
    }
    assert run[..|run|] == run;
    RequestIsFifo(header, reused, run);
    AlwaysAttended(header, reused, run);
    if !Clashes(s, run) {
      ResponseIsConserved(header, reused, run);
      AlwaysServed(header, reused, run);
    }
  }

  lemma {:induction false} PossibleBefore(s: Link, run: seq<Event>, i: nat)
    requires Possible(s, run) && i <= |run|
    ensures Possible(s, run[..i])
  {
    if i < |run| {
      var before := run[..|run| - 1];
      PossibleBefore(s, before, i);
      assert before[..i] == run[..i];
    } else {
      assert run[..i] == run;
    }
  }
}
