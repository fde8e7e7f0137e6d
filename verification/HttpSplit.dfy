/** The parse does not depend on how the input was cut into pieces, and it never
    holds more body than the limit allows. */
module HttpSplit {
  import opened HttpSpec
  import opened Text

  /** A body of known length that is still short after this step. */
  ghost predicate ShortBody(p: Progress) {
    p.Active? && p.phase == Body && !p.chunked && |p.req.body| + |p.rest| < p.contentLength
  }

  lemma RequestLineExtends(p: Progress, y: string)
    requires p.Active? && p.phase == RequestLine && StepRequestLine(p).Next?
    ensures StepRequestLine(Arrive(p, y)) == Next(Arrive(StepRequestLine(p).p, y))
  {
    hide ParseRequestLine, StripCR;
    IndexOfAppend(p.rest, y, '\n');
  }

  lemma HeadersExtend(p: Progress, y: string)
    requires p.Active? && p.phase == Headers && StepHeaders(p).Next?
    ensures StepHeaders(Arrive(p, y)) == Next(Arrive(StepHeaders(p).p, y))
  {
    hide ParseHeaderLine, ParseFraming, StripCR;
    IndexOfAppend(p.rest, y, '\n');
  }

  lemma ChunkSizeExtends(p: Progress, y: string)
    requires p.Active? && p.phase == Body && p.chunked && p.contentLength == 0 && StepChunkSize(p).Next?
    ensures StepChunkSize(Arrive(p, y)) == Next(Arrive(StepChunkSize(p).p, y))
  {
    hide ParseChunkSize, StripCR;
    IndexOfAppend(p.rest, y, '\n');
  }

  lemma TakeAppend(s: string, y: string, n: nat)
    requires n <= |s|
    ensures (s + y)[..n] == s[..n] && (s + y)[n..] == s[n..] + y
  {
  }

  lemma ChunkDataExtends(p: Progress, y: string)
    requires p.Active? && p.phase == Body && p.chunked && p.contentLength > 0 && StepChunkData(p).Next?
    ensures StepChunkData(Arrive(p, y)) == Next(Arrive(StepChunkData(p).p, y))
  {
    var n := p.contentLength;
    TakeAppend(p.rest, y, n);
    TakeAppend(p.rest, y, n + 2);
    assert (p.rest + y)[n..n + 2] == p.rest[n..n + 2];
  }

  lemma PlainBodyExtends(p: Progress, y: string)
    requires p.Active? && p.phase == Body && !p.chunked && !ShortBody(p) && StepPlainBody(p).Next?
    ensures StepPlainBody(Arrive(p, y)) == Next(Arrive(StepPlainBody(p).p, y))
  {
    TakeAppend(p.rest, y, p.contentLength - |p.req.body|);
  }

  /** Input that arrives later does not change a step that could already be taken. */
  lemma StepExtends(p: Progress, y: string)
    requires Step(p).Next? && !ShortBody(p)
    ensures Step(Arrive(p, y)) == Next(Arrive(Step(p).p, y))
  {
    hide StepRequestLine, StepHeaders, StepPlainBody, StepChunkSize, StepChunkData;
    match p.phase {
      case RequestLine => RequestLineExtends(p, y);
      case Headers => HeadersExtend(p, y);
      case Body =>
        if !p.chunked {
          PlainBodyExtends(p, y);
        } else if p.contentLength == 0 {
          ChunkSizeExtends(p, y);
        } else {
          ChunkDataExtends(p, y);
        }
    }
  }

  /** The step of a short body takes all that is there. */
  lemma ShortBodyStep(p: Progress)
    requires ShortBody(p) && p.rest != ""
    ensures Step(p) == Next(p.(rest := "", req := p.req.(body := p.req.body + p.rest)))
    ensures Run(p) == Step(p).p
  {
    assert p.rest[..|p.rest|] == p.rest && p.rest[|p.rest|..] == "";
    var q := p.(rest := "", req := p.req.(body := p.req.body + p.rest));
    assert StepPlainBody(p) == Next(q);
    assert Step(q) == Halt;
  }

  lemma PlainBodyTakes(p: Progress, n: nat, rest: string, body: string)
    requires p.Active? && p.phase == Body && !p.chunked && |p.req.body| < p.contentLength && p.rest != ""
    requires n <= |p.rest| && |p.req.body| + n <= p.contentLength
    requires n == |p.rest| || |p.req.body| + n == p.contentLength
    requires rest == p.rest[n..] && body == p.req.body + p.rest[..n]
    ensures Step(p) == Next(p.(phase := if |body| == p.contentLength then Done else Body,
                               rest := rest, req := p.req.(body := body)))
  {
  }

  /** A short body takes all that is there, and the next piece continues it. */
  lemma ShortBodyExtends(p: Progress, y: string)
    requires ShortBody(p) && p.rest != "" && y != ""
    ensures Step(p).Next? && Run(p) == Step(p).p
    ensures Step(Arrive(p, y)) == Step(Arrive(Step(p).p, y)) && Step(Arrive(p, y)).Next?
  {
    hide Step, Run;
    ShortBodyStep(p);
    var q := p.(rest := "", req := p.req.(body := p.req.body + p.rest));
    var m := p.contentLength - |p.req.body| - |p.rest|;
    var n := if m < |y| then m else |y|;
    var s := p.rest + y;
    assert s[..|p.rest| + n] == p.rest + y[..n] && s[|p.rest| + n..] == y[n..];
    assert p.req.body + (p.rest + y[..n]) == (p.req.body + p.rest) + y[..n];
    PlainBodyTakes(Arrive(p, y), |p.rest| + n, y[n..], p.req.body + p.rest + y[..n]);
    assert "" + y == y;
    PlainBodyTakes(Arrive(q, y), n, y[n..], p.req.body + p.rest + y[..n]);
  }

  lemma RunStep(p: Progress, q: Progress)
    requires Step(p) == Step(q) && Step(p).Next?
    ensures Run(p) == Run(q)
  {
  }

  lemma {:induction false} RunSplit(p: Progress, y: string)
    ensures Run(Arrive(Run(p), y)) == Run(Arrive(p, y))
    decreases if p.Active? then |p.rest| + 1 else 0
  {
    hide StepRequestLine, StepHeaders, StepPlainBody, StepChunkSize, StepChunkData;
    match Step(p) {
      case Halt =>
      case Next(q) =>
        if ShortBody(p) && p.rest != "" {
          if y == "" {
            ArriveNothing(p);
            RunTwice(p);
            ArriveNothing(Run(p));
          } else {
            ShortBodyExtends(p, y);
            RunStep(Arrive(p, y), Arrive(q, y));
          }
        } else if ShortBody(p) {
          ShortBodyHalts(p);
        } else {
          StepExtends(p, y);
          RunSplit(q, y);
        }
    }
  }

  lemma ShortBodyHalts(p: Progress)
    requires ShortBody(p) && p.rest == ""
    ensures Step(p) == Halt
  {
  }

  lemma ArriveNothing(p: Progress)
    ensures Arrive(p, "") == p
  {
    assert p.Active? ==> p.rest + "" == p.rest;
  }

  lemma {:induction false} RunTwice(p: Progress)
    ensures Run(Run(p)) == Run(p)
    decreases if p.Active? then |p.rest| + 1 else 0
  {
    hide StepRequestLine, StepHeaders, StepPlainBody, StepChunkSize, StepChunkData;
    match Step(p) {
      case Halt =>
      case Next(q) => RunTwice(q);
    }
  }

  /** Two pieces are worth their concatenation. */
  lemma FeedSplit(p: Progress, x: string, y: string)
    ensures Feed(Feed(p, x), y) == Feed(p, x + y)
  {
    RunSplit(Arrive(p, x), y);
    if p.Active? {
      assert p.rest + x + y == p.rest + (x + y);
    }
  }

  function FeedPieces(p: Progress, pieces: seq<string>): Progress {
    if pieces == [] then p else Feed(FeedPieces(p, pieces[..|pieces| - 1]), pieces[|pieces| - 1])
  }

  /** However a message is cut, the parse is that of the whole message. */
  lemma {:induction false} SplitIndependence(pieces: seq<string>)
    ensures FeedPieces(START, pieces) == Feed(START, Concat(pieces))
  {
    if pieces == [] {
      ArriveNothing(START);
      assert Step(START) == Halt;
    } else {
      var last := |pieces| - 1;
      SplitIndependence(pieces[..last]);
      FeedSplit(START, Concat(pieces[..last]), pieces[last]);
    }
  }

  // ---------------------------------------------------------------------
  // Limits

  /** Body and announced sizes within their limits. */
  ghost predicate WithinLimits(p: Progress) {
    p.Active? ==>
      && |p.req.headers| <= MAX_HEADERS
      && |p.req.body| <= MAX_BODY_SIZE
      && (p.phase == RequestLine || p.phase == Headers ==> p.req.body == "" && p.contentLength == 0 && !p.chunked)
      && (p.phase == Body && !p.chunked ==> |p.req.body| < p.contentLength <= MAX_BODY_SIZE)
      && (p.phase == Body && p.chunked ==> p.contentLength <= MAX_CHUNK_SIZE && |p.req.body| + p.contentLength <= MAX_BODY_SIZE)
  }

  lemma StepKeepsLimits(p: Progress)
    requires WithinLimits(p)
    ensures Step(p).Next? ==> WithinLimits(Step(p).p)
  {
    hide ParseRequestLine, ParseHeaderLine, IndexOf, StripCR;
  }

  lemma {:induction false} RunKeepsLimits(p: Progress)
    requires WithinLimits(p)
    ensures WithinLimits(Run(p))
    decreases if p.Active? then |p.rest| + 1 else 0
  {
    hide StepRequestLine, StepHeaders, StepPlainBody, StepChunkSize, StepChunkData;
    StepKeepsLimits(p);
    match Step(p) {
      case Halt =>
      case Next(q) => RunKeepsLimits(q);
    }
  }

  /** In every reachable state the body is within MAX_BODY_SIZE. */
  lemma ReachableWithinLimits(pieces: seq<string>)
    ensures WithinLimits(FeedPieces(START, pieces))
  {
    SplitIndependence(pieces);
    RunKeepsLimits(Arrive(START, Concat(pieces)));
  }
}
