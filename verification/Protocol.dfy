/**
 The life of one request in internal/proxy/router.go and internal/proxy/forward.go, as a machine
 that moves on events. What an event says about the shared state (whether a token was free, which
 node Pick chose) is an input here; Gateway.dfy supplies it.
 */
module Protocol {
  import opened Options
  import opened PickerModel
  import Paths

  /**
   replays bounds how often net/http may send this request again, on a new connection to the same
   node, after a kept-alive one died under it. It is 0 unless the request counts as replayable: a
   safe method, or an Idempotency-Key header.
   */
  datatype Input = Input(verb: string, path: string, key: string, model: string, posted: seq<char>, replays: nat)

  /** A deferred call: giving back the concurrency token, or a Picker reservation. */
  datatype Release = SemToken | Reserved(id: nat)

  /** Why the gateway answers a request itself. */
  datatype Answer =
    | Denied
    | RateLimited
    | OverCapacity
    | NoHealthyNode
    | BodyTooLarge
    | BodyTimeout
    | BodyUnreadable
    | Unreachable(node: string)
    | UpstreamFailed(addr: string)
    | Relayed(node: string)

  /** First and Second are model-routed and hold a reservation; Sticky goes to the view node. */
  datatype Attempt = First | Second | Sticky

  /** How a call of Forwarder.To ends. */
  datatype Verdict = ReturnedNil | ReturnedUnreachable | Panicked

  datatype Pc =
    | Arrived
    | AtRateCheck
    | AtSemaphore(sticky: bool)
    | AtView
    | Reading(view: Option<Target>)
    | AtPick(failed: Option<string>)
    | AtFallback
    | Dialing(attempt: Attempt, target: Target)
    | Connected(attempt: Attempt, target: Target)
    | Streaming(attempt: Attempt, target: Target)
    | Returning(attempt: Attempt, target: Target, verdict: Verdict)
    | Unreached(mayRetry: bool, node: string)
    | Leaving
    | Done

  /**
   frames is the stack of deferred calls; release is the variable of that name, which is only a
   variable: deferring reads it once. bodyPos is how far r.Body has been read, from where the
   present attempt started reading. rated is what the rate check said, once it has been asked.
   replays is how many are left.
   */
  datatype Req = Req(
    input: Input, pc: Pc, rated: Option<bool>, frames: seq<Release>, release: Option<Release>,
    buffer: seq<char>, bodyPos: nat, from: nat, replays: nat,
    tried: seq<string>, reached: seq<string>, sent: seq<seq<char>>, answers: seq<Answer>,
    cancelled: bool, aborted: bool)

  function NewReq(input: Input): Req {
    Req(input, Arrived, None, [], None, [], 0, 0, input.replays, [], [], [], [], false, false)
  }

  datatype Event =
    | Begin
    | Rated(allowed: bool)
    | Acquired(ok: bool)
    | Viewed(view: Option<Target>)
    | Chunk(n: nat)
    | BodyEnd
    | BodyFails(timedOut: bool)
    | Picked(choice: Choice)
    | BodyTaken(n: nat)
    | DialFails
    | Connects
    | Replays
    | ClientGone
    | Breaks
    | FirstByte
    | StreamEnds
    | Aborts
    | ToReturns
    | Rewinds
    | WritesUnreachable
    | Leaves

  predicate Enabled(maxBody: nat, r: Req, e: Event) {
    match e
    case Begin => r.pc.Arrived?
    case Rated(_) => r.pc.AtRateCheck?
    case Acquired(_) => r.pc.AtSemaphore?
    case Viewed(_) => r.pc.AtView? || r.pc.AtFallback?
    case Chunk(n) => r.pc.Reading? && n > 0 && |r.buffer| + n <= |r.input.posted| && |r.buffer| + n <= maxBody + 1
    case BodyEnd => r.pc.Reading? && (|r.buffer| == |r.input.posted| || |r.buffer| == maxBody + 1)
    case BodyFails(_) => r.pc.Reading?
    case Picked(_) => r.pc.AtPick?
    case BodyTaken(n) => r.pc.Dialing? && n > 0 && r.bodyPos + n <= |r.buffer|
    case DialFails => r.pc.Dialing?
    case Connects => r.pc.Dialing?
    case Replays => r.pc.Connected? && r.replays > 0
    case ClientGone => r.pc.Dialing? || r.pc.Connected?
    case Breaks => r.pc.Dialing? || r.pc.Connected?
    case FirstByte => r.pc.Connected?
    case StreamEnds => r.pc.Streaming?
    case Aborts => r.pc.Streaming?
    case ToReturns => r.pc.Returning?
    case Rewinds => r.pc.Unreached? && r.pc.mayRetry
    case WritesUnreachable => r.pc.Unreached? && !r.pc.mayRetry
    case Leaves => r.pc.Leaving?
  }

  function AnswerAndLeave(r: Req, a: Answer): Req {
    r.(answers := r.answers + [a], pc := Leaving)
  }

  /** Forwarder.To begins: the node is dialled, and the body is read from where r.Body stands. */
  function StartForward(r: Req, attempt: Attempt, t: Target): Req {
    r.(pc := Dialing(attempt, t), from := r.bodyPos, tried := r.tried + [t.node])
  }

  /** readBody and resetBody: r.Body becomes a fresh reader over the buffered bytes. */
  function ResetBody(r: Req): Req {
    r.(bodyPos := 0)
  }

  /** What happens inside a call of Forwarder.To, or after the handler's last statement. */
  predicate InTransport(e: Event) {
    e.BodyTaken? || e.DialFails? || e.Connects? || e.Replays? || e.ClientGone? || e.Breaks? || e.FirstByte?
        || e.StreamEnds?
    || e.Aborts? || e.ToReturns? || e.Leaves?
  }

  /** A step of the router's own code, up to and including the start of a forward. */
  function Route(maxBody: nat, r: Req, e: Event): Req
    requires Enabled(maxBody, r, e) && !InTransport(e)
  {
    match e
    case Begin =>
      (match Paths.RouteOf(r.input.verb, r.input.path)
       case Forbidden => AnswerAndLeave(r, Denied)
       case ByModel => r.(pc := AtRateCheck)
       case ToView(_) => r.(pc := AtSemaphore(true)))
    case Rated(allowed) =>
      if allowed then r.(rated := Some(true), pc := AtSemaphore(false))
      else AnswerAndLeave(r.(rated := Some(false)), RateLimited)
    case Acquired(ok) =>
      if !ok then AnswerAndLeave(r, OverCapacity)
      else r.(release := Some(SemToken), frames := r.frames + [SemToken],
              pc := if r.pc.sticky then AtView else Reading(None))
    case Viewed(view) =>
      if view.None? then AnswerAndLeave(r, NoHealthyNode)
      else if r.pc.AtView? then r.(pc := Reading(view))
      else StartForward(r, Sticky, view.value)
    case Chunk(n) => r.(buffer := r.input.posted[..|r.buffer| + n])
    case BodyEnd =>
      if |r.buffer| > maxBody then AnswerAndLeave(r, BodyTooLarge)
      else if r.pc.view.Some? then StartForward(ResetBody(r), Sticky, r.pc.view.value)
      else ResetBody(r).(pc := AtPick(None))
    case BodyFails(timedOut) => AnswerAndLeave(r, if timedOut then BodyTimeout else BodyUnreadable)
    case Picked(choice) =>
      if choice.Chose? then
        // forwardHolding defers the function it is given, in a frame of its own
        StartForward(r, if r.pc.failed.None? then First else Second, choice.target)
          .(release := if r.pc.failed.None? then Some(Reserved(choice.id)) else r.release,
            frames := r.frames + [Reserved(choice.id)])
      else if r.pc.failed.None? then r.(release := None, pc := AtFallback)
      else AnswerAndLeave(r, Unreachable(r.pc.failed.value))
    case Rewinds => ResetBody(r).(pc := AtPick(Some(r.pc.node)))
    case WritesUnreachable => AnswerAndLeave(r, Unreachable(r.pc.node))
  }

  /** A step of a forward, and the deferred calls that follow it. */
  function Forward(maxBody: nat, r: Req, e: Event): Req
    requires Enabled(maxBody, r, e) && InTransport(e)
  {
    match e
    case BodyTaken(n) => r.(bodyPos := r.bodyPos + n)
    case DialFails => r.(pc := Returning(r.pc.attempt, r.pc.target, ReturnedUnreachable))
    case Connects =>
      r.(pc := Connected(r.pc.attempt, r.pc.target), reached := r.reached + [r.pc.target.node],
         sent := r.sent + [if r.from <= |r.buffer| then r.buffer[r.from..] else []])
    case Replays => r.(replays := r.replays - 1, bodyPos := 0, from := 0, pc := Dialing(r.pc.attempt, r.pc.target))
    case ClientGone => r.(cancelled := true, pc := Returning(r.pc.attempt, r.pc.target, ReturnedNil))
    case Breaks =>
      r.(answers := r.answers + [UpstreamFailed(r.pc.target.apiAddr)],
         pc := Returning(r.pc.attempt, r.pc.target, ReturnedNil))
    case FirstByte =>
      r.(answers := r.answers + [Relayed(r.pc.target.node)], pc := Streaming(r.pc.attempt, r.pc.target))
    case StreamEnds => r.(pc := Returning(r.pc.attempt, r.pc.target, ReturnedNil))
    case Aborts => r.(aborted := true, pc := Returning(r.pc.attempt, r.pc.target, Panicked))
    case ToReturns => AfterTo(r)
    case Leaves => r.(frames := [], buffer := [], pc := Done)
  }

  function Next(maxBody: nat, r: Req, e: Event): Req
    requires Enabled(maxBody, r, e)
  {
    if InTransport(e) then Forward(maxBody, r, e) else Route(maxBody, r, e)
  }

  /** forwardHolding's deferred release runs however To ended; then the router goes on, or unwinds. */
  function AfterTo(r: Req): Req
    requires r.pc.Returning?
  {
    var popped := if r.pc.attempt.Sticky? || r.frames == [] then r else r.(frames := r.frames[..|r.frames| - 1]);
    if !r.pc.verdict.ReturnedUnreachable? then popped.(pc := Leaving)
    else popped.(pc := Unreached(r.pc.attempt.First?, r.pc.target.node))
  }

  // ---- what holds of every request at every moment

  predicate InForward(pc: Pc) { pc.Dialing? || pc.Connected? || pc.Streaming? || pc.Returning? }

  /** Inside forwardHolding. */
  predicate Holding(pc: Pc) { InForward(pc) && !pc.attempt.Sticky? }

  predicate Unadmitted(pc: Pc) { pc.Arrived? || pc.AtRateCheck? || pc.AtSemaphore? }

  /** The stack of deferred calls is told by where the request is. */
  ghost predicate FramesFit(r: Req) {
    if Unadmitted(r.pc) || r.pc.Done? then r.frames == []
    else if r.pc.Leaving? then r.frames == [] || r.frames == [SemToken]
    else if Holding(r.pc) then |r.frames| == 2 && r.frames[0] == SemToken && r.frames[1].Reserved?
    else r.frames == [SemToken]
  }

  /** What is buffered is the first bytes posted, none before admission or after the end. */
  ghost predicate BufferFits(maxBody: nat, r: Req) {
    r.buffer <= r.input.posted && |r.buffer| <= maxBody + 1 && (r.frames == [] ==> r.buffer == [])
  }

  /** A body is picked for and forwarded whole, and from its first byte. */
  ghost predicate BodyIsWhole(maxBody: nat, r: Req) {
    && (InForward(r.pc) || r.pc.AtPick? || r.pc.AtFallback? || r.pc.Unreached? ==>
          r.buffer == r.input.posted && |r.buffer| <= maxBody)
    && (r.pc.AtPick? || r.pc.AtFallback? ==> r.bodyPos == 0)
    && (InForward(r.pc) ==> r.from == 0)
  }

  ghost predicate BodyFits(maxBody: nat, r: Req) {
    BufferFits(maxBody, r) && BodyIsWhole(maxBody, r)
  }

  /** The nodes tried so far: at most two, and not the same one twice. */
  ghost predicate TriedFits(r: Req) {
    && |r.tried| <= 2 && (|r.tried| == 2 ==> r.tried[0] != r.tried[1])
    && (if r.pc.AtPick? then r.tried == (if r.pc.failed.None? then [] else [r.pc.failed.value])
        else if InForward(r.pc) then
          |r.tried| == (if r.pc.attempt.Second? then 2 else 1) && r.tried[|r.tried| - 1] == r.pc.target.node
        else if r.pc.Unreached? then |r.tried| > 0 && (r.pc.mayRetry ==> |r.tried| == 1)
            && r.tried[|r.tried| - 1] == r.pc.node
        else r.pc.Leaving? || r.pc.Done? || r.tried == [])
  }

  /** How often the request was sent again after a connection died under it. */
  function Replayed(r: Req): int { r.input.replays - r.replays }

  /**
   The nodes connected to: one connection for each replay, and one more from the moment the present
   forward connects. Each was sent what the client posted.
   */
  ghost predicate ReachedFits(r: Req) {
    && r.replays <= r.input.replays && |r.reached| == |r.sent|
    && (forall k | 0 <= k < |r.sent| :: r.sent[k] == r.input.posted)
    && (forall k | 0 <= k < |r.reached| :: r.reached[k] in r.tried)
    && Replayed(r) <= |r.reached| <= Replayed(r) + 1
    && (|r.reached| == Replayed(r) + 1 ==> |r.tried| > 0 && r.reached[|r.reached| - 1] == r.tried[|r.tried| - 1])
    && (if r.pc.Connected? || r.pc.Streaming? then |r.reached| == Replayed(r) + 1
        else r.pc.Leaving? || r.pc.Done? || (r.pc.Returning? && !r.pc.verdict.ReturnedUnreachable?)
             || |r.reached| == Replayed(r))
  }

  ghost predicate AnswersFit(r: Req) {
    && |r.answers| <= 1
    && (r.pc.Leaving? || r.pc.Done? || (r.pc.Returning? && !r.pc.verdict.ReturnedUnreachable?) ==>
          |r.answers| == 1 || r.cancelled)
    && (!(r.pc.Leaving? || r.pc.Done? || r.pc.Returning? || r.pc.Streaming?) ==> r.answers == [])
    && (r.pc.Returning? && r.pc.verdict.ReturnedUnreachable? ==> r.answers == [])
    && (r.pc.Streaming? || r.aborted ==> |r.answers| == 1 && r.answers[0].Relayed?)
    && (r.cancelled ==> r.pc.Leaving? || r.pc.Done? || (r.pc.Returning? && !r.pc.verdict.ReturnedUnreachable?))
    && (r.cancelled ==> r.answers == [])
    && (|r.answers| == 1 && r.answers[0].Unreachable? ==>
          |r.reached| == Replayed(r) && |r.tried| > 0 && r.answers[0].node == r.tried[|r.tried| - 1])
    && (|r.answers| == 1 && r.answers[0].Relayed? ==>
          |r.reached| == Replayed(r) + 1 && |r.reached| > 0 && r.answers[0].node == r.reached[|r.reached| - 1])
  }

  ghost predicate RouteFits(r: Req) {
    && (Paths.RouteOf(r.input.verb, r.input.path).Forbidden? ==>
          r.tried == [] && (r.pc.Arrived? || r.pc.Leaving? || r.pc.Done?)
          && (!r.pc.Arrived? ==> r.answers == [Denied]))
  }

  /** On the way to a Pick, or on from one. */
  predicate ByPick(pc: Pc) {
    (pc.Reading? && pc.view.None?) || pc.AtPick? || pc.AtFallback? || Holding(pc) || (pc.Unreached? && pc.mayRetry)
  }

  /** On the way to the view node without a Pick. */
  predicate ByView(pc: Pc) {
    (pc.AtSemaphore? && pc.sticky) || pc.AtView? || (pc.Reading? && pc.view.Some?)
  }

  /** A model-routed request is rated before anything else, and gets no further when it is refused. */
  ghost predicate RateFits(r: Req) {
    var byModel := Paths.RouteOf(r.input.verb, r.input.path).ByModel?;
    && (r.rated.Some? <==> byModel && !r.pc.Arrived? && !r.pc.AtRateCheck?)
    && (r.pc.AtRateCheck? ==> byModel)
    && (r.pc.AtSemaphore? && !r.pc.sticky ==> byModel)
    && (ByPick(r.pc) || |r.tried| == 2 ==> byModel)
    && (ByView(r.pc) ==> !byModel)
    && (r.rated == Some(false) ==>
          (r.pc.Leaving? || r.pc.Done?) && r.frames == [] && r.buffer == [] && r.tried == []
              && r.answers == [RateLimited])
  }

  /** Answers given before any node is tried, and those that only a forward can lead to. */
  predicate BeforeForward(a: Answer) { !a.Unreachable? && !a.UpstreamFailed? && !a.Relayed? }

  /** Each answer has the cause it names, and a body over the limit is never forwarded. */
  ghost predicate ReasonsFit(maxBody: nat, r: Req) {
    && (|r.answers| == 1 ==>
          && (r.answers[0].Denied? <==> Paths.RouteOf(r.input.verb, r.input.path).Forbidden?)
          && (r.answers[0].RateLimited? <==> r.rated == Some(false))
          && (r.answers[0].BodyTooLarge? ==> |r.input.posted| > maxBody)
          && (BeforeForward(r.answers[0]) <==> r.tried == []))
    && (|r.input.posted| > maxBody ==> r.tried == [])
  }

  /**
   What the variable `release` holds: the token's release until the first Pick overwrites it, and
   then never that again, although the token's deferred release is still on the stack.
   */
  ghost predicate ReleaseFits(r: Req) {
    var byModel := Paths.RouteOf(r.input.verb, r.input.path).ByModel?;
    && (r.pc.AtView? || r.pc.Reading? || (r.pc.AtPick? && r.pc.failed.None?) ==> r.release == Some(SemToken))
    && (Holding(r.pc) && r.pc.attempt.First? ==> r.frames != [] && r.release == Some(r.frames[|r.frames| - 1]))
    && (r.pc.AtFallback? || (byModel && r.tried != []) ==> r.release != Some(SemToken))
    && (!byModel && InForward(r.pc) ==> r.release == Some(SemToken))
  }

  ghost predicate ReqFits(maxBody: nat, r: Req) {
    && FramesFit(r) && BodyFits(maxBody, r) && TriedFits(r) && ReachedFits(r) && AnswersFit(r) && RouteFits(r)
    && RateFits(r) && ReasonsFit(maxBody, r) && ReleaseFits(r)
  }

  /** A retry's choice keeps the node that failed out. */
  ghost predicate ChoiceFits(r: Req, e: Event) {
    e.Picked? && e.choice.Chose? && r.pc.AtPick? && r.pc.failed.Some? ==> e.choice.target.node != r.pc.failed.value
  }

  lemma NewReqFits(maxBody: nat, input: Input)
    ensures ReqFits(maxBody, NewReq(input))
  {
  }

  lemma RouteKeepsFrames(maxBody: nat, r: Req, e: Event)
    requires ReqFits(maxBody, r) && Enabled(maxBody, r, e) && !InTransport(e)
    ensures FramesFit(Route(maxBody, r, e))
  {
    hide BodyFits, TriedFits, ReachedFits, AnswersFit, RouteFits, RateFits, ReasonsFit, ReleaseFits, Paths.RouteOf;
    match e {
      case Begin =>
      case Rated(_) =>
      case Acquired(_) =>
      case Viewed(_) =>
      case Chunk(_) =>
      case BodyEnd =>
      case BodyFails(_) =>
      case Picked(_) =>
      case Rewinds =>
      case WritesUnreachable =>
      case _ =>
    }
  }

  lemma ForwardKeepsFrames(maxBody: nat, r: Req, e: Event)
    requires ReqFits(maxBody, r) && Enabled(maxBody, r, e) && InTransport(e)
    ensures FramesFit(Forward(maxBody, r, e))
  {
    hide BodyFits, TriedFits, ReachedFits, AnswersFit, RouteFits, RateFits, ReasonsFit, ReleaseFits, Paths.RouteOf;
  }

  lemma RouteKeepsBuffer(maxBody: nat, r: Req, e: Event)
    requires FramesFit(r) && BufferFits(maxBody, r) && Enabled(maxBody, r, e) && !InTransport(e)
    ensures BufferFits(maxBody, Route(maxBody, r, e))
  {
    hide Paths.RouteOf;
  }

  lemma RouteKeepsBodyWhole(maxBody: nat, r: Req, e: Event)
    requires BodyFits(maxBody, r) && Enabled(maxBody, r, e) && !InTransport(e)
    ensures BodyIsWhole(maxBody, Route(maxBody, r, e))
  {
    hide Paths.RouteOf;
    match e {
      case Begin =>
      case Rated(_) =>
      case Acquired(_) =>
      case Viewed(_) =>
      case Chunk(_) =>
      case BodyEnd =>
      case BodyFails(_) =>
      case Picked(_) =>
      case Rewinds =>
      case WritesUnreachable =>
      case _ =>
    }
  }

  lemma ForwardKeepsBuffer(maxBody: nat, r: Req, e: Event)
    requires FramesFit(r) && BufferFits(maxBody, r) && Enabled(maxBody, r, e) && InTransport(e)
    ensures BufferFits(maxBody, Forward(maxBody, r, e))
  {
  }

  lemma ForwardKeepsBodyWhole(maxBody: nat, r: Req, e: Event)
    requires BodyFits(maxBody, r) && Enabled(maxBody, r, e) && InTransport(e)
    ensures BodyIsWhole(maxBody, Forward(maxBody, r, e))
  {
  }

  lemma ChoosingKeepsTried(maxBody: nat, r: Req, e: Event)
    requires TriedFits(r) && Enabled(maxBody, r, e) && (e.Picked? || e.Viewed?) && ChoiceFits(r, e)
    ensures TriedFits(Route(maxBody, r, e))
  {
  }

  lemma RouteKeepsTried(maxBody: nat, r: Req, e: Event)
    requires TriedFits(r) && Enabled(maxBody, r, e) && !InTransport(e) && ChoiceFits(r, e)
    ensures TriedFits(Route(maxBody, r, e))
  {
    hide Paths.RouteOf;
    match e {
      case Begin =>
      case Rated(_) =>
      case Acquired(_) =>
      case Viewed(_) => ChoosingKeepsTried(maxBody, r, e);
      case Chunk(_) =>
      case BodyEnd =>
      case BodyFails(_) =>
      case Picked(_) => ChoosingKeepsTried(maxBody, r, e);
      case Rewinds =>
      case WritesUnreachable =>
      case _ =>
    }
  }

  lemma ForwardKeepsTried(maxBody: nat, r: Req, e: Event)
    requires ReqFits(maxBody, r) && Enabled(maxBody, r, e) && InTransport(e)
    ensures TriedFits(Forward(maxBody, r, e))
  {
    hide FramesFit, BodyFits, ReachedFits, AnswersFit, RouteFits, RateFits, ReasonsFit, ReleaseFits, Paths.RouteOf;
  }

  /** The router's own code runs only while nothing was reached and nothing answered. */
  lemma RouteIsClean(maxBody: nat, r: Req, e: Event)
    requires ReqFits(maxBody, r) && Enabled(maxBody, r, e) && !InTransport(e)
    ensures |r.reached| == |r.sent| == Replayed(r) && r.answers == [] && !r.cancelled && !r.aborted
    ensures r.pc.AtPick? && r.pc.failed.Some? ==> r.tried == [r.pc.failed.value]
    ensures r.pc.Unreached? ==> |r.tried| > 0 && r.tried[|r.tried| - 1] == r.pc.node
  {
    hide FramesFit, BodyFits, RouteFits, RateFits, ReasonsFit, ReleaseFits;
  }

  lemma RouteLeavesReached(maxBody: nat, r: Req, e: Event)
    requires Enabled(maxBody, r, e) && !InTransport(e)
    ensures var after := Route(maxBody, r, e);
            && after.reached == r.reached && after.sent == r.sent
            && after.input == r.input && after.replays == r.replays && after.cancelled == r.cancelled
                && after.aborted == r.aborted
            && !after.pc.Connected? && !after.pc.Streaming? && !after.pc.Returning?
  {
    hide Paths.RouteOf;
    match e {
      case Begin =>
      case Rated(_) =>
      case Acquired(_) =>
      case Viewed(_) =>
      case Chunk(_) =>
      case BodyEnd =>
      case BodyFails(_) =>
      case Picked(_) =>
      case Rewinds =>
      case WritesUnreachable =>
      case _ =>
    }
  }

  lemma RouteKeepsTriedNodes(maxBody: nat, r: Req, e: Event)
    requires Enabled(maxBody, r, e) && !InTransport(e)
    ensures r.tried <= Route(maxBody, r, e).tried
  {
    hide Paths.RouteOf;
  }

  lemma RouteKeepsReached(maxBody: nat, r: Req, e: Event)
    requires ReqFits(maxBody, r) && Enabled(maxBody, r, e) && !InTransport(e)
    ensures ReachedFits(Route(maxBody, r, e))
  {
    hide FramesFit, BodyFits, TriedFits, AnswersFit, RouteFits, RateFits, ReasonsFit, ReleaseFits, Route, Enabled;
    RouteIsClean(maxBody, r, e);
    RouteKeepsTriedNodes(maxBody, r, e);
    RouteLeavesReached(maxBody, r, e);
  }

  lemma ConnectingKeepsReached(maxBody: nat, r: Req, e: Event)
    requires BodyFits(maxBody, r) && TriedFits(r) && ReachedFits(r)
    requires Enabled(maxBody, r, e) && (e.Connects? || e.Replays?)
    ensures ReachedFits(Forward(maxBody, r, e))
  {
  }

  lemma ForwardKeepsReached(maxBody: nat, r: Req, e: Event)
    requires ReqFits(maxBody, r) && Enabled(maxBody, r, e) && InTransport(e)
    ensures ReachedFits(Forward(maxBody, r, e))
  {
    hide FramesFit, AnswersFit, RouteFits, RateFits, ReasonsFit, ReleaseFits, Paths.RouteOf;
    if e.Connects? || e.Replays? {
      hide BodyFits, TriedFits, ReachedFits, Forward, Enabled;
      ConnectingKeepsReached(maxBody, r, e);
    }
  }

  lemma RouteKeepsAnswers(maxBody: nat, r: Req, e: Event)
    requires ReqFits(maxBody, r) && Enabled(maxBody, r, e) && !InTransport(e)
    ensures AnswersFit(Route(maxBody, r, e))
  {
    hide FramesFit, BodyFits, TriedFits, ReachedFits, AnswersFit, RouteFits, RateFits, ReasonsFit, ReleaseFits,
          Paths.RouteOf;
    RouteIsClean(maxBody, r, e);
    RouteLeavesReached(maxBody, r, e);
    CleanAnswersFit(Route(maxBody, r, e));
  }

  lemma CleanAnswersFit(r: Req)
    requires |r.reached| == Replayed(r) && !r.cancelled && !r.aborted && !r.pc.Connected? && !r.pc.Streaming?
        && !r.pc.Returning? && !r.pc.Done?
    requires (r.answers == [] && !r.pc.Leaving?) ||
             (|r.answers| == 1 && r.pc.Leaving? && !r.answers[0].Relayed?
              && (r.answers[0].Unreachable? ==> |r.tried| > 0 && r.tried[|r.tried| - 1] == r.answers[0].node))
    ensures AnswersFit(r)
  {
  }

  lemma ForwardKeepsAnswers(maxBody: nat, r: Req, e: Event)
    requires ReqFits(maxBody, r) && Enabled(maxBody, r, e) && InTransport(e)
    ensures AnswersFit(Forward(maxBody, r, e))
  {
    hide FramesFit, BodyFits, RouteFits, RateFits, ReasonsFit, ReleaseFits, Paths.RouteOf;
  }

  lemma RouteKeepsRoute(maxBody: nat, r: Req, e: Event)
    requires ReqFits(maxBody, r) && Enabled(maxBody, r, e) && !InTransport(e)
    ensures RouteFits(Route(maxBody, r, e))
  {
    hide FramesFit, BodyFits, ReachedFits, RateFits, ReasonsFit, ReleaseFits, Paths.RouteOf;
  }

  lemma ForwardKeepsRoute(maxBody: nat, r: Req, e: Event)
    requires ReqFits(maxBody, r) && Enabled(maxBody, r, e) && InTransport(e)
    ensures RouteFits(Forward(maxBody, r, e))
  {
    hide FramesFit, BodyFits, ReachedFits, RateFits, ReasonsFit, ReleaseFits, Paths.RouteOf;
  }

  lemma RouteKeepsRate(maxBody: nat, r: Req, e: Event)
    requires FramesFit(r) && BufferFits(maxBody, r) && TriedFits(r) && AnswersFit(r) && RateFits(r)
    requires Enabled(maxBody, r, e) && !InTransport(e)
    ensures RateFits(Route(maxBody, r, e))
  {
    hide Paths.RouteOf;
    match e {
      case Begin =>
      case Rated(_) =>
      case Acquired(_) =>
      case Viewed(_) =>
      case Chunk(_) =>
      case BodyEnd =>
      case BodyFails(_) =>
      case Picked(_) =>
      case Rewinds =>
      case WritesUnreachable =>
      case _ =>
    }
  }

  lemma ForwardKeepsRate(maxBody: nat, r: Req, e: Event)
    requires RateFits(r) && Enabled(maxBody, r, e) && InTransport(e)
    ensures RateFits(Forward(maxBody, r, e))
  {
    hide Paths.RouteOf;
  }

  lemma ChoosingKeepsRelease(maxBody: nat, r: Req, e: Event)
    requires TriedFits(r) && RateFits(r) && ReleaseFits(r)
    requires Enabled(maxBody, r, e) && (e.Picked? || e.Viewed?)
    ensures ReleaseFits(Route(maxBody, r, e))
  {
    hide Paths.RouteOf;
  }

  lemma RouteKeepsRelease(maxBody: nat, r: Req, e: Event)
    requires FramesFit(r) && TriedFits(r) && RateFits(r) && ReleaseFits(r)
    requires Enabled(maxBody, r, e) && !InTransport(e)
    ensures ReleaseFits(Route(maxBody, r, e))
  {
    hide Paths.RouteOf;
    match e {
      case Begin =>
      case Rated(_) =>
      case Acquired(_) =>
      case Viewed(_) => ChoosingKeepsRelease(maxBody, r, e);
      case Chunk(_) =>
      case BodyEnd =>
      case BodyFails(_) =>
      case Picked(_) => ChoosingKeepsRelease(maxBody, r, e);
      case Rewinds =>
      case WritesUnreachable =>
      case _ =>
    }
  }

  lemma ReturningKeepsRelease(r: Req)
    requires FramesFit(r) && TriedFits(r) && RateFits(r) && ReleaseFits(r) && r.pc.Returning?
    ensures ReleaseFits(AfterTo(r))
  {
    hide Paths.RouteOf;
  }

  lemma ForwardKeepsRelease(maxBody: nat, r: Req, e: Event)
    requires FramesFit(r) && TriedFits(r) && RateFits(r) && ReleaseFits(r)
    requires Enabled(maxBody, r, e) && InTransport(e)
    ensures ReleaseFits(Forward(maxBody, r, e))
  {
    hide Paths.RouteOf, AfterTo;
    if e.ToReturns? {
      ReturningKeepsRelease(r);
    }
  }

  /** What one step of the router's own code can answer, and why. */
  lemma RouteAnswers(maxBody: nat, r: Req, e: Event)
    requires Enabled(maxBody, r, e) && !InTransport(e) && r.answers == [] && BufferFits(maxBody, r)
    ensures var after := Route(maxBody, r, e);
            && after.input == r.input && (after.tried == r.tried || after.answers == [])
            && (after.answers == [] || after.answers == [after.answers[0]])
            && (after.answers != [] ==>
                  && (after.answers[0].Denied? <==> e.Begin?) && (after.answers[0].RateLimited? <==> e.Rated?)
                  && (after.answers[0].Unreachable? <==> e.WritesUnreachable? || (e.Picked? && r.pc.failed.Some?))
                  && !after.answers[0].UpstreamFailed? && !after.answers[0].Relayed?
                  && (after.answers[0].BodyTooLarge? ==> |r.input.posted| > maxBody))
            && (e.Begin? ==> (after.answers != [] <==> Paths.RouteOf(r.input.verb, r.input.path).Forbidden?))
            && (e.Rated? ==> (after.answers != [] <==> after.rated == Some(false)))
            && (!e.Rated? ==> after.rated == r.rated) && (e.Rewinds? ==> after.answers == [])
  {
    hide Paths.RouteOf;
    match e {
      case Begin =>
      case Rated(_) =>
      case Acquired(_) =>
      case Viewed(_) =>
      case Chunk(_) =>
      case BodyEnd =>
      case BodyFails(_) =>
      case Picked(_) =>
      case Rewinds =>
      case WritesUnreachable =>
      case _ =>
    }
  }

  /** Only a body within the limit gets as far as a forward. */
  lemma RouteForwardsWithinLimit(maxBody: nat, r: Req, e: Event)
    requires Enabled(maxBody, r, e) && !InTransport(e) && BodyFits(maxBody, r)
    requires |r.input.posted| > maxBody && r.tried == []
    ensures Route(maxBody, r, e).tried == []
  {
    hide Paths.RouteOf;
  }

  lemma RouteKeepsReasons(maxBody: nat, r: Req, e: Event)
    requires ReqFits(maxBody, r) && Enabled(maxBody, r, e) && !InTransport(e)
    ensures ReasonsFit(maxBody, Route(maxBody, r, e))
  {
    hide FramesFit, ReachedFits, AnswersFit, BufferFits, BodyIsWhole, Route, Paths.RouteOf;
    RouteIsClean(maxBody, r, e);
    RouteAnswers(maxBody, r, e);
    if |r.input.posted| > maxBody {
      RouteForwardsWithinLimit(maxBody, r, e);
    }
  }

  lemma ForwardKeepsReasons(maxBody: nat, r: Req, e: Event)
    requires ReqFits(maxBody, r) && Enabled(maxBody, r, e) && InTransport(e)
    ensures ReasonsFit(maxBody, Forward(maxBody, r, e))
  {
    hide FramesFit, BodyFits, ReachedFits, Paths.RouteOf;
  }

  /** Every step of every request keeps all of this. */
  lemma StepFits(maxBody: nat, r: Req, e: Event)
    requires ReqFits(maxBody, r) && Enabled(maxBody, r, e) && ChoiceFits(r, e)
    ensures ReqFits(maxBody, Next(maxBody, r, e))
  {
    hide FramesFit, BufferFits, BodyIsWhole, TriedFits, ReachedFits, AnswersFit, RouteFits, RateFits, ReasonsFit,
          ReleaseFits, Route, Forward, Enabled;
    if InTransport(e) {
      ForwardKeepsFrames(maxBody, r, e);
      ForwardKeepsBuffer(maxBody, r, e);
      ForwardKeepsBodyWhole(maxBody, r, e);
      ForwardKeepsTried(maxBody, r, e);
      ForwardKeepsReached(maxBody, r, e);
      ForwardKeepsAnswers(maxBody, r, e);
      ForwardKeepsRoute(maxBody, r, e);
      ForwardKeepsRate(maxBody, r, e);
      ForwardKeepsReasons(maxBody, r, e);
      ForwardKeepsRelease(maxBody, r, e);
    } else {
      RouteKeepsFrames(maxBody, r, e);
      RouteKeepsBuffer(maxBody, r, e);
      RouteKeepsBodyWhole(maxBody, r, e);
      RouteKeepsTried(maxBody, r, e);
      RouteKeepsReached(maxBody, r, e);
      RouteKeepsAnswers(maxBody, r, e);
      RouteKeepsRoute(maxBody, r, e);
      RouteKeepsRate(maxBody, r, e);
      RouteKeepsReasons(maxBody, r, e);
      RouteKeepsRelease(maxBody, r, e);
    }
  }

  lemma InputStays(maxBody: nat, r: Req, e: Event)
    requires Enabled(maxBody, r, e)
    ensures Next(maxBody, r, e).input == r.input
    ensures Next(maxBody, r, e).rated == if e.Rated? then Some(e.allowed) else r.rated
  {
    hide Paths.RouteOf;
  }

  // ---- one request on its own

  ghost predicate Runs(maxBody: nat, r: Req, es: seq<Event>)
    decreases |es|
  {
    es == [] || (Enabled(maxBody, r, es[0]) && ChoiceFits(r, es[0]) && Runs(maxBody, Next(maxBody, r, es[0]), es[1..]))
  }

  ghost function EndOf(maxBody: nat, r: Req, es: seq<Event>): Req
    requires Runs(maxBody, r, es)
    decreases |es|
  {
    if es == [] then r else EndOf(maxBody, Next(maxBody, r, es[0]), es[1..])
  }

  lemma {:induction false} LoneRunFits(maxBody: nat, r: Req, es: seq<Event>)
    requires ReqFits(maxBody, r) && Runs(maxBody, r, es)
    ensures ReqFits(maxBody, EndOf(maxBody, r, es)) && EndOf(maxBody, r, es).input == r.input
    decreases |es|
  {
    if es != [] {
      hide ReqFits, Enabled, Next, ChoiceFits;
      StepFits(maxBody, r, es[0]);
      InputStays(maxBody, r, es[0]);
      LoneRunFits(maxBody, Next(maxBody, r, es[0]), es[1..]);
    }
  }

  /** Two different nodes have been connected to. */
  ghost predicate TwoNodes(r: Req) {
    exists j, k :: 0 <= j < k < |r.reached| && r.reached[j] != r.reached[k]
  }

  lemma TwoNodesNeedAReplay(maxBody: nat, r: Req)
    requires ReqFits(maxBody, r) && TwoNodes(r)
    ensures Paths.RouteOf(r.input.verb, r.input.path).ByModel?
    ensures r.replays < r.input.replays && |r.input.posted| <= maxBody && |r.tried| == 2
  {
    hide FramesFit, BodyFits, AnswersFit, RouteFits, ReleaseFits, Paths.RouteOf;
  }

  /**
   One request reaches one node, with one exception: the transport may replay a replayable request on
   a new connection when the old one dies under it, and if that dial fails the node counts as
   unreachable although it was sent the request before. A run that connects to two different nodes
   exists exactly for model-routed requests that are replayable and within the body limit.
   */
  lemma TwoNodesExactlyWhen(maxBody: nat, input: Input)
    ensures (exists es :: Runs(maxBody, NewReq(input), es) && TwoNodes(EndOf(maxBody, NewReq(input), es))) <==>
              Paths.RouteOf(input.verb, input.path).ByModel? && input.replays > 0 && |input.posted| <= maxBody
  {
    if es :| Runs(maxBody, NewReq(input), es) && TwoNodes(EndOf(maxBody, NewReq(input), es)) {
      hide ReqFits, Runs, EndOf, TwoNodes;
      NewReqFits(maxBody, input);
      LoneRunFits(maxBody, NewReq(input), es);
      TwoNodesNeedAReplay(maxBody, EndOf(maxBody, NewReq(input), es));
    }
    if Paths.RouteOf(input.verb, input.path).ByModel? && input.replays > 0 && |input.posted| <= maxBody {
      var es := ReplayThenRetry(maxBody, input);
    }
  }

  lemma OneStepMore(maxBody: nat, r: Req, e: Event, es: seq<Event>)
    requires Enabled(maxBody, r, e) && ChoiceFits(r, e) && Runs(maxBody, Next(maxBody, r, e), es)
    ensures Runs(maxBody, r, [e] + es) && EndOf(maxBody, r, [e] + es) == EndOf(maxBody, Next(maxBody, r, e), es)
  {
    assert ([e] + es)[1..] == es;
  }

  /** One node was reached and cannot be dialled any more; a second is sent the request. */
  lemma RetriesElsewhere(maxBody: nat, r: Req, a: Target, b: Target) returns (es: seq<Event>)
    requires r.pc == Unreached(true, a.node) && r.reached == [a.node] && a.node != b.node
    ensures Runs(maxBody, r, es) && TwoNodes(EndOf(maxBody, r, es))
  {
    var r1 := Next(maxBody, r, Rewinds);
    var r2 := Next(maxBody, r1, Picked(Chose(b, 1)));
    var r3 := Next(maxBody, r2, Connects);
    assert r3.reached[0] == a.node && r3.reached[1] == b.node;
    EmptyRun(maxBody, r3);
    hide Next, Runs, EndOf;
    OneStepMore(maxBody, r2, Connects, []);
    es := [Connects] + [];
    OneStepMore(maxBody, r1, Picked(Chose(b, 1)), es);
    es := [Picked(Chose(b, 1))] + es;
    OneStepMore(maxBody, r, Rewinds, es);
    es := [Rewinds] + es;
  }

  /** The node that was sent the request dies and cannot be dialled again. */
  lemma DiesThenRetries(maxBody: nat, r: Req, a: Target, b: Target) returns (es: seq<Event>)
    requires r.pc == Connected(First, a) && r.replays > 0 && r.reached == [a.node] && a.node != b.node
    ensures Runs(maxBody, r, es) && TwoNodes(EndOf(maxBody, r, es))
  {
    var r1 := Next(maxBody, r, Replays);
    var r2 := Next(maxBody, r1, DialFails);
    var r3 := Next(maxBody, r2, ToReturns);
    es := RetriesElsewhere(maxBody, r3, a, b);
    hide Next, Runs, EndOf, TwoNodes;
    OneStepMore(maxBody, r2, ToReturns, es);
    es := [ToReturns] + es;
    OneStepMore(maxBody, r1, DialFails, es);
    es := [DialFails] + es;
    OneStepMore(maxBody, r, Replays, es);
    es := [Replays] + es;
  }

  lemma EmptyRun(maxBody: nat, r: Req)
    ensures Runs(maxBody, r, []) && EndOf(maxBody, r, []) == r
  {
  }

  /** From a body read whole to the first node's connection, and on from there. */
  lemma PicksThenRetries(maxBody: nat, r: Req) returns (es: seq<Event>)
    requires r.pc == Reading(None) && r.buffer == r.input.posted && |r.buffer| <= maxBody && r.replays > 0
        && r.reached == []
    ensures Runs(maxBody, r, es) && TwoNodes(EndOf(maxBody, r, es))
  {
    var a, b := Target("a", "a:8086"), Target("b", "b:8086");
    var r1 := Next(maxBody, r, BodyEnd);
    var r2 := Next(maxBody, r1, Picked(Chose(a, 0)));
    var r3 := Next(maxBody, r2, Connects);
    es := DiesThenRetries(maxBody, r3, a, b);
    hide Next, Runs, EndOf, TwoNodes;
    OneStepMore(maxBody, r2, Connects, es);
    es := [Connects] + es;
    OneStepMore(maxBody, r1, Picked(Chose(a, 0)), es);
    es := [Picked(Chose(a, 0))] + es;
    OneStepMore(maxBody, r, BodyEnd, es);
    es := [BodyEnd] + es;
  }

  lemma ReadsThenRetries(maxBody: nat, r: Req) returns (es: seq<Event>)
    requires r.pc == Reading(None) && r.buffer == [] && |r.input.posted| <= maxBody && r.replays > 0 && r.reached == []
    ensures Runs(maxBody, r, es) && TwoNodes(EndOf(maxBody, r, es))
  {
    var n := |r.input.posted|;
    if n == 0 {
      es := PicksThenRetries(maxBody, r);
    } else {
      assert r.input.posted[..n] == r.input.posted;
      es := PicksThenRetries(maxBody, Next(maxBody, r, Chunk(n)));
      hide Next, Runs, EndOf, TwoNodes;
      OneStepMore(maxBody, r, Chunk(n), es);
      es := [Chunk(n)] + es;
    }
  }

  lemma ReplayThenRetry(maxBody: nat, input: Input) returns (es: seq<Event>)
    requires Paths.RouteOf(input.verb, input.path).ByModel? && input.replays > 0 && |input.posted| <= maxBody
    ensures Runs(maxBody, NewReq(input), es) && TwoNodes(EndOf(maxBody, NewReq(input), es))
  {
    hide Paths.RouteOf;
    var r := NewReq(input);
    var r1 := Next(maxBody, r, Begin);
    var r2 := Next(maxBody, r1, Rated(true));
    es := ReadsThenRetries(maxBody, Next(maxBody, r2, Acquired(true)));
    hide Next, Runs, EndOf, TwoNodes;
    OneStepMore(maxBody, r2, Acquired(true), es);
    es := [Acquired(true)] + es;
    OneStepMore(maxBody, r1, Rated(true), es);
    es := [Rated(true)] + es;
    OneStepMore(maxBody, r, Begin, es);
    es := [Begin] + es;
  }

  // ---- every request comes to an end

  function Stage(pc: Pc): nat {
    match pc
    case Arrived => 18
    case AtRateCheck => 17
    case AtSemaphore(_) => 16
    case AtView => 15
    case Reading(_) => 14
    case AtPick(failed) => if failed.None? then 13 else 7
    case AtFallback => 7
    case Dialing(attempt, _) => if attempt.First? then 12 else 6
    case Connected(attempt, _) => if attempt.First? then 11 else 5
    case Streaming(attempt, _) => if attempt.First? then 10 else 4
    case Returning(attempt, _, _) => if attempt.First? then 9 else 3
    case Unreached(mayRetry, _) => if mayRetry then 8 else 2
    case Leaving => 1
    case Done => 0
  }

  /** Bytes still to come from the client, or still to be read by the transport. */
  function Ahead(r: Req): int {
    if r.pc.Reading? then |r.input.posted| - |r.buffer| else if r.pc.Dialing? then |r.buffer| - r.bodyPos else 0
  }

  /** A replay goes back one stage, and there is one less of them. */
  function Stages(r: Req): nat { Stage(r.pc) + 2 * r.replays }

  /** Later in the request's life, or further on in the same stage of it. */
  predicate Further(before: Req, after: Req) {
    Stages(after) < Stages(before) || (Stages(after) == Stages(before) && 0 <= Ahead(after) < Ahead(before))
  }

  lemma ChoosingMovesOn(maxBody: nat, r: Req, e: Event)
    requires Enabled(maxBody, r, e) && (e.Picked? || e.Viewed?)
    ensures Stages(Route(maxBody, r, e)) < Stages(r)
  {
  }

  lemma RouteMovesOn(maxBody: nat, r: Req, e: Event)
    requires Enabled(maxBody, r, e) && !InTransport(e) && !e.Chunk?
    ensures Stages(Route(maxBody, r, e)) < Stages(r)
  {
    hide Paths.RouteOf;
    match e {
      case Begin =>
      case Rated(_) =>
      case Acquired(_) =>
      case Viewed(_) => ChoosingMovesOn(maxBody, r, e);
      case Chunk(_) =>
      case BodyEnd =>
      case BodyFails(_) =>
      case Picked(_) => ChoosingMovesOn(maxBody, r, e);
      case Rewinds =>
      case WritesUnreachable =>
      case _ =>
    }
  }

  lemma RouteAdvances(maxBody: nat, r: Req, e: Event)
    requires Enabled(maxBody, r, e) && !InTransport(e)
    ensures Further(r, Route(maxBody, r, e))
  {
    if !e.Chunk? {
      hide Stages, Route, Enabled;
      RouteMovesOn(maxBody, r, e);
    }
  }

  lemma ForwardAdvances(maxBody: nat, r: Req, e: Event)
    requires Enabled(maxBody, r, e) && InTransport(e)
    ensures Further(r, Forward(maxBody, r, e))
  {
  }

  /** Every event moves a request on, so no request takes steps for ever. */
  lemma EveryStepAdvances(maxBody: nat, r: Req, e: Event)
    requires Enabled(maxBody, r, e)
    ensures Further(r, Next(maxBody, r, e))
  {
    hide Further, Route, Forward, Enabled;
    if InTransport(e) {
      ForwardAdvances(maxBody, r, e);
    } else {
      RouteAdvances(maxBody, r, e);
    }
  }
}
