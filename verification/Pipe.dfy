/** The pipe between the streaming goroutine and the HTTP transport.  The goroutine writes its
    plan, closes the multipart writer and the pipe; the transport takes symbols, may stop reading
    at any time, and may look at how the pipe was closed.  Every statement is about all runs. */
module Pipe {
  import opened Wrappers
  import opened Machine
  import opened Multipart
  import opened Upload

  /** How the write side was closed: by Close, or by CloseWithError. */
  datatype End = CleanEof | Failure(error: Error)

  /** Where the goroutine is. */
  datatype Phase =
    | Streaming                  // inside streamRest
    | Closing                    // streamRest returned nil: mw.Close() next
    | Abandoning(error: Error)   // it failed: mw.Close() next, result ignored
    | Signalling(error: Error)   // pw.CloseWithError(err) next
    | Deferred                   // the deferred pw.Close() next
    | Gone

  /** `todo` and `fate` are the rest of the plan and its outcome; `end` is the write side's first
      close; `hungUp` says that the transport closed the read side; `got` is what it took and
      `seen` the end of input it was told, if any. */
  datatype State = State(
    todo: seq<Sym>, fate: Option<Error>, phase: Phase, end: Option<End>, hungUp: bool,
    got: seq<Sym>, seen: Option<End>)

  datatype Action =
    | Transfer       // a write meets a read
    | BreakWrite     // a write fails because the transport hung up
    | Return         // streamRest returns
    | Boundary       // mw.Close() writes the closing boundary
    | BreakBoundary  // mw.Close() fails because the transport hung up
    | CloseWithError
    | CloseDeferred
    | HangUp         // the transport closes the read side
    | Look           // the transport reads past the last symbol

  /** The first close of the write side wins. */
  function CloseWrite(s: State, end: End): State {
    s.(end := if s.end.None? then Some(end) else s.end)
  }

  function Step(s: State, a: Action): Option<State> {
    match a
    case Transfer =>
      if s.phase.Streaming? && s.todo != [] && !s.hungUp
      then Some(s.(got := s.got + [s.todo[0]], todo := s.todo[1..])) else None
    case BreakWrite =>
      if s.phase.Streaming? && s.todo != [] && s.hungUp
      then Some(s.(phase := Abandoning(PipeBroken))) else None
    case Return =>
      if s.phase.Streaming? && s.todo == []
      then Some(s.(phase := match s.fate case None => Closing case Some(e) => Abandoning(e))) else None
    case Boundary =>
      if s.hungUp then None
      else (match s.phase
            case Closing => Some(s.(got := s.got + [Final], phase := Deferred))
            case Abandoning(e) => Some(s.(got := s.got + [Final], phase := Signalling(e)))
            case _ => None)
    case BreakBoundary =>
      if !s.hungUp then None
      else (match s.phase
            case Closing => Some(s.(phase := Signalling(PipeBroken)))
            case Abandoning(e) => Some(s.(phase := Signalling(e)))
            case _ => None)
    case CloseWithError =>
      if s.phase.Signalling? then Some(CloseWrite(s, Failure(s.phase.error)).(phase := Deferred)) else None
    case CloseDeferred =>
      if s.phase.Deferred? then Some(CloseWrite(s, CleanEof).(phase := Gone)) else None
    case HangUp => if s.hungUp then None else Some(s.(hungUp := true))
    case Look => if s.end.Some? && !s.hungUp then Some(s.(seen := s.end)) else None
  }

  function Start(plan: Plan): State {
    State(plan.syms, plan.error, Streaming, None, false, [], None)
  }

  function After(plan: Plan, acts: seq<Action>): Option<State> {
    Exec(Step, Start(plan), acts)
  }

  // ---- Safety -----------------------------------------------------------------------------

  /** The transport has a prefix of the plan, possibly followed by the closing boundary. */
  predicate Sound(plan: Plan, got: seq<Sym>) {
    got <= plan.syms || (got != [] && got[|got| - 1] == Final && got[..|got| - 1] <= plan.syms)
  }

  predicate Complete(plan: Plan, got: seq<Sym>) {
    plan.error.None? && got == plan.syms + [Final]
  }

  predicate Inv(plan: Plan, s: State) {
    && Sound(plan, s.got)
    && s.fate == plan.error
    && (s.seen.Some? ==> s.seen == s.end)
    && (!s.phase.Deferred? && !s.phase.Gone? ==> s.end.None?)
    && (s.end == Some(CleanEof) ==> Complete(plan, s.got))
    && match s.phase
       case Streaming => s.got + s.todo == plan.syms
       case Closing => plan.error.None? && s.got == plan.syms
       case Abandoning(e) => s.got <= plan.syms && (plan.error == Some(e) || (e == PipeBroken && s.hungUp))
       case Signalling(e) => plan.error == Some(e) || (e == PipeBroken && s.hungUp)
       case Deferred => s.end.None? ==> Complete(plan, s.got)
       case Gone => s.end.Some?
  }

  /** One symbol moves from `todo` to `got`. */
  lemma Moved(got: seq<Sym>, todo: seq<Sym>, syms: seq<Sym>)
    requires got + todo == syms && todo != []
    ensures (got + [todo[0]]) + todo[1..] == syms && got + [todo[0]] <= syms
  {
  }

  lemma Bounded(plan: Plan, got: seq<Sym>)
    requires got <= plan.syms
    ensures Sound(plan, got + [Final])
  {
    assert (got + [Final])[..|got|] == got;
  }

  lemma InvKept(plan: Plan, s: State, a: Action)
    requires Inv(plan, s) && Step(s, a).Some?
    ensures Inv(plan, Step(s, a).value)
  {
    match a
    case Transfer => Moved(s.got, s.todo, plan.syms);
    case Return => assert s.got + [] == s.got;
    case Boundary => Bounded(plan, s.got);
    case _ =>
  }

  lemma RunKeepsInv(plan: Plan, acts: seq<Action>)
    requires After(plan, acts).Some?
    ensures Inv(plan, After(plan, acts).value)
  {
    forall s, a | Inv(plan, s) && Step(s, a).Some? ensures Inv(plan, Step(s, a).value) {
      InvKept(plan, s, a);
    }
    InvariantHolds(Step, s => Inv(plan, s), Start(plan), acts);
  }

  /** The transport is told a clean end of input only if the plan ended without error and it got
      all of it and the closing boundary; after any error it never is, although the error path
      also closes the multipart writer and the deferred Close comes last. */
  lemma CleanEofIsComplete(plan: Plan, acts: seq<Action>)
    requires After(plan, acts).Some? && After(plan, acts).value.seen == Some(CleanEof)
    ensures Complete(plan, After(plan, acts).value.got)
  {
    RunKeepsInv(plan, acts);
  }

  /** Sharper, when the goroutine is gone: the pipe was closed cleanly exactly if the plan had no
      error and the transport took everything up to the closing boundary. */
  lemma ClosedCleanlyIff(plan: Plan, acts: seq<Action>)
    requires After(plan, acts).Some? && After(plan, acts).value.phase.Gone?
    ensures After(plan, acts).value.end == Some(CleanEof) <==> Complete(plan, After(plan, acts).value.got)
  {
    var s := After(plan, acts).value;
    RunKeepsInv(plan, acts);
    forall u, a | Inv(plan, u) && Blames(plan, u) && Step(u, a).Some?
      ensures Inv(plan, Step(u, a).value) && Blames(plan, Step(u, a).value)
    {
      InvKept(plan, u, a);
      BlamesKept(plan, u, a);
    }
    InvariantHolds(Step, u => Inv(plan, u) && Blames(plan, u), Start(plan), acts);
  }

  /** An error is signalled only when there was one: the plan's, or a hang-up before the end. */
  predicate Blames(plan: Plan, s: State) {
    && (s.phase.Abandoning? && plan.error.None? ==> s.got <= plan.syms && s.todo != [])
    && (s.phase.Abandoning? || s.phase.Signalling? ==> !Complete(plan, s.got))
    && (s.end.Some? && s.end != Some(CleanEof) ==> !Complete(plan, s.got))
    && (plan.error.None? && s.phase.Abandoning? ==> s.hungUp)
  }

  lemma BlamesKept(plan: Plan, s: State, a: Action)
    requires Inv(plan, s) && Blames(plan, s) && Step(s, a).Some?
    ensures Blames(plan, Step(s, a).value)
  {
  }

  /** As long as the transport has not hung up, the goroutine goes by its plan: it puts out all of it
      and the closing boundary, also after an error, and then the pipe is closed with that error or
      cleanly. */
  predicate OnPlan(plan: Plan, s: State) {
    var whole := plan.syms + [Final];
    && (!s.hungUp ==>
          match s.phase
          case Streaming => s.got + s.todo == plan.syms && s.fate == plan.error && s.end.None?
          case Closing => s.got == plan.syms && plan.error.None? && s.end.None?
          case Abandoning(e) => s.got == plan.syms && plan.error == Some(e) && s.end.None?
          case Signalling(e) => s.got == whole && plan.error == Some(e) && s.end.None?
          case Deferred => s.got == whole && s.end == (if plan.error.None? then None else Some(PlanEnd(plan)))
          case Gone => s.got == whole && s.end == Some(PlanEnd(plan)))
    && (s.seen.Some? ==> s.seen == s.end)
    && (s.seen.Some? ==> s.seen == Some(PlanEnd(plan)))
    && (s.end.Some? ==> s.phase.Deferred? || s.phase.Gone?)
  }

  /** How the pipe should be closed. */
  function PlanEnd(plan: Plan): End {
    match plan.error case None => CleanEof case Some(e) => Failure(e)
  }

  lemma OnPlanKept(plan: Plan, s: State, a: Action)
    requires OnPlan(plan, s) && Step(s, a).Some?
    ensures OnPlan(plan, Step(s, a).value)
  {
    match a
    case Transfer =>
      if !s.hungUp {
        Moved(s.got, s.todo, plan.syms);
      }
    case Return => assert s.got + [] == s.got;
    case _ =>
  }

  /** Without a hang-up the transport gets everything the plan has, the closing boundary included, and
      the pipe is closed with exactly the plan's outcome; and an end of input that the transport is told
      is that outcome in any case. */
  lemma UnbrokenPipe(plan: Plan, acts: seq<Action>)
    requires After(plan, acts).Some?
    ensures var s := After(plan, acts).value;
            && (s.phase.Gone? && !s.hungUp ==> s.got == plan.syms + [Final] && s.end == Some(PlanEnd(plan)))
            && (s.seen.Some? ==> s.seen == Some(PlanEnd(plan)))
  {
    forall s, a | OnPlan(plan, s) && Step(s, a).Some? ensures OnPlan(plan, Step(s, a).value) {
      OnPlanKept(plan, s, a);
    }
    assert [] + plan.syms == plan.syms;
    InvariantHolds(Step, s => OnPlan(plan, s), Start(plan), acts);
  }

  /** A transport that has not hung up is told how the pipe was closed as soon as it is. */
  lemma EndIsTold(s: State)
    requires s.end.Some? && !s.hungUp
    ensures Step(s, Look) == Some(s.(seen := s.end))
  {
  }

  // ---- Progress ---------------------------------------------------------------------------

  function Rank(s: State): nat {
    match s.phase
    case Streaming => 5 + |s.todo|
    case Closing => 4
    case Abandoning(_) => 4
    case Signalling(_) => 3
    case Deferred => 2
    case Gone => 0
  }

  /** What the goroutine does next: a write meets the transport or fails. */
  function Move(s: State): Action
    requires !s.phase.Gone?
  {
    match s.phase
    case Streaming => if s.todo == [] then Return else if s.hungUp then BreakWrite else Transfer
    case Closing => if s.hungUp then BreakBoundary else Boundary
    case Abandoning(_) => if s.hungUp then BreakBoundary else Boundary
    case Signalling(_) => CloseWithError
    case Deferred => CloseDeferred
    case Gone => assert false; Look
  }

  /** Steps of the goroutine, alone or together with the transport. */
  function Work(acts: seq<Action>): nat {
    if acts == [] then 0
    else Work(acts[..|acts| - 1]) + if acts[|acts| - 1].HangUp? || acts[|acts| - 1].Look? then 0 else 1
  }

  lemma StepsDown(s: State, a: Action)
    requires Step(s, a).Some?
    ensures Rank(Step(s, a).value) + (if a.HangUp? || a.Look? then 0 else 1) <= Rank(s)
  {
  }

  /** The goroutine always finishes as long as the transport reads on or hangs up: in every run it
      takes at most five steps more than it has symbols to write, and until it is gone its next
      step is enabled and brings it nearer to the end. */
  lemma {:induction false} GoroutineFinishes(plan: Plan, acts: seq<Action>)
    requires After(plan, acts).Some?
    ensures var s := After(plan, acts).value;
            && Work(acts) + Rank(s) <= 5 + |plan.syms|
            && (!s.phase.Gone? ==> Step(s, Move(s)).Some? && Rank(Step(s, Move(s)).value) < Rank(s))
  {
    if acts != [] {
      var init := acts[..|acts| - 1];
      GoroutineFinishes(plan, init);
      StepsDown(After(plan, init).value, acts[|acts| - 1]);
    }
  }

  // ---- The upload as the transport sees it ------------------------------------------------

  function UploadPlan(allowed: seq<string>, r: Reader): Plan
    requires Collect(allowed, r, []).Collected?
  {
    StreamPlan(allowed, Collect(allowed, r, []))
  }

  /** What the transport has, without a closing boundary. */
  function Content(got: seq<Sym>): seq<Sym> {
    if got != [] && got[|got| - 1] == Final then got[..|got| - 1] else got
  }

  /** In every run, what the backend got says the inbound parts in order, each with its own header and
      file name, the last one's body possibly cut short; no file part of a disallowed type is among
      them; and it was told a clean end only if every part was there in full. */
  lemma TransportSeesInbound(allowed: seq<string>, r: Reader, acts: seq<Action>)
      returns (k: nat, data: Option<seq<bv8>>)
    requires Collect(allowed, r, []).Collected? && After(UploadPlan(allowed, r), acts).Some?
    ensures var parts, s := PartsOf(r.rest), After(UploadPlan(allowed, r), acts).value;
            && (if data.Some? then k < |parts| && data.value <= parts[k].body else k <= |parts|)
            && Content(s.got) == Truncated(parts, k, data) && Received(Decode(s.got), parts)
            && HeadsAllowed(allowed, s.got)
            && (s.seen == Some(CleanEof) ==>
                  && s.got == Encode(parts) + [Final] && Decode(s.got) == parts
                  && HasFile(parts) && AllPermitted(allowed, parts))
  {
    var plan, parts := UploadPlan(allowed, r), PartsOf(r.rest);
    var s := After(plan, acts).value;
    RunKeepsInv(plan, acts);
    StreamIsPrefix(allowed, r);
    OnlyAllowedFilesWritten(allowed, r);
    ContentIsPrefix(allowed, plan, s.got);
    k, data := PrefixIsTruncation(parts, Content(s.got));
    TruncatedIsReceived(parts, k, data);
    DecodeContent(s.got);
    EncodeSaysParts(parts);
    UploadCompletesIff(allowed, r);
  }

  lemma DecodeContent(got: seq<Sym>)
    ensures Decode(Content(got)) == Decode(got)
  {
    if got != [] && got[|got| - 1] == Final {
      assert got == got[..|got| - 1] + [Final];
      DecodeSnoc(got[..|got| - 1], Final);
    }
  }

  lemma ContentIsPrefix(allowed: seq<string>, plan: Plan, got: seq<Sym>)
    requires Sound(plan, got) && HeadsAllowed(allowed, plan.syms)
    ensures Content(got) <= plan.syms && HeadsAllowed(allowed, got)
  {
    forall i | 0 <= i < |got| ensures HeadAllowed(allowed, got[i]) {
      if i < |Content(got)| {
        assert got[i] == plan.syms[i];
      }
    }
  }

  /** And under a cap, the body bytes it got never exceed MaxBytes. */
  lemma TransportWithinMaxBytes(allowed: seq<string>, parts: seq<Framed>, tail: nat, maxBytes: int,
                                fault: Option<nat>, held: nat, acts: seq<Action>)
    requires maxBytes > 0 && Collect(allowed, Open(parts, tail, maxBytes, fault, held), []).Collected?
    requires After(UploadPlan(allowed, Open(parts, tail, maxBytes, fault, held)), acts).Some?
    ensures DataCount(After(UploadPlan(allowed, Open(parts, tail, maxBytes, fault, held)), acts).value.got) <= maxBytes
  {
    var r := Open(parts, tail, maxBytes, fault, held);
    RunKeepsInv(UploadPlan(allowed, r), acts);
    WithinMaxBytes(allowed, parts, tail, maxBytes, fault, held);
    SoundCount(UploadPlan(allowed, r), After(UploadPlan(allowed, r), acts).value.got);
  }

  lemma SoundCount(plan: Plan, got: seq<Sym>)
    requires Sound(plan, got)
    ensures DataCount(got) <= DataCount(plan.syms)
  {
    if got <= plan.syms {
      DataCountPrefix(got, plan.syms);
    } else {
      DataCountPrefix(got[..|got| - 1], plan.syms);
    }
  }

  // ---- The goroutine as a program -----------------------------------------------------------

  /** The write side of io.Pipe: the first close wins. */
  class PipeWriter {
    var end: Option<End>

    constructor ()
      ensures end == None
    {
      end := None;
    }

    method CloseWithError(error: Error)
      modifies this
      ensures end == if old(end).None? then Some(Failure(error)) else old(end)
    {
      end := if end.None? then Some(Failure(error)) else end;
    }

    method Close()
      modifies this
      ensures end == if old(end).None? then Some(CleanEof) else old(end)
    {
      end := if end.None? then Some(CleanEof) else end;
    }
  }

  lemma {:induction false} Transferred(plan: Plan, n: nat) returns (acts: seq<Action>)
    requires n <= |plan.syms|
    ensures After(plan, acts) == Some(Start(plan).(todo := plan.syms[n..], got := plan.syms[..n]))
  {
    if n == 0 {
      acts := [];
    } else {
      var init := Transferred(plan, n - 1);
      acts := init + [Transfer];
      ExecSnoc(Step, Start(plan), init, Transfer);
      assert plan.syms[..n - 1] + [plan.syms[n - 1]] == plan.syms[..n];
      assert plan.syms[n - 1..][1..] == plan.syms[n..];
    }
  }

  /** Writing the plan, as a run: all of it, or as much as there is room for before the transport
      hangs up. */
  lemma Streamed(plan: Plan, k0: Sink, k1: Sink, error: Option<Error>) returns (acts: seq<Action>)
    requires Written(plan, k0, k1, error) && k0.out == []
    ensures After(plan, acts).Some?
    ensures var s := After(plan, acts).value;
            && s.got == k1.out && s.end.None?
            && s.phase == (if error.None? then Closing else Abandoning(error.value))
            && (s.hungUp ==> k1.room == Some(0))
  {
    if Affords(k0.room, |plan.syms|) {
      acts := Transferred(plan, |plan.syms|);
      ExecSnoc(Step, Start(plan), acts, Return);
      acts := acts + [Return];
    } else {
      acts := Transferred(plan, k0.room.value);
      ExecSnoc(Step, Start(plan), acts, HangUp);
      ExecSnoc(Step, Start(plan), acts + [HangUp], BreakWrite);
      acts := acts + [HangUp] + [BreakWrite];
    }
  }

  /** How the write side ends, given the outcome of streamRest and of writing the boundary. */
  function Ending(error: Option<Error>, boundary: bool): End {
    if error.Some? then Failure(error.value) else if boundary then CleanEof else Failure(PipeBroken)
  }

  /** After the boundary, however it went: the error if there is one, and the deferred Close. */
  lemma ClosedAfter(plan: Plan, acts: seq<Action>, end: End) returns (all: seq<Action>)
    requires After(plan, acts).Some?
    requires var s := After(plan, acts).value;
             s.end.None? && s.phase == (if end.CleanEof? then Deferred else Signalling(end.error))
    ensures After(plan, all).Some?
    ensures var s, t := After(plan, acts).value, After(plan, all).value;
            t.phase.Gone? && t.got == s.got && t.end == Some(end)
  {
    all := acts;
    if end.Failure? {
      ExecSnoc(Step, Start(plan), all, CloseWithError);
      all := all + [CloseWithError];
    }
    ExecSnoc(Step, Start(plan), all, CloseDeferred);
    all := all + [CloseDeferred];
  }

  /** The closing sequence, as a run. */
  lemma Closed(plan: Plan, acts: seq<Action>, error: Option<Error>, boundary: bool) returns (all: seq<Action>)
    requires After(plan, acts).Some?
    requires var s := After(plan, acts).value;
             && s.phase == (if error.None? then Closing else Abandoning(error.value))
             && s.end.None? && (boundary ==> !s.hungUp)
    ensures After(plan, all).Some?
    ensures var s, t := After(plan, acts).value, After(plan, all).value;
            && t.phase.Gone? && t.got == s.got + (if boundary then [Final] else [])
            && t.end == Some(Ending(error, boundary))
  {
    all := acts;
    if boundary {
      ExecSnoc(Step, Start(plan), all, Boundary);
      all := all + [Boundary];
    } else {
      if !After(plan, all).value.hungUp {
        ExecSnoc(Step, Start(plan), all, HangUp);
        all := all + [HangUp];
      }
      ExecSnoc(Step, Start(plan), all, BreakBoundary);
      all := all + [BreakBoundary];
    }
    all := ClosedAfter(plan, all, Ending(error, boundary));
  }

  /** The goroutine of ServeHTTP, with its deferred Close last on every path: a run of the machine,
      so everything above holds of it. */
  method Goroutine(allowed: seq<string>, mr: PartReader, mw: PartWriter, pw: PipeWriter, c: Collected)
      returns (ghost acts: seq<Action>)
    requires c.Collected? && mr.View() == c.r && mw.out == [] && pw.end.None?
    modifies mr, mw, pw
    ensures After(StreamPlan(allowed, c), acts).Some?
    ensures var s := After(StreamPlan(allowed, c), acts).value;
            s.phase.Gone? && s.got == mw.out && s.end == pw.end && pw.end.Some?
    ensures pw.end == Some(CleanEof) <==>
            StreamPlan(allowed, c).error.None? && Affords(old(mw.room), |StreamPlan(allowed, c).syms| + 1)
    ensures Affords(old(mw.room), |StreamPlan(allowed, c).syms| + 1) ==>
              mw.out == StreamPlan(allowed, c).syms + [Final] && pw.end == Some(PlanEnd(StreamPlan(allowed, c)))
  {
    ghost var plan, k0 := StreamPlan(allowed, c), mw.View();
    var err := StreamRest(allowed, mr, mw, c);
    ghost var streamed := Streamed(plan, k0, mw.View(), err);
    var ok := mw.Write([Final]);
    if err.Some? {
      pw.CloseWithError(err.value);
    } else if !ok {
      pw.CloseWithError(PipeBroken);
    }
    pw.Close();
    acts := Closed(plan, streamed, err, ok);
  }

  function InboundOf(q: Request, maxBytes: int): Reader {
    Open(q.parts, q.tail, maxBytes, q.fault, q.held)
  }

  /** The plan of an admitted upload has no error exactly if the rest is allowed and readable, and
      is then the whole encoding. */
  lemma AdmittedPlan(allowed: seq<string>, maxBytes: int, q: Request)
    requires Decide(allowed, maxBytes, q).Upstream?
    ensures var plan, r := UploadPlan(allowed, InboundOf(q, maxBytes)), InboundOf(q, maxBytes);
            && (plan.error.None? <==> AllPermitted(allowed, PartsOf(q.parts)) && Affords(r.left, Cost(q.parts, q.tail)))
            && (plan.error.None? ==> plan.syms == Encode(PartsOf(q.parts)))
            && plan.error == Obstacle(allowed, r)
  {
    var r := InboundOf(q, maxBytes);
    HasFirstFile(allowed, r, []);
    FailsBecause(allowed, r, []);
    PartByPart(allowed, q.parts);
    UploadCompletesIff(allowed, r);
    StreamIsPrefix(allowed, r);
  }

  /** What any run of an admitted upload has put out. */
  lemma AdmittedOutput(allowed: seq<string>, maxBytes: int, q: Request, acts: seq<Action>)
    requires Decide(allowed, maxBytes, q).Upstream?
    requires After(UploadPlan(allowed, InboundOf(q, maxBytes)), acts).Some?
    ensures var s := After(UploadPlan(allowed, InboundOf(q, maxBytes)), acts).value;
            && HeadsAllowed(allowed, s.got) && Received(Decode(s.got), PartsOf(q.parts))
            && (maxBytes > 0 ==> DataCount(s.got) <= maxBytes)
  {
    var k, data := TransportSeesInbound(allowed, InboundOf(q, maxBytes), acts);
    if maxBytes > 0 {
      TransportWithinMaxBytes(allowed, q.parts, q.tail, maxBytes, q.fault, q.held, acts);
    }
  }

  /** The upload handler from request to closed pipe, with a transport that takes `room` symbols.
      The pipe is closed cleanly exactly if the upload was admitted, every file is allowed, the body
      ends before the cap and any fault, and the transport takes everything; then the backend has
      the inbound parts and the closing boundary. */
  method ServeUpload(allowed: seq<string>, maxBytes: int, q: Request, room: Option<nat>)
      returns (d: Decision, end: Option<End>, out: seq<Sym>)
    ensures d == Decide(allowed, maxBytes, q)
    ensures d.Upstream? <==> end.Some?
    ensures out != [] ==> d.Upstream?
    ensures HeadsAllowed(allowed, out) && Received(Decode(out), PartsOf(q.parts))
    ensures maxBytes > 0 ==> DataCount(out) <= maxBytes
    ensures end == Some(CleanEof) <==>
            && d.Upstream? && AllPermitted(allowed, PartsOf(q.parts))
            && Affords(InboundOf(q, maxBytes).left, Cost(q.parts, q.tail))
            && Affords(room, |Encode(PartsOf(q.parts))| + 1)
    ensures room.None? && d.Upstream? ==>
              end == Some(match Obstacle(allowed, InboundOf(q, maxBytes))
                          case None => CleanEof
                          case Some(e) => Failure(e))
    ensures end == Some(CleanEof) ==> Decode(out) == PartsOf(q.parts) && out == Encode(PartsOf(q.parts)) + [Final]
  {
    var mr;
    d, mr := Admit(allowed, maxBytes, q);
    if d.Answer? {
      return d, None, [];
    }
    var mw := new PartWriter(room);
    var pw := new PipeWriter();
    ghost var acts := Goroutine(allowed, mr, mw, pw, d.c);
    AdmittedPlan(allowed, maxBytes, q);
    AdmittedOutput(allowed, maxBytes, q, acts);
    ClosedCleanlyIff(UploadPlan(allowed, InboundOf(q, maxBytes)), acts);
    EncodeSaysParts(PartsOf(q.parts));
    return d, pw.end, mw.out;
  }

  lemma {:induction false} HasFirstFile(allowed: seq<string>, r: Reader, prefix: seq<Part>)
    requires Collect(allowed, r, prefix).Collected?
    ensures FindsFile(r.rest)
    decreases |r.rest|
  {
    var p := NextPart(r).part;
    if !IsFile(p) {
      HasFirstFile(allowed, ReadBody(NextPart(r).r, p).r, prefix + [p]);
    }
  }
}
