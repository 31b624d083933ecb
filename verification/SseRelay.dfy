/** The SSE relay: a scanner goroutine, the relay loop and the heartbeat ticker, meeting at an
    unbuffered channel of lines and a `done` channel.  `select` chooses freely among what is
    ready, so every statement is about all runs. */
module SseRelay {
  import opened Wrappers
  import opened Sequences
  import opened Machine
  import opened EventStream
  import Text

  /** The scanner goroutine.  Exited also means that it has closed `lines`. */
  datatype ScannerPc = Scanning | Offering(line: string) | Exited

  /** The relay loop.  Returned also means that it has closed `done`. */
  datatype RelayPc = Selecting | Writing(line: string) | Testing(line: string) | Returned

  /** `pending` is what `Scan` will still yield; `out` is what was written to the client. */
  datatype State = State(pending: seq<string>, scanner: ScannerPc, relay: RelayPc, out: seq<Write>)

  datatype Action =
    | Scan      // Scan yields a line
    | End       // Scan yields false; the goroutine closes `lines`
    | Deliver   // the rendezvous on `lines`
    | Quit      // the goroutine sees `done` closed and drops the line it holds
    | Emit      // the relay writes the line and flushes
    | Test      // the relay looks for the terminator
    | Close     // the relay sees `lines` closed
    | Beat      // the ticker fires and a heartbeat is written

  predicate IsDone(line: string) {
    Text.Trim(line) == "data: [DONE]"
  }

  function Init(lines: seq<string>): State {
    State(lines, Scanning, Selecting, [])
  }

  function Step(s: State, a: Action): Option<State> {
    match a
    case Scan =>
      if s.scanner.Scanning? && s.pending != []
      then Some(s.(scanner := Offering(s.pending[0]), pending := s.pending[1..])) else None
    case End =>
      if s.scanner.Scanning? && s.pending == [] then Some(s.(scanner := Exited)) else None
    case Deliver =>
      if s.scanner.Offering? && s.relay.Selecting?
      then Some(s.(scanner := Scanning, relay := Writing(s.scanner.line))) else None
    case Quit =>
      if s.scanner.Offering? && s.relay.Returned? then Some(s.(scanner := Exited)) else None
    case Emit =>
      if s.relay.Writing?
      then Some(s.(relay := Testing(s.relay.line), out := s.out + [Line(s.relay.line)])) else None
    case Test =>
      if s.relay.Testing?
      then Some(s.(relay := if IsDone(s.relay.line) then Returned else Selecting)) else None
    case Close =>
      if s.relay.Selecting? && s.scanner.Exited? then Some(s.(relay := Returned)) else None
    case Beat =>
      if s.relay.Selecting? then Some(s.(out := s.out + [Heartbeat])) else None
  }

  /** The state after a run from the start, if `acts` is a run. */
  function After(lines: seq<string>, acts: seq<Action>): Option<State> {
    Exec(Step, Init(lines), acts)
  }

  /** Index of the first terminator line, or the number of lines. */
  function FirstDone(lines: seq<string>): (n: nat)
    ensures n <= |lines|
    ensures n < |lines| ==> IsDone(lines[n])
    ensures forall i | 0 <= i < n :: !IsDone(lines[i])
  {
    if lines == [] || IsDone(lines[0]) then 0 else 1 + FirstDone(lines[1..])
  }

  function BeforeDone(lines: seq<string>): seq<string> {
    lines[..FirstDone(lines)]
  }

  /** Everything up to and including the first terminator. */
  function Relayed(lines: seq<string>): seq<string> {
    if FirstDone(lines) < |lines| then lines[..FirstDone(lines) + 1] else lines
  }

  // ---- Safety in every interleaving -----------------------------------------------------

  function Held(s: State): seq<string> {
    (if s.relay.Writing? then [s.relay.line] else [])
    + (if s.scanner.Offering? then [s.scanner.line] else [])
    + s.pending
  }

  predicate NoDone(lines: seq<string>) {
    forall i | 0 <= i < |lines| :: !IsDone(lines[i])
  }

  /** Nothing is lost or reordered on the way: until the relay returns, lines written, in flight
      and still to be scanned are the input; and nothing follows a terminator. */
  predicate Inv(lines: seq<string>, s: State) {
    var e := Erase(s.out);
    && (!s.relay.Returned? ==> e + Held(s) == lines)
    && (s.scanner.Exited? && !s.relay.Returned? ==> s.pending == [])
    && match s.relay
       case Selecting => NoDone(e)
       case Writing(_) => NoDone(e)
       case Testing(l) => e != [] && e[|e| - 1] == l && NoDone(e[..|e| - 1]) && s.out[|s.out| - 1] == Line(l)
       case Returned =>
         && e == Relayed(lines)
         && (FirstDone(lines) < |lines| ==> s.out[|s.out| - 1] == Line(lines[FirstDone(lines)]))
  }

  lemma FirstDoneUnique(lines: seq<string>, n: nat)
    requires n <= |lines| && forall i | 0 <= i < n :: !IsDone(lines[i])
    requires n < |lines| ==> IsDone(lines[n])
    ensures FirstDone(lines) == n
  {
  }

  lemma HeldAfterEmit(s: State)
    requires s.relay.Writing?
    ensures Held(s) == [s.relay.line] + Held(Step(s, Emit).value)
  {
  }

  lemma EmitKeepsInv(lines: seq<string>, s: State)
    requires Inv(lines, s) && s.relay.Writing?
    ensures Inv(lines, Step(s, Emit).value)
  {
    var t, e, l := Step(s, Emit).value, Erase(s.out), s.relay.line;
    WriteSnoc(s.out, Line(l));
    HeldAfterEmit(s);
    AppendAssociates(e, [l], Held(t));
    SnocLast(e, l);
    SnocLast(s.out, Line(l));
  }

  lemma TestKeepsInv(lines: seq<string>, s: State)
    requires Inv(lines, s) && s.relay.Testing?
    ensures Inv(lines, Step(s, Test).value)
  {
    var t, e := Step(s, Test).value, Erase(s.out);
    assert Held(t) == Held(s);
    assert forall i | 0 <= i < |e| - 1 :: e[..|e| - 1][i] == e[i] == lines[i];
    if IsDone(s.relay.line) {
      FirstDoneUnique(lines, |e| - 1);
      assert lines[..|e|] == e;
    }
  }

  lemma InvKept(lines: seq<string>, s: State, a: Action)
    requires Inv(lines, s) && Step(s, a).Some?
    ensures Inv(lines, Step(s, a).value)
  {
    var t := Step(s, a).value;
    match a
    case Emit => EmitKeepsInv(lines, s);
    case Test => TestKeepsInv(lines, s);
    case Beat => WriteSnoc(s.out, Heartbeat);
    case Close =>
      assert Held(s) == [] && Erase(s.out) + [] == Erase(s.out);
      FirstDoneUnique(lines, |lines|);
    case Quit =>
    case _ => HeldStays(s, a);
  }

  /** The steps before Emit only pass lines on. */
  lemma HeldStays(s: State, a: Action)
    requires Step(s, a).Some? && (a.Scan? || a.End? || a.Deliver?)
    ensures Held(Step(s, a).value) == Held(s)
  {
  }

  lemma RunKeepsInv(lines: seq<string>, acts: seq<Action>)
    requires After(lines, acts).Some?
    ensures Inv(lines, After(lines, acts).value)
  {
    forall s, a | Inv(lines, s) && Step(s, a).Some? ensures Inv(lines, Step(s, a).value) {
      InvKept(lines, s, a);
    }
    assert Held(Init(lines)) == lines;
    InvariantHolds(Step, s => Inv(lines, s), Init(lines), acts);
  }

  /** In every interleaving the client has a prefix of the lines up to the terminator, and when
      the relay has returned it has all of them. */
  lemma RelaySafety(lines: seq<string>, acts: seq<Action>)
    requires After(lines, acts).Some?
    ensures var s := After(lines, acts).value;
            && Erase(s.out) <= Relayed(lines)
            && (s.relay.Returned? ==> Erase(s.out) == Relayed(lines))
  {
    RunKeepsInv(lines, acts);
    var s := After(lines, acts).value;
    var e := Erase(s.out);
    if !s.relay.Returned? {
      assert e == lines[..|e|];
      if s.relay.Testing? {
        assert forall i | 0 <= i < |e| - 1 :: e[..|e| - 1][i] == lines[i];
      }
      assert |e| <= |Relayed(lines)|;
    }
  }

  /** A line that is the terminator as the source has it: `data: [DONE]` between white space. */
  ghost predicate SaysDone(line: string) {
    exists a, b :: Pads(line, a, "data: [DONE]", b)
  }

  predicate Pads(line: string, a: string, m: string, b: string) {
    line == a + m + b && Text.AllSpace(a) && Text.AllSpace(b)
  }

  lemma DoneSays(line: string)
    ensures IsDone(line) <==> SaysDone(line)
  {
    var a, b := Text.TrimParts(line);
    if IsDone(line) {
      assert Pads(line, a, "data: [DONE]", b);
    }
    if SaysDone(line) {
      var a', b' :| Pads(line, a', "data: [DONE]", b');
      Text.TrimUnique(a', "data: [DONE]", b');
    }
  }

  /** The relay stops at the terminator, told by the text alone: in every run in which the relay has
      returned, the client has the lines up to and including the first that is `data: [DONE]` between
      white space, and all of them when there is none. */
  lemma StopsAtTerminator(lines: seq<string>, acts: seq<Action>, n: nat)
    requires After(lines, acts).Some? && After(lines, acts).value.relay.Returned?
    requires n <= |lines| && (n < |lines| ==> SaysDone(lines[n]))
    requires forall i | 0 <= i < n :: !SaysDone(lines[i])
    ensures Erase(After(lines, acts).value.out) == if n < |lines| then lines[..n + 1] else lines
  {
    forall i | 0 <= i < |lines| ensures IsDone(lines[i]) <==> SaysDone(lines[i]) {
      DoneSays(lines[i]);
    }
    FirstDoneUnique(lines, n);
    RelaySafety(lines, acts);
  }

  /** The ordinary terminator stops the relay whatever follows it. */
  lemma PlainTerminatorStops(before: seq<string>, more: seq<string>, acts: seq<Action>)
    requires forall i | 0 <= i < |before| :: !SaysDone(before[i])
    requires After(before + ["data: [DONE]"] + more, acts).Some?
    requires After(before + ["data: [DONE]"] + more, acts).value.relay.Returned?
    ensures Erase(After(before + ["data: [DONE]"] + more, acts).value.out) == before + ["data: [DONE]"]
  {
    var lines, n := before + ["data: [DONE]"] + more, |before|;
    assert lines[n] == "data: [DONE]" == "" + "data: [DONE]" + "";
    assert Pads(lines[n], "", "data: [DONE]", "");
    StopsAtTerminator(lines, acts, n);
    assert lines[..n + 1] == before + ["data: [DONE]"];
  }

  // ---- Progress -------------------------------------------------------------------------

  /** Work left: five steps a line and one more for each actor to leave. */
  function Rank(s: State): nat {
    5 * |s.pending|
    + (match s.scanner case Scanning => 1 case Offering(_) => 5 case Exited => 0)
    + (match s.relay case Selecting => 1 case Writing(_) => 3 case Testing(_) => 2 case Returned => 0)
  }

  predicate Over(s: State) {
    s.scanner.Exited? && s.relay.Returned?
  }

  /** A step that needs no ticker; both actors have left only when there is none. */
  function Move(s: State): (a: Action)
    requires !Over(s)
    ensures !a.Beat? && Step(s, a).Some?
    ensures s.relay.Returned? ==> a in {Scan, End, Quit}
  {
    match s.relay
    case Writing(_) => Emit
    case Testing(_) => Test
    case Selecting =>
      (match s.scanner
       case Scanning => if s.pending == [] then End else Scan
       case Offering(_) => Deliver
       case Exited => Close)
    case Returned =>
      if s.scanner.Offering? then Quit else if s.pending == [] then End else Scan
  }

  function Work(acts: seq<Action>): nat {
    if acts == [] then 0
    else Work(acts[..|acts| - 1]) + if acts[|acts| - 1].Beat? then 0 else 1
  }

  lemma StepsDown(s: State, a: Action)
    requires Step(s, a).Some?
    ensures Rank(Step(s, a).value) + (if a.Beat? then 0 else 1) <= Rank(s)
  {
  }

  /** No run does more than 5n+2 steps besides heartbeats, and a run short of its end can always
      be extended by such a step: nobody is ever stuck, the goroutine that still holds a line when
      the relay returns included. */
  lemma {:induction false} NeverStuck(lines: seq<string>, acts: seq<Action>)
    requires After(lines, acts).Some?
    ensures var s := After(lines, acts).value;
            && Work(acts) + Rank(s) <= 5 * |lines| + 2
            && (!Over(s) ==> Step(s, Move(s)).Some? && Rank(Step(s, Move(s)).value) < Rank(s))
  {
    if acts != [] {
      var init, a := acts[..|acts| - 1], acts[|acts| - 1];
      NeverStuck(lines, init);
      StepsDown(After(lines, init).value, a);
    }
    var s := After(lines, acts).value;
    if !Over(s) {
      StepsDown(s, Move(s));
    }
  }

  // ---- Every placement of heartbeats is some run ------------------------------------------

  function Schedule(w: seq<Write>): seq<Action> {
    if w == [] then []
    else match w[|w| - 1]
      case Line(_) => Schedule(w[..|w| - 1]) + [Scan] + [Deliver] + [Emit] + [Test]
      case Heartbeat => Schedule(w[..|w| - 1]) + [Beat]
  }

  /** One line passes through all four steps. */
  lemma PassLine(lines: seq<string>, acts: seq<Action>, rest: seq<string>, out: seq<Write>)
    requires rest != []
    requires After(lines, acts) == Some(State(rest, Scanning, Selecting, out))
    ensures After(lines, acts + [Scan] + [Deliver] + [Emit] + [Test])
         == Some(State(rest[1..], Scanning, if IsDone(rest[0]) then Returned else Selecting, out + [Line(rest[0])]))
  {
    var line, more := rest[0], rest[1..];
    ExecSnoc(Step, Init(lines), acts, Scan);
    assert After(lines, acts + [Scan]) == Some(State(more, Offering(line), Selecting, out));
    ExecSnoc(Step, Init(lines), acts + [Scan], Deliver);
    assert After(lines, acts + [Scan] + [Deliver]) == Some(State(more, Scanning, Writing(line), out));
    ExecSnoc(Step, Init(lines), acts + [Scan] + [Deliver], Emit);
    ExecSnoc(Step, Init(lines), acts + [Scan] + [Deliver] + [Emit], Test);
  }

  /** One write more of a placement that fits the lines. */
  lemma FitsSoFar(lines: seq<string>, v: seq<Write>, x: Write)
    requires Erase(v + [x]) <= lines
    ensures Erase(v) <= lines
    ensures x.Heartbeat? ==> Erase(v + [x]) == Erase(v)
    ensures var n := |Erase(v)|;
            x.Line? ==> |Erase(v + [x])| == n + 1 <= |lines| && lines[n] == x.text && lines[n..][1..] == lines[n + 1..]
  {
    WriteSnoc(v, x);
    if x.Line? {
      assert (Erase(v) + [x.text])[|Erase(v)|] == x.text;
    }
  }

  lemma ScheduleSnoc(v: seq<Write>, x: Write)
    ensures Schedule(v + [x]) == if x.Line? then Schedule(v) + [Scan] + [Deliver] + [Emit] + [Test]
                                 else Schedule(v) + [Beat]
  {
    assert (v + [x])[..|v|] == v;
  }

  lemma {:induction false} ScheduleRuns(lines: seq<string>, w: seq<Write>)
    requires Erase(w) <= lines && NoDone(Erase(w))
    ensures After(lines, Schedule(w)) == Some(State(lines[|Erase(w)|..], Scanning, Selecting, w))
  {
    if w == [] {
      assert lines[0..] == lines;
    } else {
      var v, x := w[..|w| - 1], w[|w| - 1];
      assert w == v + [x];
      FitsSoFar(lines, v, x);
      NoDonePrefix(lines, Erase(v), Erase(w));
      ScheduleRuns(lines, v);
      ScheduleOne(lines, v, x);
    }
  }

  /** The schedule of one write more. */
  lemma ScheduleOne(lines: seq<string>, v: seq<Write>, x: Write)
    requires var n := |Erase(v)|;
             && n <= |lines| && After(lines, Schedule(v)) == Some(State(lines[n..], Scanning, Selecting, v))
             && (x.Line? ==> n < |lines| && lines[n] == x.text && !IsDone(lines[n]))
    ensures var n := |Erase(v)|;
            After(lines, Schedule(v + [x]))
              == Some(State(if x.Line? then lines[n + 1..] else lines[n..], Scanning, Selecting, v + [x]))
  {
    var n := |Erase(v)|;
    ScheduleSnoc(v, x);
    if x.Line? {
      DropOne(lines, n);
      PassLine(lines, Schedule(v), lines[n..], v);
    } else {
      ExecSnoc(Step, Init(lines), Schedule(v), Beat);
    }
  }

  lemma NoDonePrefix(lines: seq<string>, a: seq<string>, b: seq<string>)
    requires a <= lines && b <= lines && |a| <= |b| && NoDone(b)
    ensures NoDone(a)
    ensures |a| < |b| ==> !IsDone(lines[|a|])
  {
    assert forall i | 0 <= i < |a| :: a[i] == lines[i] == b[i];
    assert |a| < |b| ==> b[|a|] == lines[|a|];
  }

  ghost predicate Completes(lines: seq<string>, acts: seq<Action>) {
    After(lines, acts).Some? && After(lines, acts).value.relay.Returned?
  }

  function Output(lines: seq<string>, acts: seq<Action>): seq<Write>
    requires After(lines, acts).Some?
  {
    After(lines, acts).value.out
  }

  /** The terminator line that ends the output, if the backend sent one. */
  function Terminator(lines: seq<string>): Option<string> {
    if FirstDone(lines) < |lines| then Some(lines[FirstDone(lines)]) else None
  }

  function Tail(lines: seq<string>): seq<Write> {
    match Terminator(lines) case None => [] case Some(line) => [Line(line)]
  }

  lemma LeaveAtEnd(lines: seq<string>, acts: seq<Action>, w: seq<Write>)
    requires After(lines, acts) == Some(State([], Scanning, Selecting, w))
    ensures After(lines, acts + [End] + [Close]) == Some(State([], Exited, Returned, w))
  {
    ExecSnoc(Step, Init(lines), acts, End);
    ExecSnoc(Step, Init(lines), acts + [End], Close);
  }

  /** The outputs of complete runs are exactly the placements of heartbeats among the lines
      before the terminator, followed by the terminator: any placement can happen... */
  lemma EveryPlacementRuns(lines: seq<string>, w: seq<Write>) returns (acts: seq<Action>)
    requires Erase(w) == BeforeDone(lines)
    ensures Completes(lines, acts) && Output(lines, acts) == w + Tail(lines)
  {
    var n, s := FirstDone(lines), Schedule(w);
    ScheduleRuns(lines, w);
    if n < |lines| {
      PassLine(lines, s, lines[n..], w);
      acts := s + [Scan] + [Deliver] + [Emit] + [Test];
    } else {
      LeaveAtEnd(lines, s, w);
      acts := s + [End] + [Close];
      assert w + Tail(lines) == w;
    }
  }

  /** ... and nothing else can. */
  lemma EveryRunIsAPlacement(lines: seq<string>, acts: seq<Action>) returns (w: seq<Write>)
    requires Completes(lines, acts)
    ensures Erase(w) == BeforeDone(lines) && Output(lines, acts) == w + Tail(lines)
  {
    RunKeepsInv(lines, acts);
    var out, n := Output(lines, acts), FirstDone(lines);
    if n < |lines| {
      w := out[..|out| - 1];
      assert out == w + Tail(lines);
      assert Erase(out) == Erase(w) + [lines[n]];
      assert Erase(w) == Erase(out)[..n] == lines[..n];
    } else {
      w := out;
      assert w + Tail(lines) == w;
    }
  }

  // ---- What the client sees --------------------------------------------------------------

  /** The bytes written: `line` LF for a line, `: heartbeat` LF LF for a heartbeat. */
  function Bytes(w: seq<Write>): string {
    if w == [] then "" else Bytes(w[..|w| - 1]) + Chunk(w[|w| - 1])
  }

  /** One write: a line, or a heartbeat. */
  function Chunk(x: Write): string {
    match x
    case Line(text) => text + "\n"
    case Heartbeat => ": heartbeat\n\n"
  }

  function ChunkLines(x: Write): seq<string> {
    match x
    case Line(text) => Sub(text)
    case Heartbeat => [HEARTBEAT_COMMENT, ""]
  }

  lemma ChunkSplits(x: Write)
    ensures SplitLines("", Chunk(x)) == ChunkLines(x)
  {
    if x.Heartbeat? {
      assert [HEARTBEAT_COMMENT, ""][1..] == [""];
      assert Terminated([""]) == "\n";
      assert Terminated([HEARTBEAT_COMMENT, ""]) == ": heartbeat\n\n";
      SplitTerminated([HEARTBEAT_COMMENT, ""]);
    }
  }

  /** Every write ends a line, so the lines of the output are those of its writes. */
  lemma {:induction false} BytesAreLines(w: seq<Write>)
    ensures SplitLines("", Bytes(w)) == LinesOf(w)
    ensures Bytes(w) != "" ==> Bytes(w)[|Bytes(w)| - 1] == '\n'
    ensures w != [] ==> Bytes(w) != ""
  {
    if w != [] {
      var v, x := w[..|w| - 1], w[|w| - 1];
      BytesAreLines(v);
      ChunkSplits(x);
      assert Bytes(w) == Bytes(v) + Chunk(x);
      if v == [] {
        assert Bytes(v) == "" && "" + Chunk(x) == Chunk(x) && [] + ChunkLines(x) == ChunkLines(x);
      } else {
        SplitConcat("", Bytes(v), Chunk(x));
      }
    }
  }

  /** What is written for a line and for a heartbeat, to the byte. */
  lemma BytesWritten(w: seq<Write>, line: string)
    ensures Bytes(w + [Line(line)]) == Bytes(w) + (line + "\n")
    ensures Bytes(w + [Heartbeat]) == Bytes(w) + ": heartbeat\n\n"
  {
    assert (w + [Line(line)])[..|w|] == w && (w + [Heartbeat])[..|w|] == w;
  }

  lemma TerminatedSnoc(lines: seq<string>, line: string)
    ensures Terminated(lines + [line]) == Terminated(lines) + (line + "\n")
  {
    TerminatedConcat(lines, [line]);
    assert [line][1..] == [] && line + "\n" + "" == line + "\n";
  }

  lemma {:induction false} BareBytes(lines: seq<string>)
    ensures Bytes(Bare(lines)) == Terminated(lines)
  {
    if lines != [] {
      var init, last := lines[..|lines| - 1], lines[|lines| - 1];
      BareBytes(init);
      BytesWritten(Bare(init), last);
      TerminatedSnoc(init, last);
      InitThenLast(lines);
    }
  }

  lemma {:induction false} NoBeatNoHeartbeat(lines: seq<string>, acts: seq<Action>)
    requires After(lines, acts).Some? && forall i | 0 <= i < |acts| :: !acts[i].Beat?
    ensures Output(lines, acts) == Bare(Erase(Output(lines, acts)))
  {
    if acts != [] {
      var init, a := acts[..|acts| - 1], acts[|acts| - 1];
      NoBeatNoHeartbeat(lines, init);
      var s := After(lines, init).value;
      assert !a.Beat? && Step(s, a).Some?;
      OutGrows(s, a);
      if a.Emit? {
        BareOnce(s.out, s.relay.line);
      }
    }
  }

  lemma OutGrows(s: State, a: Action)
    requires Step(s, a).Some? && !a.Beat?
    ensures Step(s, a).value.out == if a.Emit? then s.out + [Line(s.relay.line)] else s.out
  {
  }

  lemma BareOnce(w: seq<Write>, line: string)
    requires w == Bare(Erase(w))
    ensures w + [Line(line)] == Bare(Erase(w + [Line(line)]))
  {
    WriteSnoc(w, Line(line));
    SnocLast(Erase(w), line);
  }

  /** A complete run in which no heartbeat fell has written the relayed lines, each ended by LF, and
      not a byte more. */
  lemma BytesWithoutBeats(lines: seq<string>, acts: seq<Action>)
    requires Completes(lines, acts) && forall i | 0 <= i < |acts| :: !acts[i].Beat?
    ensures Bytes(Output(lines, acts)) == Terminated(Relayed(lines))
  {
    NoBeatNoHeartbeat(lines, acts);
    RelaySafety(lines, acts);
    BareBytes(Relayed(lines));
  }

  // ---- The byte order mark ------------------------------------------------------------------

  /** The client drops a byte order mark at the start of the stream: the mark of the first line, if
      no heartbeat comes before it. */
  function Unmark(w: seq<Write>): seq<Write> {
    if w != [] && w[0].Line? && Marked(w[0].text) then [Line(w[0].text[1..])] + w[1..] else w
  }

  function Unmarked(lines: seq<string>): seq<string> {
    if lines != [] && Marked(lines[0]) then [lines[0][1..]] + lines[1..] else lines
  }

  lemma {:induction false} BytesConcat(a: seq<Write>, b: seq<Write>)
    ensures Bytes(a + b) == Bytes(a) + Bytes(b)
  {
    if b == [] {
      assert a + b == a && Bytes(a) + "" == Bytes(a);
    } else {
      var n := |b| - 1;
      assert (a + b)[..|a + b| - 1] == a + b[..n];
      BytesConcat(a, b[..n]);
      AppendAssociates(Bytes(a), Bytes(b[..n]), Chunk(b[n]));
    }
  }

  lemma OneChunk(x: Write)
    ensures Bytes([x]) == Chunk(x)
  {
    assert [x][..0] == [] && "" + Chunk(x) == Chunk(x);
  }

  lemma FirstChunk(w: seq<Write>)
    requires w != []
    ensures Bytes(w) == Chunk(w[0]) + Bytes(w[1..])
  {
    assert w == [w[0]] + w[1..];
    BytesConcat([w[0]], w[1..]);
    OneChunk(w[0]);
  }

  lemma MarkedChunk(text: string, rest: string)
    requires Marked(text)
    ensures Marked(Chunk(Line(text)) + rest)
    ensures (Chunk(Line(text)) + rest)[1..] == Chunk(Line(text[1..])) + rest
  {
    assert text + "\n" + rest == [text[0]] + (text[1..] + "\n" + rest);
  }

  lemma UnmarkedChunk(x: Write, rest: string)
    requires x.Line? ==> !Marked(x.text)
    ensures !Marked(Chunk(x) + rest)
  {
    assert (Chunk(x) + rest)[0] == Chunk(x)[0];
  }

  lemma UnmarkedBytes(w: seq<Write>)
    ensures Bytes(Unmark(w)) == if Marked(Bytes(w)) then Bytes(w)[1..] else Bytes(w)
  {
    if w != [] {
      FirstChunk(w);
      if w[0].Line? && Marked(w[0].text) {
        var first := Line(w[0].text[1..]);
        MarkedChunk(w[0].text, Bytes(w[1..]));
        BytesConcat([first], w[1..]);
        OneChunk(first);
      } else {
        UnmarkedChunk(w[0], Bytes(w[1..]));
      }
    }
  }

  /** The bytes mean to the client what the writes mean write by write. */
  lemma ClientParsesWrites(w: seq<Write>)
    ensures Client(Bytes(w)) == Feed(Unmark(w))
  {
    UnmarkedBytes(w);
    BytesAreLines(Unmark(w));
    FeedIsParse(Unmark(w));
  }

  lemma {:induction false} EraseConcat(a: seq<Write>, b: seq<Write>)
    ensures Erase(a + b) == Erase(a) + Erase(b)
  {
    if b == [] {
      assert a + b == a && Erase(a) + [] == Erase(a);
    } else {
      var n := |b| - 1;
      assert (a + b)[..|a + b| - 1] == a + b[..n];
      EraseConcat(a, b[..n]);
      if b[n].Line? {
        AppendAssociates(Erase(a), Erase(b[..n]), [b[n].text]);
      }
    }
  }

  lemma EraseOne(x: Write, w: seq<Write>)
    ensures Erase([x] + w) == if x.Line? then [x.text] + Erase(w) else Erase(w)
  {
    EraseConcat([x], w);
    assert [x] == [] + [x];
    WriteSnoc([], x);
    assert [] + Erase(w) == Erase(w) && (x.Line? ==> [] + [x.text] == [x.text]);
  }

  /** Before the first line, heartbeats have nothing to dispatch. */
  lemma {:induction false} LeadingBeat(w: seq<Write>)
    ensures Feed([Heartbeat] + w) == Feed(w)
  {
    if w == [] {
      assert [Heartbeat] + w == [] + [Heartbeat];
      WriteSnoc([], Heartbeat);
    } else {
      var n := |w| - 1;
      LeadingBeat(w[..n]);
      assert ([Heartbeat] + w)[..n + 1] == [Heartbeat] + w[..n];
      assert [Heartbeat] + w == ([Heartbeat] + w[..n]) + [w[n]] && w == w[..n] + [w[n]];
      WriteSnoc([Heartbeat] + w[..n], w[n]);
      WriteSnoc(w[..n], w[n]);
    }
  }

  /** A placement can do without its leading heartbeats. */
  lemma {:induction false} WithoutLeading(w: seq<Write>) returns (v: seq<Write>)
    ensures Erase(v) == Erase(w) && Feed(v) == Feed(w) && (v != [] ==> v[0].Line?)
  {
    if w == [] || w[0].Line? {
      v := w;
    } else {
      assert w == [Heartbeat] + w[1..];
      LeadingBeat(w[1..]);
      EraseOne(Heartbeat, w[1..]);
      v := WithoutLeading(w[1..]);
    }
  }

  // ---- The terminator -------------------------------------------------------------------------

  lemma BlankIsNotDone()
    ensures !IsDone("")
  {
  }

  lemma DoneIsNotMarked(line: string)
    requires IsDone(line)
    ensures !Marked(line)
  {
    var a, b := Text.TrimParts(line);
    assert line[0] == if a == "" then 'd' else a[0];
  }

  /** A line dispatches nothing, whatever is pending, exactly if the client finds no blank line in it. */
  lemma SilentExactly(line: string)
    ensures (forall p: Parser :: Take(p, line).events == p.events) <==> NoBlank(Sub(line))
  {
    if NoBlank(Sub(line)) {
      forall p: Parser ensures Take(p, line).events == p.events {
        BlockEffect(p, Sub(line));
      }
    } else {
      var p := FRESH.(data := "x");
      var g := Opening(Sub(line));
      var more := OpeningSplits(Sub(line));
      BlockEffect(p, g);
      DispatchedWithin(p, line);
      assert Dispatch(AcceptAll(p, g)).events != [];
    }
  }

  /** The terminator, if there is one, dispatches nothing: it has no line end inside that would make
      the client find a blank line in it. */
  predicate Quiet(lines: seq<string>) {
    FirstDone(lines) < |lines| ==> NoBlank(Sub(lines[FirstDone(lines)]))
  }

  /** The relay returns before the blank line after the terminator, so that this line by itself
      neither dispatches an event nor commits an ID. */
  lemma TailIsSilent(lines: seq<string>, w: seq<Write>)
    requires Quiet(lines)
    ensures Feed(w + Tail(lines)).events == Feed(w).events && Feed(w + Tail(lines)).lastId == Feed(w).lastId
  {
    TailTaken(lines, w);
    QuietEnd(lines, Feed(w));
  }

  lemma UnmarkTail(lines: seq<string>, w: seq<Write>)
    ensures Unmark(w + Tail(lines)) == Unmark(w) + Tail(lines)
  {
    if FirstDone(lines) < |lines| {
      DoneIsNotMarked(lines[FirstDone(lines)]);
    }
    if w == [] {
      assert w + Tail(lines) == Tail(lines);
    } else {
      assert (w + Tail(lines))[1..] == w[1..] + Tail(lines);
      AppendAssociates([Line(if w[0].Line? then w[0].text else "")], w[1..], Tail(lines));
      if w[0].Line? && Marked(w[0].text) {
        AppendAssociates([Line(w[0].text[1..])], w[1..], Tail(lines));
      }
    }
  }

  lemma TailTaken(lines: seq<string>, w: seq<Write>)
    ensures Feed(w + Tail(lines)) == Ended(Feed(w), Terminator(lines))
  {
    match Terminator(lines)
    case None => assert w + Tail(lines) == w;
    case Some(line) => WriteSnoc(w, Line(line));
  }

  /** What the client makes of a complete run with placement `w`. */
  lemma OutputSeen(lines: seq<string>, acts: seq<Action>, w: seq<Write>)
    requires Completes(lines, acts) && Output(lines, acts) == w + Tail(lines)
    ensures Seen(lines, acts) == Ended(Feed(Unmark(w)), Terminator(lines))
  {
    ClientParsesWrites(w + Tail(lines));
    UnmarkTail(lines, w);
    TailTaken(lines, Unmark(w));
  }

  /** A quiet terminator adds nothing to what the client has seen. */
  lemma QuietEnd(lines: seq<string>, p: Parser)
    requires Quiet(lines)
    ensures Ended(p, Terminator(lines)).events == p.events && Ended(p, Terminator(lines)).lastId == p.lastId
  {
    match Terminator(lines)
    case None =>
    case Some(line) => BlockEffect(p, Sub(line));
  }

  /** The client at the end of a complete run. */
  function Seen(lines: seq<string>, acts: seq<Action>): Parser
    requires After(lines, acts).Some?
  {
    Client(Bytes(Output(lines, acts)))
  }

  /** A placement that can be seen: `v` is one of the lines before the terminator as they are, or of
      those lines without their mark, with a line first. */
  lemma Staged(lines: seq<string>, v: seq<Write>) returns (acts: seq<Action>)
    requires Erase(v) == BeforeDone(lines) || (Erase(v) == Unmarked(BeforeDone(lines)) && (v != [] ==> v[0].Line?))
    ensures Completes(lines, acts) && Seen(lines, acts) == Ended(Feed(v), Terminator(lines))
  {
    var before := BeforeDone(lines);
    if Erase(v) == before {
      var w := [Heartbeat] + v;
      EraseOne(Heartbeat, v);
      LeadingBeat(v);
      acts := EveryPlacementRuns(lines, w);
      OutputSeen(lines, acts, w);
    } else {
      var w := Remark(before, v);
      acts := EveryPlacementRuns(lines, w);
      OutputSeen(lines, acts, w);
    }
  }

  /** Putting the mark back. */
  lemma Remark(lines: seq<string>, v: seq<Write>) returns (w: seq<Write>)
    requires Erase(v) == Unmarked(lines) && Unmarked(lines) != lines && (v != [] ==> v[0].Line?)
    ensures Erase(w) == lines && Unmark(w) == v
  {
    assert v == [v[0]] + v[1..];
    EraseOne(v[0], v[1..]);
    assert v[0].text == ([v[0].text] + Erase(v[1..]))[0] == lines[0][1..];
    assert Erase(v[1..]) == ([v[0].text] + Erase(v[1..]))[1..] == lines[1..];
    w := [Line(lines[0])] + v[1..];
    EraseOne(Line(lines[0]), v[1..]);
    assert lines == [lines[0]] + lines[1..];
  }

  /** And nothing else is ever seen. */
  lemma SeenIsStaged(lines: seq<string>, acts: seq<Action>) returns (v: seq<Write>)
    requires Completes(lines, acts)
    ensures Erase(v) == BeforeDone(lines) || Erase(v) == Unmarked(BeforeDone(lines))
    ensures Seen(lines, acts) == Ended(Feed(v), Terminator(lines))
  {
    var w := EveryRunIsAPlacement(lines, acts);
    OutputSeen(lines, acts, w);
    UnmarkErases(w);
    v := Unmark(w);
  }

  lemma UnmarkErases(w: seq<Write>)
    ensures Erase(Unmark(w)) == Erase(w) || Erase(Unmark(w)) == Unmarked(Erase(w))
  {
    if w != [] && w[0].Line? && Marked(w[0].text) {
      var rest := w[1..];
      assert w == [w[0]] + rest;
      EraseOne(w[0], rest);
      EraseOne(Line(w[0].text[1..]), rest);
      assert ([w[0].text] + Erase(rest))[1..] == Erase(rest);
    }
  }

  // ---- Exactly which streams pass unchanged -----------------------------------------------------

  /** The events of the relayed lines, without heartbeats and with a byte order mark dropped. */
  function BareEvents(lines: seq<string>): seq<Event> {
    Ended(Run(Unmarked(BeforeDone(lines))), Terminator(lines)).events
  }

  /** The main result, for every stream.  Whatever the interleaving, the client gets exactly the events
      of the relayed lines, if and only if these lines are robust; and if they start with a byte order
      mark, which a heartbeat before it would keep in the first line, they must be so with the mark
      and without, with the same events. */
  lemma RelayTransparencyExact(lines: seq<string>)
    ensures var before, bare, end := BeforeDone(lines), Unmarked(BeforeDone(lines)), Terminator(lines);
            ((forall acts :: Completes(lines, acts) ==> Seen(lines, acts).events == BareEvents(lines))
             <==> RobustTo(bare, end) && RobustTo(before, end) && Ended(Run(before), end).events == BareEvents(lines))
  {
    var before, bare, end := BeforeDone(lines), Unmarked(BeforeDone(lines)), Terminator(lines);
    TransparentToIffRobustTo(before, end);
    TransparentToIffRobustTo(bare, end);
    if RobustTo(bare, end) && RobustTo(before, end) && Ended(Run(before), end).events == BareEvents(lines) {
      forall acts | Completes(lines, acts) ensures Seen(lines, acts).events == BareEvents(lines) {
        var v := SeenIsStaged(lines, acts);
      }
    }
    if forall acts :: Completes(lines, acts) ==> Seen(lines, acts).events == BareEvents(lines) {
      AllStaged(lines);
    }
  }

  /** If every run shows the same, then so does every placement, with the mark and without. */
  lemma AllStaged(lines: seq<string>)
    requires forall acts :: Completes(lines, acts) ==> Seen(lines, acts).events == BareEvents(lines)
    ensures var before, bare, end := BeforeDone(lines), Unmarked(BeforeDone(lines)), Terminator(lines);
            && TransparentTo(bare, end) && TransparentTo(before, end)
            && Ended(Run(before), end).events == BareEvents(lines)
  {
    var before, bare, end := BeforeDone(lines), Unmarked(BeforeDone(lines)), Terminator(lines);
    forall w | Erase(w) == bare ensures Ended(Feed(w), end).events == BareEvents(lines) {
      var v := WithoutLeading(w);
      var acts := Staged(lines, v);
    }
    forall w | Erase(w) == before ensures Ended(Feed(w), end).events == BareEvents(lines) {
      var acts := Staged(lines, w);
    }
    BareFeeds(before);
    assert Ended(Feed(Bare(before)), end).events == BareEvents(lines);
  }

  /** For a quiet terminator, the events of the relayed lines are those before the terminator, and
      robust means what it means without one. */
  lemma QuietTransparency(lines: seq<string>)
    requires Quiet(lines)
    ensures BareEvents(lines) == Run(Unmarked(BeforeDone(lines))).events
    ensures forall some :: RobustTo(some, Terminator(lines)) <==> Robust(some)
  {
    QuietEnd(lines, Run(Unmarked(BeforeDone(lines))));
  }

  /** Without a mark, and with at most one field line to a block and every block closed, the events
      survive. */
  lemma SingleFieldStreamsSurvive(lines: seq<string>, acts: seq<Action>)
    requires AllPlain(lines) && Unmarked(lines) == lines
    requires SingleFieldBlocks(BeforeDone(lines)) && Completes(lines, acts)
    ensures Seen(lines, acts).events == Run(BeforeDone(lines)).events
  {
    PlainIsQuiet(lines);
    PrefixUnmarked(lines);
    SingleFieldBlocksAreRobust(BeforeDone(lines));
    QuietTransparency(lines);
    RelayTransparencyExact(lines);
  }

  lemma PlainIsQuiet(lines: seq<string>)
    requires AllPlain(lines)
    ensures Quiet(lines)
  {
    if FirstDone(lines) < |lines| {
      BlankIsNotDone();
      PlainSub(lines[FirstDone(lines)]);
    }
  }

  lemma UnmarkedMeans(lines: seq<string>)
    ensures Unmarked(lines) == lines <==> lines == [] || !Marked(lines[0])
  {
    if lines != [] && Marked(lines[0]) {
      assert |Unmarked(lines)[0]| < |lines[0]|;
    }
  }

  lemma PrefixUnmarked(lines: seq<string>)
    requires Unmarked(lines) == lines
    ensures Unmarked(BeforeDone(lines)) == BeforeDone(lines)
  {
    UnmarkedMeans(lines);
    UnmarkedMeans(BeforeDone(lines));
  }

  /** Blocks of any shape, as long as the last one is closed: heartbeats may split an event, but
      the payload the client gets is the sequence of `data` values before the terminator. */
  lemma PayloadSurvives(lines: seq<string>, acts: seq<Action>)
    requires Quiet(lines) && Unmarked(lines) == lines && Run(BeforeDone(lines)).data == "" && Completes(lines, acts)
    ensures Payload(lines, acts) == DataValues(Expand(BeforeDone(lines)))
  {
    PrefixUnmarked(lines);
    var v := SeenIsStaged(lines, acts);
    QuietEnd(lines, Feed(v));
    HeartbeatsOnlySplit(v);
  }

  /** The payload the client gets, line by line. */
  function Payload(lines: seq<string>, acts: seq<Action>): seq<string>
    requires After(lines, acts).Some?
  {
    SplitLines("", Delivered(Seen(lines, acts).events))
  }

  /** The payload is right in every interleaving exactly if the lines before the terminator leave
      nothing pending and have the same payload with their byte order mark, if any, as without. */
  lemma PayloadExact(lines: seq<string>)
    requires Quiet(lines)
    ensures var before, bare := BeforeDone(lines), Unmarked(BeforeDone(lines));
            ((forall acts :: Completes(lines, acts) ==> Payload(lines, acts) == DataValues(Expand(bare)))
             <==> && Run(bare).data == "" && Run(before).data == ""
                  && DataValues(Expand(before)) == DataValues(Expand(bare)))
  {
    var before, bare := BeforeDone(lines), Unmarked(BeforeDone(lines));
    var values := DataValues(Expand(bare));
    if Run(bare).data == "" && Run(before).data == "" && DataValues(Expand(before)) == values {
      forall acts | Completes(lines, acts) ensures Payload(lines, acts) == values {
        var v := SeenIsStaged(lines, acts);
        QuietEnd(lines, Feed(v));
        HeartbeatsOnlySplit(v);
      }
    }
    if forall acts :: Completes(lines, acts) ==> Payload(lines, acts) == values {
      BareFeeds(bare);
      BareFeeds(before);
      BareStartsWithLine(bare);
      var acts := Staged(lines, Bare(bare));
      var acts' := Staged(lines, Bare(before));
      QuietEnd(lines, Run(bare));
      QuietEnd(lines, Run(before));
      WholePayload(bare);
      MarkHidesData(before);
      WholePayload(before);
    }
  }

  lemma BareStartsWithLine(lines: seq<string>)
    ensures Bare(lines) != [] ==> Bare(lines)[0].Line?
  {
    if |lines| > 1 {
      BareStartsWithLine(lines[..|lines| - 1]);
    }
  }

  /** Bare lines deliver all their values, or fewer when something is left pending. */
  lemma WholePayload(lines: seq<string>)
    ensures var got, values := SplitLines("", Delivered(Run(lines).events)), DataValues(Expand(lines));
            if Run(lines).data == "" then got == values else |got| < |values|
  {
    if Run(lines).data == "" {
      BareFeeds(lines);
      HeartbeatsOnlySplit(Bare(lines));
    } else {
      PendingIsMissing(lines);
    }
  }

  /** The same for the ID that a client would send when it reconnects after the stream: it is the same
      in every interleaving exactly if each line since the last blank one repeats the committed ID. */
  lemma LastIdExact(lines: seq<string>)
    requires Quiet(lines)
    ensures var before, bare := BeforeDone(lines), Unmarked(BeforeDone(lines));
            ((forall acts :: Completes(lines, acts) ==> Seen(lines, acts).lastId == Run(bare).lastId)
             <==> IdSettled(bare) && IdSettled(before) && Run(before).lastId == Run(bare).lastId)
  {
    var before, bare := BeforeDone(lines), Unmarked(BeforeDone(lines));
    IdTransparentIffSettled(before);
    IdTransparentIffSettled(bare);
    if IdSettled(bare) && IdSettled(before) && Run(before).lastId == Run(bare).lastId {
      forall acts | Completes(lines, acts) ensures Seen(lines, acts).lastId == Run(bare).lastId {
        var v := SeenIsStaged(lines, acts);
        QuietEnd(lines, Feed(v));
      }
    }
    if forall acts :: Completes(lines, acts) ==> Seen(lines, acts).lastId == Run(bare).lastId {
      AllIdsStaged(lines);
    }
  }

  lemma AllIdsStaged(lines: seq<string>)
    requires Quiet(lines)
    requires var bare := Unmarked(BeforeDone(lines));
             forall acts :: Completes(lines, acts) ==> Seen(lines, acts).lastId == Run(bare).lastId
    ensures var before, bare := BeforeDone(lines), Unmarked(BeforeDone(lines));
            IdTransparent(bare) && IdTransparent(before) && Run(before).lastId == Run(bare).lastId
  {
    var before, bare := BeforeDone(lines), Unmarked(BeforeDone(lines));
    forall w | Erase(w) == bare ensures Feed(w).lastId == Run(bare).lastId {
      var v := WithoutLeading(w);
      var acts := Staged(lines, v);
      QuietEnd(lines, Feed(v));
    }
    forall w | Erase(w) == before ensures Feed(w).lastId == Run(bare).lastId {
      var acts := Staged(lines, w);
      QuietEnd(lines, Feed(w));
    }
    BareFeeds(before);
    assert Feed(Bare(before)).lastId == Run(bare).lastId;
  }

  // A mark that is kept can hide a data line, but cannot make one.

  lemma {:induction false} SplitPrefix(pre: string, line: string, s: string)
    decreases |s|
    ensures var split := SplitLines(line, s);
            SplitLines(pre + line, s) == if split == [] then [] else [pre + split[0]] + split[1..]
  {
    if s != "" && s[0] != '\n' && s[0] != '\r' {
      assert (pre + line) + [s[0]] == pre + (line + [s[0]]);
      SplitPrefix(pre, line + [s[0]], s[1..]);
    }
  }

  lemma {:induction false} SplitNotEmpty(line: string, s: string)
    requires '\n' in s
    decreases |s|
    ensures SplitLines(line, s) != []
  {
    if s[0] != '\n' && s[0] != '\r' {
      SplitNotEmpty(line + [s[0]], s[1..]);
    }
  }

  /** The first line a client makes of a marked line, and the others. */
  lemma MarkedSub(line: string)
    requires Marked(line)
    ensures Sub(line[1..]) != []
    ensures Sub(line) == [[MARK] + Sub(line[1..])[0]] + Sub(line[1..])[1..]
  {
    var s := line[1..] + "\n";
    assert line + "\n" == [MARK] + s && ([MARK] + s)[1..] == s;
    assert "" + [MARK] == [MARK] + "";
    assert s[|line| - 1] == '\n';
    SplitNotEmpty("", s);
    SplitPrefix([MARK], "", s);
  }

  lemma {:induction false} DataValuesConcat(a: seq<string>, b: seq<string>)
    ensures DataValues(a + b) == DataValues(a) + DataValues(b)
  {
    if b == [] {
      assert a + b == a;
    } else {
      var n := |b| - 1;
      assert (a + b)[..|a + b| - 1] == a + b[..n];
      DataValuesConcat(a, b[..n]);
    }
  }

  lemma {:induction false} ExpandConcat(a: seq<string>, b: seq<string>)
    ensures Expand(a + b) == Expand(a) + Expand(b)
  {
    if b == [] {
      assert a + b == a;
    } else {
      var n := |b| - 1;
      assert (a + b)[..|a + b| - 1] == a + b[..n];
      ExpandConcat(a, b[..n]);
      AppendAssociates(Expand(a), Expand(b[..n]), Sub(b[n]));
    }
  }

  lemma OneExpanded(line: string)
    ensures Expand([line]) == Sub(line)
  {
    assert [line][..0] == [] && [] + Sub(line) == Sub(line);
  }

  lemma OneValue(line: string)
    ensures |DataValues([line])| <= 1
    ensures Marked(line) ==> DataValues([line]) == []
  {
    assert [line][..0] == [];
  }

  lemma MarkedSubHidesData(line: string)
    requires Marked(line)
    ensures |DataValues(Sub(line))| <= |DataValues(Sub(line[1..]))|
  {
    MarkedSub(line);
    var sub := Sub(line[1..]);
    assert sub == [sub[0]] + sub[1..];
    DataValuesConcat([sub[0]], sub[1..]);
    DataValuesConcat([[MARK] + sub[0]], sub[1..]);
    OneValue([MARK] + sub[0]);
  }

  lemma MarkHidesData(lines: seq<string>)
    ensures |DataValues(Expand(lines))| <= |DataValues(Expand(Unmarked(lines)))|
  {
    if lines != [] && Marked(lines[0]) {
      var rest := lines[1..];
      assert lines == [lines[0]] + rest;
      ExpandConcat([lines[0]], rest);
      ExpandConcat([lines[0][1..]], rest);
      OneExpanded(lines[0]);
      OneExpanded(lines[0][1..]);
      DataValuesConcat(Sub(lines[0]), Expand(rest));
      DataValuesConcat(Sub(lines[0][1..]), Expand(rest));
      MarkedSubHidesData(lines[0]);
    }
  }

  // ---- The conditions can fail --------------------------------------------------------------

  function DataField(value: string): string {
    Field("data", value)
  }

  function IdField(value: string): string {
    Field("id", value)
  }

  lemma FieldTaken(p: Parser, name: string, value: string)
    requires name != "" && ':' !in name && NoLineEnd(Field(name, value))
    ensures Take(p, Field(name, value)) == ProcessField(p, name, value)
  {
    FieldParts(name, value);
    PlainTake(p, Field(name, value));
  }

  lemma DataFieldTaken(p: Parser, value: string)
    requires NoLineEnd(DataField(value))
    ensures Take(p, DataField(value)) == p.(data := p.data + value + "\n")
  {
    FieldTaken(p, "data", value);
  }

  lemma BlankTaken(p: Parser)
    ensures Take(p, "") == Dispatch(p)
  {
    PlainTake(p, "");
  }

  /** What a heartbeat or a blank line does to a buffer of the value `x`. */
  lemma Dispatched(p: Parser, x: string)
    requires p.data == x + "\n" && p.kind == "" && p.id == p.lastId == ""
    ensures Dispatch(p) == p.(data := "", events := p.events + [Event("message", x, "")])
  {
    assert (x + "\n")[..|x|] == x;
  }

  lemma DataWritten(w: seq<Write>, x: string)
    requires NoLineEnd(DataField(x))
    ensures Erase(w + [Line(DataField(x))]) == Erase(w) + [DataField(x)]
    ensures Feed(w + [Line(DataField(x))]) == Feed(w).(data := Feed(w).data + x + "\n")
  {
    WriteSnoc(w, Line(DataField(x)));
    DataFieldTaken(Feed(w), x);
  }

  lemma DataRun(lines: seq<string>, x: string)
    requires NoLineEnd(DataField(x))
    ensures Run(lines + [DataField(x)]) == Run(lines).(data := Run(lines).data + x + "\n")
  {
    RunSnoc(lines, DataField(x));
    DataFieldTaken(Run(lines), x);
  }

  /** Without heartbeats, two data lines and a blank one are one event ... */
  lemma OneEvent(x: string, y: string)
    requires NoLineEnd(DataField(x)) && NoLineEnd(DataField(y))
    ensures Run([DataField(x), DataField(y), ""]).events == [Event("message", x + "\n" + y, "")]
  {
    var lines := [DataField(x), DataField(y)];
    TwoValues(x, y);
    assert [DataField(x), DataField(y), ""] == lines + [""];
    RunSnoc(lines, "");
    BlankTaken(Run(lines));
    Dispatched(Run(lines), x + "\n" + y);
  }

  lemma TwoValues(x: string, y: string)
    requires NoLineEnd(DataField(x)) && NoLineEnd(DataField(y))
    ensures Run([DataField(x), DataField(y)]) == FRESH.(data := (x + "\n" + y) + "\n")
  {
    var one := [DataField(x)];
    assert [] + [DataField(x)] == one && one + [DataField(y)] == [DataField(x), DataField(y)];
    DataRun([], x);
    DataRun(one, y);
    assert "" + x == x;
  }

  /** ... and with one in between they are two. */
  lemma TwoEvents(x: string, y: string) returns (w: seq<Write>)
    requires NoLineEnd(DataField(x)) && NoLineEnd(DataField(y))
    ensures Erase(w) == [DataField(x), DataField(y), ""]
    ensures Feed(w).events == [Event("message", x, ""), Event("message", y, "")]
  {
    var w1 := OneBeaten(x);
    var w2 := w1 + [Line(DataField(y))];
    DataWritten(w1, y);
    assert "" + y + "\n" == y + "\n";
    Dispatched(Feed(w2), y);
    w := w2 + [Line("")];
    WriteSnoc(w2, Line(""));
    BlankTaken(Feed(w2));
    ThreeInARow(DataField(x), DataField(y), "");
  }

  lemma OneLine(line: string)
    ensures var w := [Line(line)]; Erase(w) == [line] && Feed(w) == Take(FRESH, line)
  {
    WriteSnoc([], Line(line));
    assert [] + [Line(line)] == [Line(line)] && [] + [line] == [line];
  }

  /** A line that a heartbeat follows, or a blank line. */
  lemma LineThen(line: string, x: Write)
    requires x == Heartbeat || x == Line("")
    ensures var w := [Line(line)] + [x];
            && Erase(w) == (if x.Heartbeat? then [line] else [line, ""])
            && Feed(w) == Dispatch(Take(FRESH, line))
  {
    OneLine(line);
    WriteSnoc([Line(line)], x);
    BlankTaken(Take(FRESH, line));
    assert [line] + [""] == [line, ""];
  }

  lemma OneData(x: string)
    requires NoLineEnd(DataField(x))
    ensures Dispatch(Take(FRESH, DataField(x))) == FRESH.(events := [Event("message", x, "")])
  {
    DataFieldTaken(FRESH, x);
    assert "" + x + "\n" == x + "\n";
    Dispatched(Take(FRESH, DataField(x)), x);
    assert [] + [Event("message", x, "")] == [Event("message", x, "")];
  }

  lemma OneBeaten(x: string) returns (w: seq<Write>)
    requires NoLineEnd(DataField(x))
    ensures Erase(w) == [DataField(x)] && Feed(w) == FRESH.(events := [Event("message", x, "")])
  {
    w := [Line(DataField(x))] + [Heartbeat];
    LineThen(DataField(x), Heartbeat);
    OneData(x);
  }

  lemma NothingAfter(lines: seq<string>)
    requires NoDone(lines)
    ensures BeforeDone(lines) == lines
  {
    FirstDoneUnique(lines, |lines|);
    assert lines[..|lines|] == lines;
  }

  /** Any placement in a stream without a terminator is seen by the client as it parses. */
  lemma PlacementSeen(lines: seq<string>, w: seq<Write>) returns (acts: seq<Action>)
    requires NoDone(lines) && Erase(w) == lines
    ensures BeforeDone(lines) == lines && Completes(lines, acts)
    ensures Seen(lines, acts).events == Feed(w).events && Seen(lines, acts).lastId == Feed(w).lastId
  {
    NothingAfter(lines);
    acts := Staged(lines, w);
  }

  /** Every event of two data lines can be split: it is not robust, and this run shows it. */
  lemma HeartbeatSplitsEvent(x: string, y: string) returns (acts: seq<Action>)
    requires NoLineEnd(DataField(x)) && NoLineEnd(DataField(y)) && !IsDone(DataField(x)) && !IsDone(DataField(y))
    ensures var lines := [DataField(x), DataField(y), ""];
            && BeforeDone(lines) == lines && !Robust(lines) && Completes(lines, acts)
            && Run(lines).events == [Event("message", x + "\n" + y, "")]
            && Seen(lines, acts).events == [Event("message", x, ""), Event("message", y, "")]
  {
    var lines := [DataField(x), DataField(y), ""];
    BlankIsNotDone();
    OneEvent(x, y);
    var w := TwoEvents(x, y);
    acts := PlacementSeen(lines, w);
    OneIsNotTwo(lines, w);
  }

  lemma OneIsNotTwo(lines: seq<string>, w: seq<Write>)
    requires Erase(w) == lines && |Run(lines).events| != |Feed(w).events|
    ensures !Robust(lines)
  {
    TransparentIffRobust(lines);
  }

  /** A data line that no blank line follows: without a heartbeat it is lost, and one after it
      delivers it. */
  lemma OpenBlockIsUnsure(x: string) returns (bare: seq<Action>, beating: seq<Action>)
    requires NoLineEnd(DataField(x)) && !IsDone(DataField(x))
    ensures var lines := [DataField(x)];
            && BeforeDone(lines) == lines && Run(lines).data != ""
            && Completes(lines, bare) && Seen(lines, bare).events == []
            && Completes(lines, beating) && Seen(lines, beating).events == [Event("message", x, "")]
  {
    var line, w := DataField(x), [Line(DataField(x))];
    OneLine(line);
    DataFieldTaken(FRESH, x);
    RunOfOne(line);
    LineThen(line, Heartbeat);
    OneData(x);
    bare := PlacementSeen([line], w);
    beating := PlacementSeen([line], w + [Heartbeat]);
  }

  lemma RunOfOne(line: string)
    ensures Run([line]) == Take(FRESH, line)
  {
    assert [line][..0] == [];
  }

  /** For instance. */
  lemma SplitForInstance() returns (acts: seq<Action>)
    ensures var lines := [DataField("a"), DataField("b"), ""];
            && Completes(lines, acts) && !Robust(lines)
            && Seen(lines, acts).events != Run(BeforeDone(lines)).events
  {
    NotDone(DataField("a"));
    NotDone(DataField("b"));
    acts := HeartbeatSplitsEvent("a", "b");
    assert |Seen([DataField("a"), DataField("b"), ""], acts).events| == 2;
  }

  /** An `id` line that no blank line follows: without a heartbeat a client does not send that ID when
      it reconnects, and after one it does. */
  lemma HeartbeatCommitsId(x: string) returns (bare: seq<Action>, beating: seq<Action>)
    requires NoLineEnd(IdField(x)) && !IsDone(IdField(x)) && '\0' !in x
    ensures var lines := [IdField(x)];
            && Completes(lines, bare) && Seen(lines, bare).lastId == ""
            && Completes(lines, beating) && Seen(lines, beating).lastId == x
  {
    var line, w := IdField(x), [Line(IdField(x))];
    OneLine(line);
    FieldTaken(FRESH, "id", x);
    LineThen(line, Heartbeat);
    bare := PlacementSeen([line], w);
    beating := PlacementSeen([line], w + [Heartbeat]);
  }

  /** A first line that is marked: a heartbeat before it makes the client keep the mark, and the field
      is lost. */
  lemma MarkLosesField(x: string) returns (bare: seq<Action>, beating: seq<Action>)
    requires NoLineEnd(DataField(x)) && !IsDone([MARK] + DataField(x))
    ensures var lines := [[MARK] + DataField(x), ""];
            && Completes(lines, bare) && Seen(lines, bare).events == [Event("message", x, "")]
            && Completes(lines, beating) && Seen(lines, beating).events == []
  {
    var lines := [[MARK] + DataField(x), ""];
    BlankIsNotDone();
    NothingAfter(lines);
    assert lines[0][1..] == DataField(x) && Unmarked(lines) == [DataField(x), ""];
    var w := OneBlock(x);
    bare := Staged(lines, w);
    var kept := MarkedBlock(x);
    beating := Staged(lines, kept);
  }

  lemma OneBlock(x: string) returns (w: seq<Write>)
    requires NoLineEnd(DataField(x))
    ensures Erase(w) == [DataField(x), ""] && w[0].Line? && Feed(w).events == [Event("message", x, "")]
  {
    w := [Line(DataField(x))] + [Line("")];
    LineThen(DataField(x), Line(""));
    OneData(x);
  }

  lemma MarkedIgnored(p: Parser, x: string)
    requires NoLineEnd(DataField(x))
    ensures Take(p, [MARK] + DataField(x)) == p
  {
    var name := [MARK] + "data";
    AppendAssociates([MARK], "data", ": ");
    AppendAssociates([MARK], "data" + ": ", x);
    assert [MARK] + DataField(x) == Field(name, x);
    FieldTaken(p, name, x);
    assert name[0] == MARK;
  }

  lemma MarkedBlock(x: string) returns (w: seq<Write>)
    requires NoLineEnd(DataField(x))
    ensures Erase(w) == [[MARK] + DataField(x), ""] && Feed(w).events == []
  {
    w := [Line([MARK] + DataField(x))] + [Line("")];
    LineThen([MARK] + DataField(x), Line(""));
    MarkedIgnored(FRESH, x);
  }

  /** A line with no white space at either end is the terminator only if it says so. */
  lemma NotDone(line: string)
    requires Text.Tight(line) && line != "data: [DONE]"
    ensures !IsDone(line)
  {
    Text.TightTrims(line);
  }

  // ---- The relay as a program -------------------------------------------------------------

  /** RelaySSE with its goroutine.  `Turn` takes one atomic step of one actor, the one that the
      scheduler, and `select` among what is ready, have chosen. */
  class Relay {
    var pending: seq<string>
    var scanner: ScannerPc
    var relay: RelayPc
    var out: seq<Write>

    function View(): State
      reads this
    {
      State(pending, scanner, relay, out)
    }

    constructor (lines: seq<string>)
      ensures View() == Init(lines)
    {
      pending, scanner, relay, out := lines, Scanning, Selecting, [];
    }

    method Turn(a: Action)
      requires Step(View(), a).Some?
      modifies this
      ensures Some(View()) == Step(old(View()), a)
    {
      match a
      case Scan =>
        scanner, pending := Offering(pending[0]), pending[1..];
      case End =>
        scanner := Exited;
      case Deliver =>
        scanner, relay := Scanning, Writing(scanner.line);
      case Quit =>
        scanner := Exited;
      case Emit =>
        out := out + [Line(relay.line)];
        relay := Testing(relay.line);
      case Test =>
        relay := if IsDone(relay.line) then Returned else Selecting;
      case Close =>
        relay := Returned;
      case Beat =>
        out := out + [Heartbeat];
    }

    /** A whole run in which the ticker fires at most `ticks` times: any enabled step may come next. */
    method Serve(lines: seq<string>, ticks: nat) returns (ghost acts: seq<Action>)
      requires View() == Init(lines)
      modifies this
      ensures After(lines, acts) == Some(View()) && Over(View())
      ensures Erase(out) == Relayed(lines)
    {
      acts := [];
      var left := ticks;
      while !(scanner.Exited? && relay.Returned?)
        invariant After(lines, acts) == Some(View())
        decreases Rank(View()) + left
      {
        ghost var next := Move(View());
        assert Step(View(), next).Some? && !next.Beat?;
        var a: Action :| Step(View(), a).Some? && (a.Beat? ==> left > 0);
        StepsDown(View(), a);
        ExecSnoc(Step, Init(lines), acts, a);
        Turn(a);
        left := if a.Beat? then left - 1 else left;
        acts := acts + [a];
      }
      RelaySafety(lines, acts);
    }
  }
}
