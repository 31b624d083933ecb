/** The client's side of a relayed stream: section 9.2.6 of the WHATWG HTML Living Standard,
    "Interpreting an event stream", and what a heartbeat does to it. */
module EventStream {
  import opened Wrappers
  import opened Sequences
  import opened Text

  /** A dispatched event. */
  datatype Event = Event(kind: string, data: string, lastEventId: string)

  /** The data buffer, the event type buffer, the last event ID buffer, the last event ID string that
      a client sends when it reconnects, the digits of the last valid `retry` field, and the events
      dispatched so far. */
  datatype Parser = Parser(data: string, kind: string, id: string, lastId: string, retry: string, events: seq<Event>)

  const FRESH := Parser("", "", "", "", "", [])

  function Colon(line: string): nat {
    IndexOf(line, ':')
  }

  function FieldName(line: string): string {
    line[..Colon(line)]
  }

  function FieldValue(line: string): string {
    if Colon(line) == |line| then ""
    else
      var v := line[Colon(line) + 1..];
      if v != "" && v[0] == ' ' then v[1..] else v
  }

  /** The usual way to write a field. */
  function Field(name: string, value: string): string {
    name + ": " + value
  }

  lemma FieldParts(name: string, value: string)
    requires name != "" && ':' !in name
    ensures var line := Field(name, value); IsField(line) && FieldName(line) == name && FieldValue(line) == value
  {
    var line, n := Field(name, value), |name|;
    IndexOfFirst(line, ':', n);
    assert line[..n] == name;
    assert line[n + 1..] == " " + value && (" " + value)[1..] == value;
  }

  /** Neither blank nor a comment. */
  predicate IsField(line: string) {
    line != "" && line[0] != ':'
  }

  predicate IsData(line: string) {
    IsField(line) && FieldName(line) == "data"
  }

  function ProcessField(p: Parser, name: string, value: string): Parser {
    if name == "event" then p.(kind := value)
    else if name == "data" then p.(data := p.data + value + "\n")
    else if name == "id" then (if '\0' in value then p else p.(id := value))
    else if name == "retry" then
      (if value != "" && forall c | c in value :: '0' <= c <= '9' then p.(retry := value) else p)
    else p
  }

  function Chomp(data: string): string {
    if data != "" && data[|data| - 1] == '\n' then data[..|data| - 1] else data
  }

  function Kind(kind: string): string {
    if kind == "" then "message" else kind
  }

  /** The event a blank line would dispatch now, if the data buffer is not empty. */
  function Pending(p: Parser): Event {
    Event(Kind(p.kind), Chomp(p.data), p.id)
  }

  function Dispatch(p: Parser): Parser {
    p.(data := "", kind := "", lastId := p.id, events := if p.data == "" then p.events else p.events + [Pending(p)])
  }

  function Accept(p: Parser, line: string): Parser {
    if line == "" then Dispatch(p)
    else if line[0] == ':' then p
    else ProcessField(p, FieldName(line), FieldValue(line))
  }

  function AcceptAll(p: Parser, lines: seq<string>): Parser {
    if lines == [] then p else Accept(AcceptAll(p, lines[..|lines| - 1]), lines[|lines| - 1])
  }

  // ---- From characters to lines -----------------------------------------------------------

  /** Splits at LF, CR or CRLF; `line` is the line read so far, and a last line without a line
      end is dropped. */
  function SplitLines(line: string, s: string): seq<string>
    decreases |s|
  {
    if s == "" then []
    else if s[0] == '\n' then [line] + SplitLines("", s[1..])
    else if s[0] == '\r' then
      [line] + SplitLines("", if |s| > 1 && s[1] == '\n' then s[2..] else s[1..])
    else SplitLines(line + [s[0]], s[1..])
  }

  const MARK := '\U{FEFF}'

  predicate Marked(s: string) {
    s != "" && s[0] == MARK
  }

  /** The client on a stream: drop one leading byte order mark, split, interpret. */
  function Client(stream: string): Parser {
    AcceptAll(FRESH, SplitLines("", if Marked(stream) then stream[1..] else stream))
  }

  /** The lines a client makes of one relayed line: more than one if it has a CR inside. */
  function Sub(line: string): seq<string> {
    SplitLines("", line + "\n")
  }

  function Take(p: Parser, line: string): Parser {
    AcceptAll(p, Sub(line))
  }

  /** The parser after some relayed lines. */
  function Run(lines: seq<string>): Parser {
    if lines == [] then FRESH else Take(Run(lines[..|lines| - 1]), lines[|lines| - 1])
  }

  lemma AcceptSnoc(p: Parser, lines: seq<string>, line: string)
    ensures AcceptAll(p, lines + [line]) == Accept(AcceptAll(p, lines), line)
  {
    assert (lines + [line])[..|lines|] == lines;
  }

  lemma {:induction false} AcceptConcat(p: Parser, a: seq<string>, b: seq<string>)
    ensures AcceptAll(p, a + b) == AcceptAll(AcceptAll(p, a), b)
  {
    if b == [] {
      assert a + b == a;
    } else {
      var n := |b| - 1;
      AcceptConcat(p, a, b[..n]);
      AppendAssociates(a, b[..n], [b[n]]);
      assert b[..n] + [b[n]] == b;
      AcceptSnoc(p, a + b[..n], b[n]);
    }
  }

  // ---- Heartbeats among the lines -------------------------------------------------------

  /** One write of the relay: a backend line, or the two lines `: heartbeat` and blank. */
  datatype Write = Line(text: string) | Heartbeat

  const HEARTBEAT_COMMENT := ": heartbeat"

  /** The backend lines of an output, heartbeats erased. */
  function Erase(w: seq<Write>): seq<string> {
    if w == [] then []
    else match w[|w| - 1]
      case Line(text) => Erase(w[..|w| - 1]) + [text]
      case Heartbeat => Erase(w[..|w| - 1])
  }

  /** The lines a client makes of an output. */
  function LinesOf(w: seq<Write>): seq<string> {
    if w == [] then []
    else match w[|w| - 1]
      case Line(text) => LinesOf(w[..|w| - 1]) + Sub(text)
      case Heartbeat => LinesOf(w[..|w| - 1]) + [HEARTBEAT_COMMENT, ""]
  }

  /** The parser after an output, write by write. */
  function Feed(w: seq<Write>): Parser {
    if w == [] then FRESH
    else match w[|w| - 1]
      case Line(text) => Take(Feed(w[..|w| - 1]), text)
      case Heartbeat => Dispatch(Feed(w[..|w| - 1]))
  }

  lemma RunSnoc(lines: seq<string>, line: string)
    ensures Run(lines + [line]) == Take(Run(lines), line)
  {
    assert (lines + [line])[..|lines|] == lines;
  }

  lemma WriteSnoc(w: seq<Write>, x: Write)
    ensures x.Line? ==> Erase(w + [x]) == Erase(w) + [x.text] && Feed(w + [x]) == Take(Feed(w), x.text)
    ensures x.Heartbeat? ==> Erase(w + [x]) == Erase(w) && Feed(w + [x]) == Dispatch(Feed(w))
  {
    assert (w + [x])[..|w|] == w;
  }

  lemma HeartbeatAccepted(p: Parser)
    ensures AcceptAll(p, [HEARTBEAT_COMMENT, ""]) == Dispatch(p)
  {
    assert [HEARTBEAT_COMMENT, ""] == ([] + [HEARTBEAT_COMMENT]) + [""];
    AcceptSnoc(p, [], HEARTBEAT_COMMENT);
    AcceptSnoc(p, [] + [HEARTBEAT_COMMENT], "");
  }

  lemma {:induction false} FeedIsParse(w: seq<Write>)
    ensures AcceptAll(FRESH, LinesOf(w)) == Feed(w)
  {
    if w != [] {
      var v := w[..|w| - 1];
      FeedIsParse(v);
      match w[|w| - 1]
      case Line(text) => AcceptConcat(FRESH, LinesOf(v), Sub(text));
      case Heartbeat =>
        AcceptConcat(FRESH, LinesOf(v), [HEARTBEAT_COMMENT, ""]);
        HeartbeatAccepted(Feed(v));
    }
  }

  // ---- Exactly when heartbeats are invisible --------------------------------------------

  /** The parser after a last line that no heartbeat follows, if there is one. */
  function Ended(p: Parser, end: Option<string>): Parser {
    match end case None => p case Some(line) => Take(p, line)
  }

  /** Wherever a heartbeat falls among `lines`, the client sees the events of the bare lines. */
  ghost predicate TransparentTo(lines: seq<string>, end: Option<string>) {
    forall w :: Erase(w) == lines ==> Ended(Feed(w), end).events == Ended(Run(lines), end).events
  }

  ghost predicate Transparent(lines: seq<string>) {
    TransparentTo(lines, None)
  }

  /** The lines up to the first blank one. */
  function Opening(lines: seq<string>): seq<string> {
    if lines == [] || lines[0] == "" then [] else [lines[0]] + Opening(lines[1..])
  }

  /** `line`, as far as it belongs to the open block, leaves a pending event as it is, and starts one
      only with the type it would have right after a dispatch. */
  predicate Settled(p: Parser, line: string) {
    var g := Opening(Sub(line));
    var q := AcceptAll(p, g);
    if p.data != "" then Pending(q) == Pending(p)
    else q.data != "" ==> Kind(q.kind) == Kind(AcceptAll(Dispatch(p), g).kind)
  }

  /** At the end nothing is pending, unless a last line closes the block, which must then be settled. */
  predicate SettledAtEnd(p: Parser, end: Option<string>) {
    if end.Some? && !NoBlank(Sub(end.value)) then Settled(p, end.value) else p.data == ""
  }

  /** Every line is settled when the bare lines are parsed, and so is the end. */
  predicate RobustTo(lines: seq<string>, end: Option<string>) {
    && (forall k | 0 <= k < |lines| :: Settled(Run(lines[..k]), lines[k]))
    && SettledAtEnd(Run(lines), end)
  }

  predicate Robust(lines: seq<string>) {
    RobustTo(lines, None)
  }

  predicate EndsInNewline(data: string) {
    data != "" ==> data[|data| - 1] == '\n'
  }

  lemma {:induction false} BufferEnds(p: Parser, lines: seq<string>)
    requires EndsInNewline(p.data)
    ensures EndsInNewline(AcceptAll(p, lines).data)
  {
    if lines != [] {
      BufferEnds(p, lines[..|lines| - 1]);
    }
  }

  lemma {:induction false} FeedBufferEnds(w: seq<Write>)
    ensures EndsInNewline(Feed(w).data)
  {
    if w != [] {
      FeedBufferEnds(w[..|w| - 1]);
      if w[|w| - 1].Line? {
        BufferEnds(Feed(w[..|w| - 1]), Sub(w[|w| - 1].text));
      }
    }
  }

  lemma RunBufferEnds(lines: seq<string>)
    ensures EndsInNewline(Run(lines).data)
  {
    BareFeeds(lines);
    FeedBufferEnds(Bare(lines));
  }

  /** The simulation.  `p` parses the bare lines, `q` the lines with heartbeats among them: they
      agree, or `q` is one dispatch ahead. */
  predicate Ahead(p: Parser, q: Parser) {
    && q.id == p.id && q.retry == p.retry
    && if p.data == "" then
         q.data == "" && q.events == p.events && (q.kind == p.kind || q.kind == "")
       else
         || (q.data == p.data && q.events == p.events && Kind(q.kind) == Kind(p.kind))
         || (q.data == "" && q.events == p.events + [Pending(p)])
  }

  predicate NoBlank(lines: seq<string>) {
    "" !in lines
  }

  /** What some lines of one block add to the data buffer. */
  function Gathered(lines: seq<string>): string {
    Terminated(DataValues(lines))
  }

  lemma {:induction false} OpeningSplits(lines: seq<string>) returns (more: seq<string>)
    ensures NoBlank(Opening(lines)) && Opening(lines) <= lines
    ensures NoBlank(lines) ==> Opening(lines) == lines
    ensures !NoBlank(lines) ==> lines == Opening(lines) + ([""] + more)
  {
    if lines == [] {
      more := [];
    } else if lines[0] == "" {
      more := lines[1..];
    } else {
      more := OpeningSplits(lines[1..]);
      assert lines == [lines[0]] + lines[1..];
      assert lines[0] != "" && (NoBlank(lines) <==> NoBlank(lines[1..]));
      AppendAssociates([lines[0]], Opening(lines[1..]), [""] + more);
    }
  }

  /** Lines of one block leave the events alone and add to the data buffer. */
  lemma {:induction false} BlockEffect(p: Parser, lines: seq<string>)
    requires NoBlank(lines)
    ensures var q := AcceptAll(p, lines);
            q.events == p.events && q.lastId == p.lastId && q.data == p.data + Gathered(lines)
  {
    if lines == [] {
      assert p.data + "" == p.data;
    } else {
      var init, line := lines[..|lines| - 1], lines[|lines| - 1];
      assert line in lines && lines == init + [line] && forall l | l in init :: l in lines;
      BlockEffect(p, init);
      LineEffect(AcceptAll(p, init), line);
      DataValuesSnoc(init, line);
      AppendAssociates(p.data, Gathered(init), Piece(line));
    }
  }

  lemma LockstepLine(p: Parser, q: Parser, line: string)
    requires line != "" && q.id == p.id && q.retry == p.retry
    ensures var p', q' := Accept(p, line), Accept(q, line);
            && q'.id == p'.id && q'.retry == p'.retry
            && ((p'.kind == p.kind && q'.kind == q.kind) || p'.kind == q'.kind)
  {
  }

  /** Two parsers on the same lines of one block: IDs and retry stay together, and each either keeps
      its type or both get the same. */
  lemma {:induction false} Lockstep(p: Parser, q: Parser, lines: seq<string>)
    requires NoBlank(lines) && q.id == p.id && q.retry == p.retry
    ensures var p', q' := AcceptAll(p, lines), AcceptAll(q, lines);
            && q'.id == p'.id && q'.retry == p'.retry
            && ((p'.kind == p.kind && q'.kind == q.kind) || p'.kind == q'.kind)
  {
    if lines != [] {
      var init, line := lines[..|lines| - 1], lines[|lines| - 1];
      assert line in lines && forall l | l in init :: l in lines;
      Lockstep(p, q, init);
      LockstepLine(AcceptAll(p, init), AcceptAll(q, init), line);
    }
  }

  lemma ChompEqual(a: string, b: string)
    requires EndsInNewline(a) && EndsInNewline(b) && a != "" && b != "" && Chomp(a) == Chomp(b)
    ensures a == b
  {
    assert a == Chomp(a) + "\n" && b == Chomp(b) + "\n";
  }

  /** The simulation is kept by the lines of one block ... */
  lemma AheadBlock(p: Parser, q: Parser, lines: seq<string>)
    requires NoBlank(lines) && Ahead(p, q) && EndsInNewline(p.data)
    requires var p' := AcceptAll(p, lines);
             if p.data != "" then Pending(p') == Pending(p)
             else p'.data != "" ==> Kind(p'.kind) == Kind(AcceptAll(Dispatch(p), lines).kind)
    ensures Ahead(AcceptAll(p, lines), AcceptAll(q, lines))
  {
    BlockEffect(p, lines);
    BlockEffect(q, lines);
    Lockstep(p, q, lines);
    if p.data == "" {
      Lockstep(Dispatch(p), q, lines);
    } else {
      BufferEnds(p, lines);
      assert (p.data + Gathered(lines)) != "";
      ChompEqual(AcceptAll(p, lines).data, p.data);
      assert Gathered(lines) == "";
      assert q.data + "" == q.data;
    }
  }

  /** ... and a blank line brings both parsers together. */
  lemma BlankMeets(p: Parser, q: Parser)
    requires Ahead(p, q)
    ensures Dispatch(p) == Dispatch(q)
  {
  }

  lemma AheadReflexive(p: Parser)
    ensures Ahead(p, p)
  {
  }

  /** After the opening of a line comes nothing, or a blank line and the rest. */
  lemma TakeOpening(p: Parser, line: string) returns (more: seq<string>)
    ensures var g := Opening(Sub(line));
            NoBlank(g)
            && Take(p, line) == if NoBlank(Sub(line)) then AcceptAll(p, g)
                                else AcceptAll(Dispatch(AcceptAll(p, g)), more)
    ensures more == MoreOf(line)
  {
    var g := Opening(Sub(line));
    var rest := OpeningSplits(Sub(line));
    more := MoreOf(line);
    if !NoBlank(Sub(line)) {
      assert more == rest;
      AcceptConcat(p, g, [""] + rest);
      AcceptConcat(AcceptAll(p, g), [""], rest);
      AcceptSnoc(AcceptAll(p, g), [], "");
      assert [] + [""] == [""];
    }
  }

  /** What follows the first blank line of a relayed line. */
  function MoreOf(line: string): seq<string> {
    var n := |Opening(Sub(line))|; if n < |Sub(line)| then Sub(line)[n + 1..] else []
  }

  lemma AheadLine(p: Parser, q: Parser, line: string)
    requires Ahead(p, q) && Settled(p, line) && EndsInNewline(p.data)
    ensures Ahead(Take(p, line), Take(q, line))
  {
    var more := TakeOpening(p, line);
    var more' := TakeOpening(q, line);
    AheadBlock(p, q, Opening(Sub(line)));
    if !NoBlank(Sub(line)) {
      BlankMeets(AcceptAll(p, Opening(Sub(line))), AcceptAll(q, Opening(Sub(line))));
      AheadReflexive(Take(p, line));
    }
  }

  lemma AheadHeartbeat(p: Parser, q: Parser)
    requires Ahead(p, q)
    ensures Ahead(p, Dispatch(q))
  {
  }

  lemma {:induction false} Simulation(w: seq<Write>)
    requires forall k | 0 <= k < |Erase(w)| :: Settled(Run(Erase(w)[..k]), Erase(w)[k])
    ensures Ahead(Run(Erase(w)), Feed(w))
  {
    if w != [] {
      var v := w[..|w| - 1];
      if w[|w| - 1].Heartbeat? {
        assert Erase(v) == Erase(w);
        Simulation(v);
        AheadHeartbeat(Run(Erase(v)), Feed(v));
      } else {
        var n := |Erase(v)|;
        assert Erase(w)[..n] == Erase(v);
        forall k | 0 <= k < n ensures Settled(Run(Erase(v)[..k]), Erase(v)[k]) {
          assert Erase(v)[..k] == Erase(w)[..k];
        }
        Simulation(v);
        RunBufferEnds(Erase(v));
        assert Settled(Run(Erase(w)[..n]), Erase(w)[n]);
        AheadLine(Run(Erase(v)), Feed(v), w[|w| - 1].text);
      }
    }
  }

  // The converse: an unsettled line, or a pending event at the end, is found out by some placement.

  function Bare(lines: seq<string>): (w: seq<Write>)
    ensures |w| == |lines|
  {
    if lines == [] then [] else Bare(lines[..|lines| - 1]) + [Line(lines[|lines| - 1])]
  }

  lemma {:induction false} BareFeeds(lines: seq<string>)
    ensures Erase(Bare(lines)) == lines && Feed(Bare(lines)) == Run(lines)
  {
    if lines != [] {
      BareFeeds(lines[..|lines| - 1]);
      assert Bare(lines)[..|lines| - 1] == Bare(lines[..|lines| - 1]);
    }
  }

  lemma {:induction false} StepKeepsEvents(p: Parser, lines: seq<string>)
    ensures p.events <= AcceptAll(p, lines).events
  {
    if lines != [] {
      StepKeepsEvents(p, lines[..|lines| - 1]);
    }
  }

  lemma BareSnoc(w: seq<Write>, lines: seq<string>)
    requires lines != []
    ensures w + Bare(lines) == (w + Bare(lines[..|lines| - 1])) + [Line(lines[|lines| - 1])]
  {
    var init, last := Bare(lines[..|lines| - 1]), [Line(lines[|lines| - 1])];
    assert Bare(lines) == init + last;
    AppendAssociates(w, init, last);
  }

  /** One more bare line. */
  lemma OneMoreBare(w: seq<Write>, lines: seq<string>)
    requires lines != []
    ensures var u, last := w + Bare(lines[..|lines| - 1]), lines[|lines| - 1];
            && Erase(w + Bare(lines)) == Erase(u) + [last]
            && Feed(u).events <= Feed(w + Bare(lines)).events
  {
    var u, last := w + Bare(lines[..|lines| - 1]), lines[|lines| - 1];
    BareSnoc(w, lines);
    WriteSnoc(u, Line(last));
    StepKeepsEvents(Feed(u), Sub(last));
  }

  lemma {:induction false} BareFollow(w: seq<Write>, lines: seq<string>)
    ensures Erase(w + Bare(lines)) == Erase(w) + lines
  {
    if lines == [] {
      assert w + Bare(lines) == w;
    } else {
      BareFollow(w, lines[..|lines| - 1]);
      OneMoreBare(w, lines);
      InitAndLast(Erase(w), lines);
    }
  }

  lemma {:induction false} EventsStay(w: seq<Write>, lines: seq<string>)
    ensures Feed(w).events <= Feed(w + Bare(lines)).events
  {
    if lines == [] {
      assert w + Bare(lines) == w;
    } else {
      EventsStay(w, lines[..|lines| - 1]);
      OneMoreBare(w, lines);
    }
  }

  /** Whatever is dispatched in some placement is the beginning of `total`. */
  ghost predicate Within(lines: seq<string>, total: seq<Event>) {
    forall w :: Erase(w) == lines ==> Feed(w).events <= total
  }

  /** `e` is the event of `total` that follows those dispatched so far. */
  predicate NextIs(total: seq<Event>, p: Parser, e: Event) {
    |p.events| < |total| && total[|p.events|] == e
  }

  lemma PrefixNext(some: seq<Event>, total: seq<Event>, p: Parser, e: Event)
    requires some <= total && NextIs(some, p, e)
    ensures NextIs(total, p, e)
  {
  }

  /** A heartbeat after the first `k` lines fixes which event comes next, in any placement `v`. */
  lemma CutAfter(lines: seq<string>, total: seq<Event>, k: nat, v: seq<Write>)
    requires k <= |lines| && Within(lines, total) && Erase(v) == lines[..k] && Feed(v).data != ""
    ensures NextIs(total, Feed(v), Pending(Feed(v)))
  {
    var w := v + [Heartbeat] + Bare(lines[k..]);
    DispatchedStays(v, lines[k..]);
    TakeAndDrop(lines, k);
    PrefixNext(Feed(w).events, total, Feed(v), Pending(Feed(v)));
  }

  lemma DispatchedStays(v: seq<Write>, more: seq<string>)
    requires Feed(v).data != ""
    ensures var p, w := Feed(v), v + [Heartbeat] + Bare(more);
            Erase(w) == Erase(v) + more && NextIs(Feed(w).events, p, Pending(p))
  {
    var p, u := Feed(v), v + [Heartbeat];
    WriteSnoc(v, Heartbeat);
    BareFollow(u, more);
    EventsStay(u, more);
    assert NextIs(Feed(u).events, p, Pending(p));
    PrefixNext(Feed(u).events, Feed(u + Bare(more)).events, p, Pending(p));
  }

  lemma DispatchedStaysFirst(lines: seq<string>, total: seq<Event>, k: nat, u: seq<Write>)
    requires k <= |lines| && Within(lines, total) && Erase(u) == lines[..k]
    ensures Feed(u).events <= total
  {
    BareFollow(u, lines[k..]);
    EventsStay(u, lines[k..]);
    TakeAndDrop(lines, k);
    assert Feed(u + Bare(lines[k..])).events <= total;
  }

  lemma DispatchedWithin(p: Parser, line: string)
    requires !NoBlank(Sub(line))
    ensures Dispatch(AcceptAll(p, Opening(Sub(line)))).events <= Take(p, line).events
  {
    var more := TakeOpening(p, line);
    StepKeepsEvents(Dispatch(AcceptAll(p, Opening(Sub(line)))), more);
  }

  /** The block that a line closes is dispatched within it. */
  lemma NextWithin(p: Parser, line: string, total: seq<Event>)
    requires !NoBlank(Sub(line)) && Take(p, line).events <= total
    requires AcceptAll(p, Opening(Sub(line))).data != ""
    ensures NextIs(total, p, Pending(AcceptAll(p, Opening(Sub(line)))))
  {
    var f := AcceptAll(p, Opening(Sub(line)));
    var more := TakeOpening(p, line);
    BlockEffect(p, Opening(Sub(line)));
    DispatchedWithin(p, line);
    assert Dispatch(f).events[|p.events|] == Pending(f);
  }

  /** A placement `v` of the first `k` lines and the opening of the next line fix which event comes
      next. */
  lemma NextEvent(lines: seq<string>, total: seq<Event>, k: nat, v: seq<Write>)
    requires k < |lines| && Within(lines, total) && Erase(v) == lines[..k]
    requires AcceptAll(Feed(v), Opening(Sub(lines[k]))).data != ""
    ensures NextIs(total, Feed(v), Pending(AcceptAll(Feed(v), Opening(Sub(lines[k])))))
  {
    var line := lines[k];
    WriteSnoc(v, Line(line));
    assert lines[..k + 1] == lines[..k] + [line];
    if NoBlank(Sub(line)) {
      var more := TakeOpening(Feed(v), line);
      BlockEffect(Feed(v), Opening(Sub(line)));
      CutAfter(lines, total, k + 1, v + [Line(line)]);
    } else {
      DispatchedStaysFirst(lines, total, k + 1, v + [Line(line)]);
      NextWithin(Feed(v), line, total);
    }
  }

  /** The next event cannot be all that an unsettled line makes it. */
  lemma UnsettledClash(p: Parser, line: string, total: seq<Event>)
    requires var g := Opening(Sub(line));
             && (p.data != "" ==> NextIs(total, p, Pending(p)))
             && (AcceptAll(p, g).data != "" ==> NextIs(total, p, Pending(AcceptAll(p, g))))
             && (p.data == "" && AcceptAll(Dispatch(p), g).data != "" ==>
                   NextIs(total, Dispatch(p), Pending(AcceptAll(Dispatch(p), g))))
    ensures Settled(p, line)
  {
    var g := Opening(Sub(line));
    var more := OpeningSplits(Sub(line));
    BlockEffect(p, g);
    BlockEffect(Dispatch(p), g);
  }

  lemma SettledWithin(lines: seq<string>, total: seq<Event>, k: nat)
    requires k < |lines| && Within(lines, total)
    ensures Settled(Run(lines[..k]), lines[k])
  {
    var p, g, b := Run(lines[..k]), Opening(Sub(lines[k])), Bare(lines[..k]);
    BareFeeds(lines[..k]);
    WriteSnoc(b, Heartbeat);
    if p.data != "" {
      CutAfter(lines, total, k, b);
    }
    if AcceptAll(p, g).data != "" {
      NextEvent(lines, total, k, b);
    }
    if AcceptAll(Dispatch(p), g).data != "" {
      NextEvent(lines, total, k, b + [Heartbeat]);
    }
    UnsettledClash(p, lines[k], total);
  }

  lemma EndedLater(p: Parser, end: Option<string>)
    ensures p.events <= Ended(p, end).events
  {
    if end.Some? {
      StepKeepsEvents(p, Sub(end.value));
    }
  }

  /** Placements that all end alike are within what they end with. */
  lemma TransparentWithin(lines: seq<string>, end: Option<string>)
    requires TransparentTo(lines, end)
    ensures Within(lines, Ended(Run(lines), end).events)
  {
    forall w | Erase(w) == lines ensures Feed(w).events <= Ended(Run(lines), end).events {
      EndedLater(Feed(w), end);
    }
  }

  lemma EndMustSettle(lines: seq<string>, end: Option<string>)
    requires TransparentTo(lines, end)
    ensures SettledAtEnd(Run(lines), end)
  {
    var p, total, b := Run(lines), Ended(Run(lines), end).events, Bare(lines);
    TransparentWithin(lines, end);
    BareFeeds(lines);
    assert lines[..|lines|] == lines;
    WriteSnoc(b, Heartbeat);
    if p.data != "" {
      CutAfter(lines, total, |lines|, b);
    }
    if end.Some? && !NoBlank(Sub(end.value)) {
      var g := Opening(Sub(end.value));
      assert Take(Feed(b + [Heartbeat]), end.value).events == total;
      if AcceptAll(p, g).data != "" {
        NextWithin(p, end.value, total);
      }
      if AcceptAll(Dispatch(p), g).data != "" {
        NextWithin(Dispatch(p), end.value, total);
      }
      UnsettledClash(p, end.value, total);
    } else if end.Some? {
      BlockEffect(p, Sub(end.value));
    }
  }

  /** A settled end brings a parser and the one ahead of it to the same events. */
  lemma EndMeets(p: Parser, q: Parser, end: Option<string>)
    requires Ahead(p, q) && EndsInNewline(p.data) && SettledAtEnd(p, end)
    ensures Ended(q, end).events == Ended(p, end).events
  {
    if end.Some? {
      var line, g := end.value, Opening(Sub(end.value));
      if NoBlank(Sub(line)) {
        BlockEffect(p, Sub(line));
        BlockEffect(q, Sub(line));
      } else {
        var more := TakeOpening(p, line);
        var more' := TakeOpening(q, line);
        AheadBlock(p, q, g);
        BlankMeets(AcceptAll(p, g), AcceptAll(q, g));
      }
    }
  }

  /** Heartbeats are invisible, wherever they fall before the end, if and only if lines and end are
      robust. */
  lemma TransparentToIffRobustTo(lines: seq<string>, end: Option<string>)
    ensures TransparentTo(lines, end) <==> RobustTo(lines, end)
  {
    if RobustTo(lines, end) {
      forall w | Erase(w) == lines ensures Ended(Feed(w), end).events == Ended(Run(lines), end).events {
        Simulation(w);
        RunBufferEnds(lines);
        EndMeets(Run(lines), Feed(w), end);
      }
    }
    if TransparentTo(lines, end) {
      TransparentWithin(lines, end);
      forall k | 0 <= k < |lines| ensures Settled(Run(lines[..k]), lines[k]) {
        SettledWithin(lines, Ended(Run(lines), end).events, k);
      }
      EndMustSettle(lines, end);
    }
  }

  /** Heartbeats are invisible, wherever they fall, if and only if the lines are robust. */
  lemma TransparentIffRobust(lines: seq<string>)
    ensures Transparent(lines) <==> Robust(lines)
  {
    TransparentToIffRobustTo(lines, None);
  }

  /** The familiar sufficient shape: at most one field line between two blank lines, and no field
      line after the last blank one. */
  predicate SingleFieldBlocks(lines: seq<string>) {
    && (forall i, j | 0 <= i < j < |lines| && IsField(lines[i]) && IsField(lines[j]) ::
          exists b | i < b < j :: lines[b] == "")
    && (forall i | 0 <= i < |lines| && IsField(lines[i]) :: exists b | i < b < |lines| :: lines[b] == "")
  }

  lemma PlainSub(line: string)
    requires NoLineEnd(line)
    ensures Sub(line) == [line]
  {
    assert line + "\n" + "" == line + "\n" && "" + line == line;
    SplitOneLine("", line, "");
  }

  lemma PlainTake(p: Parser, line: string)
    requires NoLineEnd(line)
    ensures Take(p, line) == Accept(p, line)
    ensures Opening(Sub(line)) == if line == "" then [] else [line]
  {
    PlainSub(line);
    assert [] + [line] == [line];
    AcceptSnoc(p, [], line);
  }

  predicate AllPlain(lines: seq<string>) {
    forall i | 0 <= i < |lines| :: NoLineEnd(lines[i])
  }

  /** With no field line since the last blank one, both buffers are empty. */
  lemma {:induction false} NothingPending(lines: seq<string>)
    requires AllPlain(lines)
    requires forall i | 0 <= i < |lines| && IsField(lines[i]) :: exists b | i < b < |lines| :: lines[b] == ""
    ensures Run(lines).data == "" && Run(lines).kind == ""
  {
    if lines != [] {
      var init, line := lines[..|lines| - 1], lines[|lines| - 1];
      PlainTake(Run(init), line);
      if line != "" {
        forall i | 0 <= i < |init| && IsField(init[i]) ensures exists b | i < b < |init| :: init[b] == "" {
          assert IsField(lines[i]);
          var b :| i < b < |lines| && lines[b] == "";
          assert init[b] == "";
        }
        NothingPending(init);
        assert !IsField(line);
      }
    }
  }

  /** On a plain line, settled says: it is blank, leaves a pending event, or starts one only with the
      default type. */
  lemma PlainSettled(p: Parser, line: string)
    requires NoLineEnd(line)
    ensures Settled(p, line) <==>
            || line == ""
            || if p.data != "" then Pending(Accept(p, line)) == Pending(p)
               else Accept(p, line).data != "" ==> Kind(p.kind) == "message"
  {
    PlainTake(p, line);
    AcceptOne(p, line);
    AcceptOne(Dispatch(p), line);
    if line != "" && p.data == "" && Accept(p, line).data != "" {
      StartsEvent(p, line);
    }
  }

  lemma AcceptOne(p: Parser, line: string)
    ensures AcceptAll(p, [line]) == Accept(p, line)
  {
    assert [] + [line] == [line];
    AcceptSnoc(p, [], line);
  }

  /** A line that starts an event leaves the type alone. */
  lemma StartsEvent(p: Parser, line: string)
    requires line != "" && p.data == "" && Accept(p, line).data != ""
    ensures Accept(p, line).kind == p.kind && Kind(Accept(Dispatch(p), line).kind) == "message"
  {
  }

  lemma SingleFieldBlocksAreRobust(lines: seq<string>)
    requires AllPlain(lines) && SingleFieldBlocks(lines)
    ensures Robust(lines) && Transparent(lines)
  {
    NothingPending(lines);
    forall k | 0 <= k < |lines| ensures Settled(Run(lines[..k]), lines[k]) {
      if IsField(lines[k]) {
        var init := lines[..k];
        forall i | 0 <= i < k && IsField(init[i]) ensures exists b | i < b < k :: init[b] == "" {
          assert IsField(lines[i]);
          var b :| i < b < k && lines[b] == "";
          assert init[b] == "";
        }
        NothingPending(init);
      }
      PlainSettled(Run(lines[..k]), lines[k]);
    }
    TransparentIffRobust(lines);
  }

  // ---- The last event ID string ---------------------------------------------------------------

  /** What a reconnecting client would send is the same wherever heartbeats fall. */
  ghost predicate IdTransparent(lines: seq<string>) {
    forall w :: Erase(w) == lines ==> Feed(w).lastId == Run(lines).lastId
  }

  /** Since the last blank line, the ID buffer has always been what was last committed. */
  predicate IdSettled(lines: seq<string>) {
    lines == [] ||
    (Run(lines).id == Run(lines).lastId && (NoBlank(Sub(lines[|lines| - 1])) ==> IdSettled(lines[..|lines| - 1])))
  }

  /** The ID buffers of two parsers stay together; so do the committed IDs after a blank line. */
  lemma {:induction false} IdsTogether(p: Parser, q: Parser, lines: seq<string>)
    requires q.id == p.id
    ensures AcceptAll(q, lines).id == AcceptAll(p, lines).id
    ensures NoBlank(lines) ==> AcceptAll(p, lines).lastId == p.lastId && AcceptAll(q, lines).lastId == q.lastId
    ensures !NoBlank(lines) ==> AcceptAll(q, lines).lastId == AcceptAll(p, lines).lastId
  {
    if lines != [] {
      var init, line := lines[..|lines| - 1], lines[|lines| - 1];
      assert lines == init + [line];
      assert NoBlank(lines) <==> NoBlank(init) && line != "";
      IdsTogether(p, q, init);
    }
  }

  lemma {:induction false} FeedIds(w: seq<Write>)
    ensures Feed(w).id == Run(Erase(w)).id
    ensures IdSettled(Erase(w)) ==> Feed(w).lastId == Run(Erase(w)).lastId
  {
    if w != [] {
      var v := w[..|w| - 1];
      FeedIds(v);
      if w[|w| - 1].Line? {
        var text := w[|w| - 1].text;
        RunSnoc(Erase(v), text);
        assert Erase(w)[..|Erase(w)| - 1] == Erase(v);
        IdsTogether(Run(Erase(v)), Feed(v), Sub(text));
      }
    }
  }

  lemma {:induction false} IdTransparentNeeds(lines: seq<string>)
    requires IdTransparent(lines)
    ensures IdSettled(lines)
  {
    if lines != [] {
      var init, last := lines[..|lines| - 1], lines[|lines| - 1];
      BareFeeds(lines);
      WriteSnoc(Bare(lines), Heartbeat);
      assert Feed(Bare(lines) + [Heartbeat]).lastId == Run(lines).lastId;
      if NoBlank(Sub(last)) {
        forall v | Erase(v) == init ensures Feed(v).lastId == Run(init).lastId {
          WriteSnoc(v, Line(last));
          assert init + [last] == lines;
          IdsTogether(Feed(v), Feed(v), Sub(last));
          IdsTogether(Run(init), Run(init), Sub(last));
          assert Feed(v + [Line(last)]).lastId == Run(lines).lastId;
        }
        IdTransparentNeeds(init);
      }
    }
  }

  /** A heartbeat commits an ID early.  That goes unnoticed, wherever it falls, if and only if every
      line since the last blank one leaves the ID buffer at what was last committed. */
  lemma IdTransparentIffSettled(lines: seq<string>)
    ensures IdTransparent(lines) <==> IdSettled(lines)
  {
    if IdSettled(lines) {
      forall w | Erase(w) == lines ensures Feed(w).lastId == Run(lines).lastId {
        FeedIds(w);
      }
    } else if IdTransparent(lines) {
      IdTransparentNeeds(lines);
    }
  }

  // ---- What heartbeats never do: lose, merge, duplicate or reorder payload ----------------

  /** The lines, each ended by a line feed. */
  function Terminated(lines: seq<string>): string {
    if lines == [] then "" else lines[0] + "\n" + Terminated(lines[1..])
  }

  lemma {:induction false} TerminatedConcat(a: seq<string>, b: seq<string>)
    ensures Terminated(a + b) == Terminated(a) + Terminated(b)
  {
    if a == [] {
      assert a + b == b;
    } else {
      assert (a + b)[1..] == a[1..] + b;
      TerminatedConcat(a[1..], b);
    }
  }

  /** The values of the `data` fields, in order. */
  function DataValues(lines: seq<string>): seq<string> {
    if lines == [] then []
    else
      var init, line := DataValues(lines[..|lines| - 1]), lines[|lines| - 1];
      if IsData(line) then init + [FieldValue(line)] else init
  }

  /** The payload of the dispatched events: their data, each ended by a line feed. */
  function Delivered(events: seq<Event>): string {
    if events == [] then "" else Delivered(events[..|events| - 1]) + events[|events| - 1].data + "\n"
  }

  lemma DispatchDelivers(p: Parser)
    requires EndsInNewline(p.data)
    ensures Delivered(Dispatch(p).events) + Dispatch(p).data == Delivered(p.events) + p.data
  {
    if p.data != "" {
      assert Chomp(p.data) + "\n" == p.data;
      assert (p.events + [Pending(p)])[..|p.events|] == p.events;
      assert Delivered(Dispatch(p).events) == Delivered(p.events) + (Chomp(p.data) + "\n");
    }
  }

  /** What a line adds to the data buffer. */
  function Piece(line: string): string {
    if IsData(line) then FieldValue(line) + "\n" else ""
  }

  /** How a line that is not blank changes buffer and events. */
  lemma LineEffect(p: Parser, line: string)
    requires line != ""
    ensures Accept(p, line).events == p.events && Accept(p, line).lastId == p.lastId
    ensures Accept(p, line).data == p.data + Piece(line)
  {
    assert p.data + "" == p.data;
    assert p.data + FieldValue(line) + "\n" == p.data + (FieldValue(line) + "\n");
  }

  lemma DataValuesSnoc(lines: seq<string>, line: string)
    ensures Terminated(DataValues(lines + [line])) == Terminated(DataValues(lines)) + Piece(line)
  {
    assert (lines + [line])[..|lines|] == lines;
    var init := Terminated(DataValues(lines));
    if IsData(line) {
      TerminatedConcat(DataValues(lines), [FieldValue(line)]);
      assert Terminated([FieldValue(line)]) == FieldValue(line) + "\n";
    } else {
      assert init + "" == init;
    }
  }

  lemma LineDelivers(p: Parser, lines: seq<string>, line: string)
    requires EndsInNewline(p.data)
    requires Delivered(p.events) + p.data == Terminated(DataValues(lines))
    ensures Delivered(Accept(p, line).events) + Accept(p, line).data == Terminated(DataValues(lines + [line]))
  {
    DataValuesSnoc(lines, line);
    if line == "" {
      DispatchDelivers(p);
      assert Terminated(DataValues(lines)) + "" == Terminated(DataValues(lines));
    } else {
      LineEffect(p, line);
      AppendAssociates(Delivered(p.events), p.data, Piece(line));
    }
  }

  lemma {:induction false} AllDeliver(p: Parser, before: seq<string>, lines: seq<string>)
    requires EndsInNewline(p.data)
    requires Delivered(p.events) + p.data == Terminated(DataValues(before))
    ensures var q := AcceptAll(p, lines);
            Delivered(q.events) + q.data == Terminated(DataValues(before + lines))
  {
    if lines == [] {
      assert before + lines == before;
    } else {
      var init, line := lines[..|lines| - 1], lines[|lines| - 1];
      AllDeliver(p, before, init);
      BufferEnds(p, init);
      LineDelivers(AcceptAll(p, init), before + init, line);
      InitAndLast(before, lines);
    }
  }

  /** The lines a client makes of some relayed lines. */
  function Expand(lines: seq<string>): seq<string> {
    if lines == [] then [] else Expand(lines[..|lines| - 1]) + Sub(lines[|lines| - 1])
  }

  lemma ExpandSnoc(lines: seq<string>, line: string)
    ensures Expand(lines + [line]) == Expand(lines) + Sub(line)
  {
    assert (lines + [line])[..|lines|] == lines;
  }

  /** At every moment, what was delivered and what is still buffered is exactly the payload of
      the lines taken so far, whatever heartbeats came between. */
  lemma {:induction false} PayloadConserved(w: seq<Write>)
    ensures Delivered(Feed(w).events) + Feed(w).data == Terminated(DataValues(Expand(Erase(w))))
  {
    if w != [] {
      var v := w[..|w| - 1];
      PayloadConserved(v);
      FeedBufferEnds(v);
      if w[|w| - 1].Line? {
        ExpandSnoc(Erase(v), w[|w| - 1].text);
        AllDeliver(Feed(v), Expand(Erase(v)), Sub(w[|w| - 1].text));
      } else {
        DispatchDelivers(Feed(v));
      }
    }
  }

  predicate IsSuffix(a: string, b: string) {
    |a| <= |b| && b[|b| - |a|..] == a
  }

  lemma SuffixAppend(a: string, b: string, c: string)
    requires IsSuffix(a, b)
    ensures IsSuffix(a + c, b + c)
  {
  }

  lemma LineKeepsSuffix(p: Parser, q: Parser, line: string)
    requires IsSuffix(q.data, p.data)
    ensures IsSuffix(Accept(q, line).data, Accept(p, line).data)
  {
    if line != "" {
      LineEffect(p, line);
      LineEffect(q, line);
      SuffixAppend(q.data, p.data, Piece(line));
    }
  }

  lemma {:induction false} LinesKeepSuffix(p: Parser, q: Parser, lines: seq<string>)
    requires IsSuffix(q.data, p.data)
    ensures IsSuffix(AcceptAll(q, lines).data, AcceptAll(p, lines).data)
  {
    if lines != [] {
      var n := |lines| - 1;
      LinesKeepSuffix(p, q, lines[..n]);
      LineKeepsSuffix(AcceptAll(p, lines[..n]), AcceptAll(q, lines[..n]), lines[n]);
    }
  }

  /** Heartbeats can only empty the data buffer early. */
  lemma {:induction false} BufferIsSuffix(w: seq<Write>)
    ensures IsSuffix(Feed(w).data, Run(Erase(w)).data)
  {
    if w != [] {
      var v := w[..|w| - 1];
      BufferIsSuffix(v);
      if w[|w| - 1].Line? {
        RunSnoc(Erase(v), w[|w| - 1].text);
        LinesKeepSuffix(Run(Erase(v)), Feed(v), Sub(w[|w| - 1].text));
      }
    }
  }

  predicate NoLineEnd(line: string) {
    '\n' !in line && '\r' !in line
  }

  lemma {:induction false} SplitOneLine(before: string, line: string, more: string)
    requires NoLineEnd(line)
    decreases |line|
    ensures SplitLines(before, line + "\n" + more) == [before + line] + SplitLines("", more)
  {
    var s := line + "\n" + more;
    if line == "" {
      assert s[1..] == more && before + line == before;
    } else {
      assert s[1..] == line[1..] + "\n" + more;
      assert s[0] == line[0] && line[0] in line;
      assert (before + [line[0]]) + line[1..] == before + line;
      assert forall c | c in line[1..] :: c in line;
      SplitOneLine(before + [line[0]], line[1..], more);
    }
  }

  lemma {:induction false} SplitTerminated(lines: seq<string>)
    requires forall l | l in lines :: NoLineEnd(l)
    ensures SplitLines("", Terminated(lines)) == lines
  {
    if lines != [] {
      SplitOneLine("", lines[0], Terminated(lines[1..]));
      assert "" + lines[0] == lines[0];
      SplitTerminated(lines[1..]);
    }
  }

  /** No line that a split yields has a line end. */
  lemma {:induction false} SplitIsPlain(line: string, s: string)
    requires NoLineEnd(line)
    decreases |s|
    ensures forall l | l in SplitLines(line, s) :: NoLineEnd(l)
  {
    if s != "" {
      if s[0] == '\n' {
        SplitIsPlain("", s[1..]);
      } else if s[0] == '\r' {
        SplitIsPlain("", if |s| > 1 && s[1] == '\n' then s[2..] else s[1..]);
      } else {
        SplitIsPlain(line + [s[0]], s[1..]);
      }
    }
  }

  lemma {:induction false} ExpandIsPlain(lines: seq<string>)
    ensures forall l | l in Expand(lines) :: NoLineEnd(l)
  {
    if lines != [] {
      ExpandIsPlain(lines[..|lines| - 1]);
      SplitIsPlain("", lines[|lines| - 1] + "\n");
    }
  }

  /** After a line end a split starts afresh. */
  lemma {:induction false} SplitConcat(line: string, a: string, b: string)
    requires a != "" && a[|a| - 1] == '\n'
    decreases |a|
    ensures SplitLines(line, a + b) == SplitLines(line, a) + SplitLines("", b)
  {
    var n := if a[0] == '\r' && |a| > 1 && a[1] == '\n' then 2 else 1;
    assert (a + b)[n..] == a[n..] + b;
    var line' := if a[0] == '\n' || a[0] == '\r' then "" else line + [a[0]];
    if |a| > n {
      SplitConcat(line', a[n..], b);
      if a[0] == '\n' || a[0] == '\r' {
        AppendAssociates([line], SplitLines("", a[n..]), SplitLines("", b));
      }
    } else {
      assert a[n..] == "" && "" + b == b;
      assert [line] + SplitLines("", "") == [line];
    }
  }

  lemma {:induction false} DataValuesPlain(lines: seq<string>)
    requires forall l | l in lines :: NoLineEnd(l)
    ensures forall v | v in DataValues(lines) :: NoLineEnd(v)
  {
    if lines != [] {
      DataValuesPlain(lines[..|lines| - 1]);
      var line := lines[|lines| - 1];
      assert line in lines;
      assert forall c | c in FieldValue(line) :: c in line;
    }
  }

  lemma ValuesPlain(lines: seq<string>)
    ensures forall v | v in DataValues(Expand(lines)) :: NoLineEnd(v)
  {
    ExpandIsPlain(lines);
    DataValuesPlain(Expand(lines));
  }

  /** Heartbeats may split an event but never lose, merge, duplicate or reorder payload: once the
      bare lines leave nothing pending, the delivered payload read line by line is exactly the
      sequence of `data` values, with heartbeats as without. */
  lemma HeartbeatsOnlySplit(w: seq<Write>)
    requires Run(Erase(w)).data == ""
    ensures Feed(w).data == ""
    ensures SplitLines("", Delivered(Feed(w).events)) == DataValues(Expand(Erase(w)))
    ensures Delivered(Feed(w).events) == Delivered(Run(Erase(w)).events)
  {
    BufferIsSuffix(w);
    PayloadConserved(w);
    BareFeeds(Erase(w));
    PayloadConserved(Bare(Erase(w)));
    assert Delivered(Feed(w).events) + "" == Delivered(Feed(w).events);
    assert Delivered(Run(Erase(w)).events) + "" == Delivered(Run(Erase(w)).events);
    ValuesPlain(Erase(w));
    SplitTerminated(DataValues(Expand(Erase(w))));
  }

  lemma {:induction false} LinesAreCounted(line: string, s: string)
    requires '\r' !in s
    decreases |s|
    ensures |SplitLines(line, s)| == multiset(s)['\n']
  {
    if s != "" {
      assert s == [s[0]] + s[1..];
      LinesAreCounted(if s[0] == '\n' then "" else line + [s[0]], s[1..]);
    }
  }

  /** Conversely, payload still pending at the end is missing from what bare lines deliver. */
  lemma PendingIsMissing(lines: seq<string>)
    requires Run(lines).data != ""
    ensures |SplitLines("", Delivered(Run(lines).events))| < |DataValues(Expand(lines))|
  {
    var values := DataValues(Expand(lines));
    var got, left, all := Delivered(Run(lines).events), Run(lines).data, Terminated(values);
    BareFeeds(lines);
    PayloadConserved(Bare(lines));
    assert got + left == all;
    RunBufferEnds(lines);
    assert '\n' in left;
    ValuesPlain(lines);
    SplitTerminated(values);
    NoCarriageReturn(values);
    assert forall c | c in got :: c in all;
    LinesAreCounted("", all);
    LinesAreCounted("", got);
  }

  lemma {:induction false} NoCarriageReturn(lines: seq<string>)
    requires forall l | l in lines :: NoLineEnd(l)
    ensures '\r' !in Terminated(lines)
  {
    if lines != [] {
      assert lines[0] in lines;
      NoCarriageReturn(lines[1..]);
    }
  }
}
