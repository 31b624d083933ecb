/** What the client's parser is: it reads back what a server that follows section 9.2.6 of the WHATWG
    HTML Living Standard prints. */
module ClientLaws {
  import opened Wrappers
  import opened Sequences
  import opened EventStream
  import Text

  // ---- One field ------------------------------------------------------------------------------

  /** The three ways to write a field mean the same: a colon and a blank, a colon alone, and for an
      empty value neither. */
  lemma FieldForms(p: Parser, name: string, value: string)
    requires name != "" && ':' !in name
    ensures Accept(p, Field(name, value)) == ProcessField(p, name, value)
    ensures value == "" || value[0] != ' ' ==> Accept(p, name + ":" + value) == ProcessField(p, name, value)
    ensures Accept(p, name) == ProcessField(p, name, "")
  {
    FieldParts(name, value);
    if value == "" || value[0] != ' ' {
      TightField(name, value);
    }
    LoneField(name);
  }

  lemma TightField(name: string, value: string)
    requires name != "" && ':' !in name && (value == "" || value[0] != ' ')
    ensures var line := name + ":" + value; IsField(line) && FieldName(line) == name && FieldValue(line) == value
  {
    var line, n := name + ":" + value, |name|;
    Text.IndexOfFirst(line, ':', n);
    assert line[..n] == name && line[n + 1..] == value;
  }

  lemma LoneField(name: string)
    requires name != "" && ':' !in name
    ensures IsField(name) && FieldName(name) == name && FieldValue(name) == ""
  {
    Text.IndexOfFirst(name, ':', |name|);
    assert name[..|name|] == name;
  }

  /** What each field does, and that nothing else does anything. */
  lemma FieldEffects(p: Parser, name: string, value: string, comment: string)
    requires name != "" && ':' !in name
    ensures name == "event" ==> Accept(p, Field(name, value)) == p.(kind := value)
    ensures name == "data" ==> Accept(p, Field(name, value)) == p.(data := p.data + value + "\n")
    ensures name == "id" ==> Accept(p, Field(name, value)) == if '\0' in value then p else p.(id := value)
    ensures name == "retry" && value != "" && (forall c | c in value :: 48 <= c as int <= 57) ==>
              Accept(p, Field(name, value)) == p.(retry := value)
    ensures name == "retry" && (value == "" || exists c | c in value :: c as int < 48 || 57 < c as int) ==>
              Accept(p, Field(name, value)) == p
    ensures name !in {"event", "data", "id", "retry"} ==> Accept(p, Field(name, value)) == p
    ensures Accept(p, ":" + comment) == p
  {
    FieldParts(name, value);
  }

  // ---- Whole events ---------------------------------------------------------------------------

  /** A message as a server means it: a type, perhaps a new ID, and some lines of data. */
  datatype Message = Message(kind: string, id: Option<string>, lines: seq<string>)

  predicate Printable(m: Message) {
    && NoLineEnd(m.kind) && m.lines != [] && AllPlain(m.lines)
    && (m.id.Some? ==> NoLineEnd(m.id.value) && '\0' !in m.id.value)
  }

  function DataFields(lines: seq<string>): seq<string> {
    if lines == [] then [] else DataFields(lines[..|lines| - 1]) + [Field("data", lines[|lines| - 1])]
  }

  function Printed(m: Message): seq<string> {
    Head(m) + DataFields(m.lines) + [""]
  }

  function PrintedAll(ms: seq<Message>): seq<string> {
    if ms == [] then [] else PrintedAll(ms[..|ms| - 1]) + Printed(ms[|ms| - 1])
  }

  function Joined(lines: seq<string>): string
    requires lines != []
  {
    if |lines| == 1 then lines[0] else Joined(lines[..|lines| - 1]) + "\n" + lines[|lines| - 1]
  }

  function LastId(ms: seq<Message>): string {
    if ms == [] then ""
    else match ms[|ms| - 1].id case Some(id) => id case None => LastId(ms[..|ms| - 1])
  }

  /** The events a client should dispatch. */
  function Meant(ms: seq<Message>): seq<Event>
    requires forall m | m in ms :: Printable(m)
  {
    if ms == [] then []
    else
      var init, m := ms[..|ms| - 1], ms[|ms| - 1];
      assert m in ms && Printable(m) && forall n | n in init :: n in ms;
      Meant(init) + [Event(if m.kind == "" then "message" else m.kind, Joined(m.lines), LastId(ms))]
  }

  lemma {:induction false} DataFieldsTaken(p: Parser, lines: seq<string>)
    requires lines != []
    ensures AcceptAll(p, DataFields(lines)) == p.(data := p.data + (Joined(lines) + "\n"))
  {
    var init, last := lines[..|lines| - 1], lines[|lines| - 1];
    AcceptSnoc(p, DataFields(init), Field("data", last));
    FieldEffects(AcceptAll(p, DataFields(init)), "data", last, "");
    if init == [] {
      assert AcceptAll(p, DataFields(init)) == p;
      AppendAssociates(p.data, last, "\n");
    } else {
      DataFieldsTaken(p, init);
      AppendAssociates(p.data, Joined(init) + "\n", last);
      AppendAssociates(p.data, Joined(init) + "\n" + last, "\n");
    }
  }

  lemma KindTaken(p: Parser, kind: string)
    ensures AcceptAll(p, [Field("event", kind)]) == p.(kind := kind)
  {
    AcceptOne(p, Field("event", kind));
    FieldEffects(p, "event", kind, "");
  }

  lemma IdTaken(p: Parser, id: string)
    requires '\0' !in id
    ensures AcceptAll(p, [Field("id", id)]) == p.(id := id)
  {
    AcceptOne(p, Field("id", id));
    FieldEffects(p, "id", id, "");
  }

  function Head(m: Message): seq<string> {
    [Field("event", m.kind)] + if m.id.Some? then [Field("id", m.id.value)] else []
  }

  lemma HeadTaken(p: Parser, m: Message)
    requires Printable(m)
    ensures AcceptAll(p, Head(m)) == p.(kind := m.kind, id := if m.id.Some? then m.id.value else p.id)
  {
    KindTaken(p, m.kind);
    match m.id
    case Some(id) =>
      AcceptConcat(p, [Field("event", m.kind)], [Field("id", id)]);
      IdTaken(p.(kind := m.kind), id);
    case None => assert [Field("event", m.kind)] + [] == [Field("event", m.kind)];
  }

  lemma PrintedTaken(p: Parser, m: Message)
    requires Printable(m) && p.data == "" && p.kind == ""
    ensures var id := if m.id.Some? then m.id.value else p.id;
            AcceptAll(p, Printed(m)) == p.(id := id, lastId := id, events := p.events +
              [Event(if m.kind == "" then "message" else m.kind, Joined(m.lines), id)])
  {
    var q := p.(kind := m.kind, id := if m.id.Some? then m.id.value else p.id);
    HeadTaken(p, m);
    AcceptConcat(p, Head(m), DataFields(m.lines));
    DataFieldsTaken(q, m.lines);
    AcceptSnoc(p, Head(m) + DataFields(m.lines), "");
    EmptyFirst(Joined(m.lines) + "\n");
    BlankDispatches(q, Joined(m.lines));
  }

  lemma EmptyFirst(s: string)
    ensures "" + s == s
  {
  }

  lemma BlankDispatches(p: Parser, data: string)
    requires p.data == ""
    ensures Accept(p.(data := data + "\n"), "") == p.(data := "", kind := "", lastId := p.id, events := p.events +
              [Event(if p.kind == "" then "message" else p.kind, data, p.id)])
  {
    assert (data + "\n")[..|data|] == data;
  }

  lemma {:induction false} AllTaken(ms: seq<Message>)
    requires forall m | m in ms :: Printable(m)
    ensures var p := AcceptAll(FRESH, PrintedAll(ms));
            p == Parser("", "", LastId(ms), LastId(ms), "", Meant(ms))
  {
    if ms != [] {
      var init, m := ms[..|ms| - 1], ms[|ms| - 1];
      assert m in ms && forall n | n in init :: n in ms;
      AllTaken(init);
      AcceptConcat(FRESH, PrintedAll(init), Printed(m));
      PrintedTaken(AcceptAll(FRESH, PrintedAll(init)), m);
    }
  }

  lemma {:induction false} DataFieldsPlain(lines: seq<string>)
    requires AllPlain(lines)
    ensures forall l | l in DataFields(lines) :: NoLineEnd(l)
  {
    if lines != [] {
      DataFieldsPlain(lines[..|lines| - 1]);
    }
  }

  lemma {:induction false} PrintedPlain(ms: seq<Message>)
    requires forall m | m in ms :: Printable(m)
    ensures forall l | l in PrintedAll(ms) :: NoLineEnd(l)
    ensures PrintedAll(ms) != [] ==> PrintedAll(ms)[0] != "" && PrintedAll(ms)[0][0] == 'e'
  {
    if ms != [] {
      var init, m := ms[..|ms| - 1], ms[|ms| - 1];
      assert m in ms && forall n | n in init :: n in ms;
      PrintedPlain(init);
      OnePlain(m);
    }
  }

  lemma OnePlain(m: Message)
    requires Printable(m)
    ensures forall l | l in Printed(m) :: NoLineEnd(l)
    ensures Printed(m)[0] == Field("event", m.kind)
  {
    DataFieldsPlain(m.lines);
    assert Head(m)[0] == Field("event", m.kind);
  }

  /** Round trip: any sequence of messages, printed and sent, is dispatched as it was meant, with types,
      data line by line and IDs carried on. */
  lemma PrintedEventsParse(ms: seq<Message>)
    requires forall m | m in ms :: Printable(m)
    ensures Client(Terminated(PrintedAll(ms))).events == Meant(ms)
    ensures Client(Terminated(PrintedAll(ms))).lastId == LastId(ms)
  {
    PrintedPlain(ms);
    SplitTerminated(PrintedAll(ms));
    AllTaken(ms);
    if PrintedAll(ms) != [] {
      assert Terminated(PrintedAll(ms))[0] == PrintedAll(ms)[0][0];
    }
  }

  // ---- Line ends ------------------------------------------------------------------------------

  function EndedBy(lines: seq<string>, end: string): string {
    if lines == [] then "" else lines[0] + end + EndedBy(lines[1..], end)
  }

  lemma {:induction false} OneLineRead(before: string, line: string, end: string, more: string)
    requires NoLineEnd(line) && (end == "\n" || end == "\r\n" || (end == "\r" && (more == "" || more[0] != '\n')))
    decreases |line|
    ensures SplitLines(before, line + end + more) == [before + line] + SplitLines("", more)
  {
    var s := line + end + more;
    if line == "" {
      assert s == end + more && s[|end|..] == more && before + line == before;
    } else {
      assert s[1..] == line[1..] + end + more;
      assert s[0] == line[0] && line[0] in line;
      assert (before + [line[0]]) + line[1..] == before + line;
      assert forall c | c in line[1..] :: c in line;
      OneLineRead(before + [line[0]], line[1..], end, more);
    }
  }

  /** A line ends at LF, at CR LF and at CR alike. */
  lemma {:induction false} LineEndsAlike(lines: seq<string>, end: string)
    requires AllPlain(lines) && end in {"\n", "\r\n", "\r"}
    ensures SplitLines("", EndedBy(lines, end)) == lines
  {
    if lines != [] {
      var more := EndedBy(lines[1..], end);
      if |lines| > 1 {
        assert more[0] == (lines[1] + end)[0];
        assert lines[1] != "" ==> lines[1][0] in lines[1];
      }
      LineEndsAlike(lines[1..], end);
      OneLineRead("", lines[0], end, more);
      assert "" + lines[0] == lines[0];
    }
  }

  /** And a last line without an end is not a line. */
  lemma {:induction false} UnendedLineDropped(before: string, line: string)
    requires NoLineEnd(line)
    decreases |line|
    ensures SplitLines(before, line) == []
  {
    if line != "" {
      assert line[0] in line && forall c | c in line[1..] :: c in line;
      UnendedLineDropped(before + [line[0]], line[1..]);
    }
  }
}
