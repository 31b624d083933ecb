/** The upload handler: admission, the synchronous prefix, and what the streaming goroutine
    writes. */
module Upload {
  import opened Wrappers
  import opened Multipart
  import opened Headers
  import opened MimeList
  import Text

  datatype Error = NoFile | NotAllowed(contentType: string) | Unreadable(cause: Cause) | PipeBroken

  // ---- The two phases as functions ----------------------------------------------------------

  datatype Collected = Collected(prefix: seq<Part>, first: Part, r: Reader) | Refused(error: Error)

  /** collectPrefix, having already buffered `prefix`: form fields up to the first file, which
      must be allowed and is left open. */
  function Collect(allowed: seq<string>, r: Reader, prefix: seq<Part>): Collected
    decreases |r.rest|
  {
    match NextPart(r)
    case Eof => Refused(NoFile)
    case Fault => Refused(Unreadable(r.cause))
    case Opened(p, r1) =>
      if !IsFile(p) then
        var b := ReadBody(r1, p);
        if b.whole then Collect(allowed, b.r, prefix + [p]) else Refused(Unreadable(r.cause))
      else if Allows(allowed, FileType(p)) then Collected(prefix, p, r1)
      else Refused(NotAllowed(FileType(p)))
  }

  /** The symbols a writer is given before it ends, and the error it ends with. */
  datatype Plan = Plan(syms: seq<Sym>, error: Option<Error>)

  /** The rest of the parts, forwarded one by one. */
  function ForwardPlan(allowed: seq<string>, r: Reader): Plan
    decreases |r.rest|, 0
  {
    match NextPart(r)
    case Eof => Plan([], None)
    case Fault => Plan([], Some(Unreadable(r.cause)))
    case Opened(p, r1) =>
      if !Permitted(allowed, p) then Plan([], Some(NotAllowed(FileType(p))))
      else CopyPlan(allowed, r1, p)
  }

  /** One plan and, if it ends well, another. */
  function Then(a: Plan, b: Plan): Plan {
    if a.error.Some? then a else Plan(a.syms + b.syms, b.error)
  }

  /** One open part. */
  function PartPlan(r: Reader, p: Part): Plan {
    var b := ReadBody(r, p);
    Plan(Piece(p, b.data), if b.whole then None else Some(Unreadable(r.cause)))
  }

  /** An open part, and then the rest. */
  function CopyPlan(allowed: seq<string>, r: Reader, p: Part): Plan
    decreases |r.rest|, 1
  {
    Then(PartPlan(r, p), ForwardPlan(allowed, ReadBody(r, p).r))
  }

  /** streamRest: the buffered fields, the first file, the rest. */
  function StreamPlan(allowed: seq<string>, c: Collected): Plan
    requires c.Collected?
  {
    Then(Plan(Encode(c.prefix), None), CopyPlan(allowed, c.r, c.first))
  }

  // ---- Transparency -------------------------------------------------------------------------

  /** The two-phase split loses nothing: buffered fields, first file and unread rest are the
      inbound parts in order, the buffer holds form fields only and the file is allowed. */
  lemma {:induction false} SplitIsTransparent(allowed: seq<string>, r: Reader, prefix: seq<Part>)
    requires Collect(allowed, r, prefix).Collected?
    requires forall p | p in prefix :: !IsFile(p)
    ensures var c := Collect(allowed, r, prefix);
            && prefix + PartsOf(r.rest) == c.prefix + [c.first] + PartsOf(c.r.rest)
            && (forall p | p in c.prefix :: !IsFile(p))
            && IsFile(c.first) && Allows(allowed, FileType(c.first))
    decreases |r.rest|
  {
    var p := NextPart(r).part;
    if !IsFile(p) {
      var b := ReadBody(NextPart(r).r, p);
      SplitIsTransparent(allowed, b.r, prefix + [p]);
      assert prefix + PartsOf(r.rest) == (prefix + [p]) + PartsOf(b.r.rest);
    } else {
      assert prefix + PartsOf(r.rest) == prefix + [p] + PartsOf(r.rest[1..]);
    }
  }

  /** What is written is a prefix of the parts' encoding, all of it when there is no error. */
  lemma {:induction false} ForwardIsPrefix(allowed: seq<string>, r: Reader)
    ensures var q := ForwardPlan(allowed, r);
            q.syms <= Encode(PartsOf(r.rest)) && (q.error.None? ==> q.syms == Encode(PartsOf(r.rest)))
    decreases |r.rest|, 0
  {
    if NextPart(r).Opened? && Permitted(allowed, NextPart(r).part) {
      var p, r1 := NextPart(r).part, NextPart(r).r;
      CopyIsPrefix(allowed, r1, p);
      assert PartsOf(r.rest) == [p] + PartsOf(r1.rest);
    }
  }

  lemma {:induction false} CopyIsPrefix(allowed: seq<string>, r: Reader, p: Part)
    ensures var q, all := CopyPlan(allowed, r, p), Encode([p] + PartsOf(r.rest));
            q.syms <= all && (q.error.None? ==> q.syms == all)
    decreases |r.rest|, 1
  {
    var b, all := ReadBody(r, p), [p] + PartsOf(r.rest);
    assert all[1..] == PartsOf(r.rest);
    if b.whole {
      ForwardIsPrefix(allowed, b.r);
    } else {
      assert Bytes(b.data) <= Bytes(p.body);
      assert Piece(p, b.data) <= Piece(p, p.body);
    }
  }

  lemma PrefixOfConcat(head: seq<Sym>, a: seq<Sym>, b: seq<Sym>)
    requires a <= b
    ensures head + a <= head + b
  {
  }

  lemma StreamIsPrefix(allowed: seq<string>, r: Reader)
    requires Collect(allowed, r, []).Collected?
    ensures var q, all := StreamPlan(allowed, Collect(allowed, r, [])), Encode(PartsOf(r.rest));
            q.syms <= all && (q.error.None? ==> q.syms == all)
  {
    var c := Collect(allowed, r, []);
    SplitIsTransparent(allowed, r, []);
    CopyIsPrefix(allowed, c.r, c.first);
    var back := [c.first] + PartsOf(c.r.rest);
    SplitAsOne(c.prefix, c.first, PartsOf(c.r.rest), PartsOf(r.rest));
    EncodeConcat(c.prefix, back);
    PrefixOfConcat(Encode(c.prefix), CopyPlan(allowed, c.r, c.first).syms, Encode(back));
  }

  lemma SplitAsOne(prefix: seq<Part>, first: Part, rest: seq<Part>, all: seq<Part>)
    requires [] + all == prefix + [first] + rest
    ensures all == prefix + ([first] + rest)
  {
    assert [] + all == all;
  }

  // ---- No disallowed file -------------------------------------------------------------------

  /** An opening on the pipe is a form field or an allowed file. */
  predicate HeadAllowed(allowed: seq<string>, s: Sym) {
    s.Head? ==> Permitted(allowed, Part(s.header, s.fileName, []))
  }

  predicate HeadsAllowed(allowed: seq<string>, syms: seq<Sym>) {
    forall i | 0 <= i < |syms| :: HeadAllowed(allowed, syms[i])
  }

  lemma {:induction false} FieldsAllowed(allowed: seq<string>, parts: seq<Part>)
    requires forall p | p in parts :: Permitted(allowed, p)
    ensures HeadsAllowed(allowed, Encode(parts))
  {
    if parts != [] {
      FieldsAllowed(allowed, parts[1..]);
      assert parts[0] in parts;
    }
  }

  lemma PieceAllowed(allowed: seq<string>, p: Part, data: seq<bv8>)
    requires Permitted(allowed, p)
    ensures HeadsAllowed(allowed, Piece(p, data))
  {
  }

  lemma HeadsConcat(allowed: seq<string>, a: seq<Sym>, b: seq<Sym>)
    requires HeadsAllowed(allowed, a) && HeadsAllowed(allowed, b)
    ensures HeadsAllowed(allowed, a + b)
  {
  }

  lemma {:induction false} ForwardAllowed(allowed: seq<string>, r: Reader)
    ensures HeadsAllowed(allowed, ForwardPlan(allowed, r).syms)
    decreases |r.rest|, 0
  {
    if NextPart(r).Opened? && Permitted(allowed, NextPart(r).part) {
      CopyAllowed(allowed, NextPart(r).r, NextPart(r).part);
    }
  }

  lemma {:induction false} CopyAllowed(allowed: seq<string>, r: Reader, p: Part)
    requires Permitted(allowed, p)
    ensures HeadsAllowed(allowed, CopyPlan(allowed, r, p).syms)
    decreases |r.rest|, 1
  {
    var b := ReadBody(r, p);
    PieceAllowed(allowed, p, b.data);
    if b.whole {
      ForwardAllowed(allowed, b.r);
      HeadsConcat(allowed, Piece(p, b.data), ForwardPlan(allowed, b.r).syms);
    }
  }

  /** Whichever phase meets it, no file part of a disallowed type is ever written. */
  lemma OnlyAllowedFilesWritten(allowed: seq<string>, r: Reader)
    requires Collect(allowed, r, []).Collected?
    ensures HeadsAllowed(allowed, StreamPlan(allowed, Collect(allowed, r, [])).syms)
  {
    var c := Collect(allowed, r, []);
    SplitIsTransparent(allowed, r, []);
    FieldsAllowed(allowed, c.prefix);
    CopyAllowed(allowed, c.r, c.first);
  }

  // ---- The byte cap -------------------------------------------------------------------------

  lemma {:induction false} ForwardWithinBudget(allowed: seq<string>, r: Reader)
    requires r.left.Some?
    ensures DataCount(ForwardPlan(allowed, r).syms) <= r.left.value
    decreases |r.rest|, 0
  {
    if NextPart(r).Opened? && Permitted(allowed, NextPart(r).part) {
      CopyWithinBudget(allowed, NextPart(r).r, NextPart(r).part);
    }
  }

  lemma {:induction false} CopyWithinBudget(allowed: seq<string>, r: Reader, p: Part)
    requires r.left.Some?
    ensures DataCount(CopyPlan(allowed, r, p).syms) <= r.left.value
    decreases |r.rest|, 1
  {
    var b := ReadBody(r, p);
    DataCountPiece(p, b.data);
    if b.whole {
      ForwardWithinBudget(allowed, b.r);
      DataCountConcat(Piece(p, p.body), ForwardPlan(allowed, b.r).syms);
    }
  }

  /** Buffering one more field adds the length of its body. */
  lemma BufferOne(prefix: seq<Part>, p: Part)
    ensures DataCount(Encode(prefix + [p])) == DataCount(Encode(prefix)) + |p.body|
  {
    EncodeConcat(prefix, [p]);
    assert Encode([p]) == Piece(p, p.body);
    DataCountConcat(Encode(prefix), Piece(p, p.body));
    DataCountPiece(p, p.body);
  }

  /** The fields in memory when the synchronous phase is over, however it ends; the last one may be
      cut short.  No earlier buffer is longer. */
  function Buffered(r: Reader, prefix: seq<Part>): (buffer: seq<Part>)
    ensures prefix <= buffer
    decreases |r.rest|
  {
    match NextPart(r)
    case Opened(p, r1) =>
      if IsFile(p) then prefix
      else
        var b := ReadBody(r1, p);
        if b.whole then Buffered(b.r, prefix + [p]) else prefix + [p.(body := b.data)]
    case _ => prefix
  }

  lemma {:induction false} CollectedIsBuffered(allowed: seq<string>, r: Reader, prefix: seq<Part>)
    ensures var c := Collect(allowed, r, prefix); c.Collected? ==> c.prefix == Buffered(r, prefix)
    decreases |r.rest|
  {
    if NextPart(r).Opened? && !IsFile(NextPart(r).part) {
      var p := NextPart(r).part;
      CollectedIsBuffered(allowed, ReadBody(NextPart(r).r, p).r, prefix + [p]);
    }
  }

  lemma {:induction false} BufferWithinBudget(r: Reader, prefix: seq<Part>)
    requires r.left.Some?
    ensures DataCount(Encode(Buffered(r, prefix))) <= DataCount(Encode(prefix)) + r.left.value
    decreases |r.rest|
  {
    if NextPart(r).Opened? && !IsFile(NextPart(r).part) {
      var p := NextPart(r).part;
      var b := ReadBody(NextPart(r).r, p);
      if b.whole {
        BufferOne(prefix, p);
        BufferWithinBudget(b.r, prefix + [p]);
      } else {
        BufferOne(prefix, p.(body := b.data));
      }
    }
  }

  /** Accepted or refused, what the synchronous phase holds in memory never exceeds MaxBytes. */
  lemma BufferWithinMaxBytes(parts: seq<Framed>, tail: nat, maxBytes: int, fault: Option<nat>, held: nat)
    requires maxBytes > 0
    ensures DataCount(Encode(Buffered(Open(parts, tail, maxBytes, fault, held), []))) <= maxBytes
  {
    BufferWithinBudget(Open(parts, tail, maxBytes, fault, held), []);
  }

  lemma {:induction false} CollectWithinBudget(allowed: seq<string>, r: Reader, prefix: seq<Part>)
    requires r.left.Some? && Collect(allowed, r, prefix).Collected?
    ensures var c := Collect(allowed, r, prefix);
            c.r.left.Some? && DataCount(Encode(c.prefix)) + c.r.left.value <= DataCount(Encode(prefix)) + r.left.value
    decreases |r.rest|
  {
    var p := NextPart(r).part;
    if !IsFile(p) {
      var b := ReadBody(NextPart(r).r, p);
      CollectWithinBudget(allowed, b.r, prefix + [p]);
      BufferOne(prefix, p);
    }
  }

  /** Buffered field bytes and forwarded body bytes together never exceed MaxBytes. */
  lemma WithinMaxBytes(allowed: seq<string>, parts: seq<Framed>, tail: nat, maxBytes: int,
                       fault: Option<nat>, held: nat)
    requires maxBytes > 0
    requires Collect(allowed, Open(parts, tail, maxBytes, fault, held), []).Collected?
    ensures var c := Collect(allowed, Open(parts, tail, maxBytes, fault, held), []);
            DataCount(StreamPlan(allowed, c).syms) <= maxBytes
  {
    var r := Open(parts, tail, maxBytes, fault, held);
    var c := Collect(allowed, r, []);
    CollectWithinBudget(allowed, r, []);
    CopyWithinBudget(allowed, c.r, c.first);
    DataCountConcat(Encode(c.prefix), CopyPlan(allowed, c.r, c.first).syms);
  }

  // ---- Exactly when an upload gets through ----------------------------------------------------

  /** Bytes of the inbound body from here on. */
  function Cost(rest: seq<Framed>, tail: nat): nat {
    if rest == [] then tail else rest[0].frame + |rest[0].part.body| + Cost(rest[1..], tail)
  }

  predicate AllPermitted(allowed: seq<string>, parts: seq<Part>) {
    forall p | p in parts :: Permitted(allowed, p)
  }

  predicate HasFile(parts: seq<Part>) {
    exists p | p in parts :: IsFile(p)
  }

  // The same two, part by part as they arrive.

  predicate Accepts(allowed: seq<string>, rest: seq<Framed>) {
    rest == [] || (Permitted(allowed, rest[0].part) && Accepts(allowed, rest[1..]))
  }

  predicate FindsFile(rest: seq<Framed>) {
    rest != [] && (IsFile(rest[0].part) || FindsFile(rest[1..]))
  }

  lemma PartsCons(p: Part, rest: seq<Part>, allowed: seq<string>)
    ensures HasFile([p] + rest) <==> IsFile(p) || HasFile(rest)
    ensures AllPermitted(allowed, [p] + rest) <==> Permitted(allowed, p) && AllPermitted(allowed, rest)
  {
    assert p in [p] + rest;
    assert forall q | q in rest :: q in [p] + rest;
  }

  lemma {:induction false} PartByPart(allowed: seq<string>, rest: seq<Framed>)
    ensures Accepts(allowed, rest) <==> AllPermitted(allowed, PartsOf(rest))
    ensures FindsFile(rest) <==> HasFile(PartsOf(rest))
  {
    if rest != [] {
      PartByPart(allowed, rest[1..]);
      PartsCons(rest[0].part, PartsOf(rest[1..]), allowed);
    }
  }

  lemma AffordsInTurn(left: Option<nat>, m: nat, n: nat)
    ensures Affords(left, m + n) <==> Affords(left, m) && Affords(Spend(left, m), n)
  {
  }

  lemma {:induction false} ForwardCleanIff(allowed: seq<string>, r: Reader)
    ensures ForwardPlan(allowed, r).error.None? <==> Accepts(allowed, r.rest) && Affords(r.left, Cost(r.rest, r.tail))
    decreases |r.rest|, 0
  {
    if r.rest != [] {
      AffordsInTurn(r.left, r.rest[0].frame, |r.rest[0].part.body| + Cost(r.rest[1..], r.tail));
      if NextPart(r).Opened? {
        CopyCleanIff(allowed, NextPart(r).r, NextPart(r).part);
      }
    }
  }

  lemma {:induction false} CopyCleanIff(allowed: seq<string>, r: Reader, p: Part)
    ensures CopyPlan(allowed, r, p).error.None? <==>
            Accepts(allowed, r.rest) && Affords(r.left, |p.body| + Cost(r.rest, r.tail))
    decreases |r.rest|, 1
  {
    var b := ReadBody(r, p);
    AffordsInTurn(r.left, |p.body|, Cost(r.rest, r.tail));
    if b.whole {
      ForwardCleanIff(allowed, b.r);
    }
  }

  predicate Completes(allowed: seq<string>, c: Collected) {
    c.Collected? && StreamPlan(allowed, c).error.None?
  }

  /** What decides about a collection that has just opened a part. */
  lemma CollectUnfolds(allowed: seq<string>, r: Reader, prefix: seq<Part>)
    requires NextPart(r).Opened?
    ensures var Opened(p, r1) := NextPart(r);
            Completes(allowed, Collect(allowed, r, prefix)) <==>
            if IsFile(p) then Allows(allowed, FileType(p)) && CopyPlan(allowed, r1, p).error.None?
            else ReadBody(r1, p).whole && Completes(allowed, Collect(allowed, ReadBody(r1, p).r, prefix + [p]))
  {
    var Opened(p, r1) := NextPart(r);
    if IsFile(p) && Allows(allowed, FileType(p)) {
      assert Collect(allowed, r, prefix) == Collected(prefix, p, r1);
    }
  }

  lemma {:induction false} CollectCleanIff(allowed: seq<string>, r: Reader, prefix: seq<Part>)
    ensures Completes(allowed, Collect(allowed, r, prefix)) <==>
            FindsFile(r.rest) && Accepts(allowed, r.rest) && Affords(r.left, Cost(r.rest, r.tail))
    decreases |r.rest|, 0
  {
    if r.rest != [] {
      AffordsInTurn(r.left, r.rest[0].frame, |r.rest[0].part.body| + Cost(r.rest[1..], r.tail));
      if NextPart(r).Opened? {
        var p, r1 := NextPart(r).part, NextPart(r).r;
        CollectUnfolds(allowed, r, prefix);
        if IsFile(p) {
          CopyCleanIff(allowed, r1, p);
        } else {
          FieldCleanIff(allowed, r1, p, prefix);
        }
      } else {
        CollectStops(allowed, r, prefix);
      }
    } else {
      CollectStops(allowed, r, prefix);
    }
  }

  lemma CollectStops(allowed: seq<string>, r: Reader, prefix: seq<Part>)
    requires !NextPart(r).Opened?
    ensures !Completes(allowed, Collect(allowed, r, prefix))
  {
  }

  /** The step over a form field that has just been opened. */
  lemma {:induction false} FieldCleanIff(allowed: seq<string>, r: Reader, p: Part, prefix: seq<Part>)
    ensures var b := ReadBody(r, p);
            b.whole && Completes(allowed, Collect(allowed, b.r, prefix + [p])) <==>
            FindsFile(r.rest) && Accepts(allowed, r.rest) && Affords(r.left, |p.body| + Cost(r.rest, r.tail))
    decreases |r.rest|, 1
  {
    var b := ReadBody(r, p);
    AffordsInTurn(r.left, |p.body|, Cost(r.rest, r.tail));
    if b.whole {
      CollectCleanIff(allowed, b.r, prefix + [p]);
    }
  }

  /** Against a backend that takes everything, an upload is forwarded without error if and only if
      it has a file, every file is allowed, and the body ends before the cap or a fault. */
  lemma UploadCompletesIff(allowed: seq<string>, r: Reader)
    ensures Completes(allowed, Collect(allowed, r, [])) <==>
            && HasFile(PartsOf(r.rest)) && AllPermitted(allowed, PartsOf(r.rest))
            && Affords(r.left, Cost(r.rest, r.tail))
  {
    CollectCleanIff(allowed, r, []);
    PartByPart(allowed, r.rest);
  }

  // ---- Admission ----------------------------------------------------------------------------

  /** The parts of a request that ServeHTTP decides on: `mediaType` is None when the Content-Type
      does not parse. */
  datatype Request = Request(
    method_: string, mediaType: Option<string>, boundary: string, contentLength: int,
    parts: seq<Framed>, tail: nat, fault: Option<nat>, held: nat)

  datatype Decision = Answer(status: int) | Upstream(c: Collected)

  function StatusOf(e: Error): int {
    match e
    case NoFile => 400
    case NotAllowed(_) => 415
    case Unreadable(TooLarge) => 413
    case Unreadable(Broken) => 400
    case PipeBroken => 502
  }

  /** The header checks, in order: None when they pass. */
  function Precheck(q: Request, maxBytes: int): Option<int> {
    if q.method_ != "POST" then Some(405)
    else if q.mediaType.None? || Text.Lower(q.mediaType.value) != "multipart/form-data" then Some(415)
    else if q.boundary == "" then Some(400)
    else if q.contentLength > 0 && maxBytes > 0 && q.contentLength > maxBytes then Some(413)
    else None
  }

  function Decide(allowed: seq<string>, maxBytes: int, q: Request): Decision {
    match Precheck(q, maxBytes)
    case Some(status) => Answer(status)
    case None =>
      match Collect(allowed, Open(q.parts, q.tail, maxBytes, q.fault, q.held), [])
      case Refused(e) => Answer(StatusOf(e))
      case c => Upstream(c)
  }

  /** Index of the first file part, or the number of parts. */
  function FirstFile(rest: seq<Framed>): (n: nat)
    ensures n <= |rest|
    ensures n < |rest| ==> IsFile(rest[n].part)
    ensures forall i | 0 <= i < n :: !IsFile(rest[i].part)
  {
    if rest == [] || IsFile(rest[0].part) then 0 else 1 + FirstFile(rest[1..])
  }

  /** Bytes up to the body of part `k`. */
  function CostTo(rest: seq<Framed>, k: nat): nat
    requires k < |rest|
  {
    if k == 0 then rest[0].frame else rest[0].frame + |rest[0].part.body| + CostTo(rest[1..], k - 1)
  }

  lemma {:induction false} CollectedIff(allowed: seq<string>, r: Reader, prefix: seq<Part>)
    ensures var k := FirstFile(r.rest);
            Collect(allowed, r, prefix).Collected? <==>
            k < |r.rest| && Allows(allowed, FileType(r.rest[k].part)) && Affords(r.left, CostTo(r.rest, k))
    decreases |r.rest|
  {
    if NextPart(r).Opened? && !IsFile(r.rest[0].part) {
      var p, b := r.rest[0].part, ReadBody(NextPart(r).r, r.rest[0].part);
      CollectedIff(allowed, b.r, prefix + [p]);
      if b.whole {
        assert Collect(allowed, r, prefix) == Collect(allowed, b.r, prefix + [p]);
      } else {
        assert Collect(allowed, r, prefix).Refused?;
      }
    }
  }

  /** An upstream request starts if and only if the header checks pass, there is a file, the first
      one is allowed, and it is reached within the cap and before any fault. */
  lemma UpstreamIff(allowed: seq<string>, maxBytes: int, q: Request)
    ensures var k := FirstFile(q.parts);
            Decide(allowed, maxBytes, q).Upstream? <==>
            && Precheck(q, maxBytes).None?
            && k < |q.parts| && Allows(allowed, FileType(q.parts[k].part))
            && Affords(Open(q.parts, q.tail, maxBytes, q.fault, q.held).left, CostTo(q.parts, k))
  {
    CollectedIff(allowed, Open(q.parts, q.tail, maxBytes, q.fault, q.held), []);
  }

  /** The first file is reached before the cap and before any fault. */
  predicate FileReached(r: Reader) {
    var k := FirstFile(r.rest); k < |r.rest| && Affords(r.left, CostTo(r.rest, k))
  }

  /** There is no file, and the body can be read to its end. */
  predicate EndReached(r: Reader) {
    FirstFile(r.rest) == |r.rest| && Affords(r.left, Cost(r.rest, r.tail))
  }

  /** Why the synchronous phase refuses, from the inbound parts alone. */
  lemma {:induction false} RefusedBecause(allowed: seq<string>, r: Reader, prefix: seq<Part>)
    requires Collect(allowed, r, prefix).Refused?
    ensures Collect(allowed, r, prefix).error
         == if FileReached(r) then NotAllowed(FileType(r.rest[FirstFile(r.rest)].part))
            else if EndReached(r) then NoFile
            else Unreadable(r.cause)
    decreases |r.rest|
  {
    if NextPart(r).Opened? && !IsFile(r.rest[0].part) {
      var p, b := r.rest[0].part, ReadBody(NextPart(r).r, r.rest[0].part);
      if b.whole {
        RefusedBecause(allowed, b.r, prefix + [p]);
        FieldPassed(r, b.r);
      }
    }
  }

  /** Reading past a form field changes nothing about what is reached later. */
  lemma FieldPassed(r: Reader, r': Reader)
    requires NextPart(r).Opened? && !IsFile(r.rest[0].part)
    requires ReadBody(NextPart(r).r, r.rest[0].part).whole && ReadBody(NextPart(r).r, r.rest[0].part).r == r'
    ensures FirstFile(r.rest) == 1 + FirstFile(r'.rest)
    ensures FileReached(r) <==> FileReached(r')
    ensures EndReached(r) <==> EndReached(r')
  {
  }

  /** After the header checks: 415 when the first file is reached and not allowed; otherwise 400 when
      the body ends without a file, 413 when the cap is what stops it, and 400 again when it breaks
      off by itself. */
  lemma AnsweredAfterChecks(allowed: seq<string>, maxBytes: int, q: Request)
    requires Precheck(q, maxBytes).None?
    ensures var r := Open(q.parts, q.tail, maxBytes, q.fault, q.held);
            var capFirst := CapFirst(maxBytes, q.fault);
            var d := Decide(allowed, maxBytes, q);
            && (d.Upstream? <==> FileReached(r) && Allows(allowed, FileType(q.parts[FirstFile(q.parts)].part)))
            && (d == Answer(415) <==> FileReached(r) && !Allows(allowed, FileType(q.parts[FirstFile(q.parts)].part)))
            && (d == Answer(413) <==> !FileReached(r) && !EndReached(r) && capFirst)
            && (d == Answer(400) <==> !FileReached(r) && (EndReached(r) || !capFirst))
  {
    var r := Open(q.parts, q.tail, maxBytes, q.fault, q.held);
    CollectedIff(allowed, r, []);
    if Collect(allowed, r, []).Refused? {
      RefusedBecause(allowed, r, []);
    }
  }

  /** The first `n` bytes of the body arrive: they are within the cap and before any fault. */
  predicate Arrives(q: Request, maxBytes: int, n: nat) {
    (maxBytes > 0 ==> n <= maxBytes) && (q.fault.Some? ==> n <= q.fault.value)
  }

  /** Every answer of the handler, from the request alone, with exactly the requests that get it. */
  lemma AnswersExactly(allowed: seq<string>, maxBytes: int, q: Request)
    ensures var k, d := FirstFile(q.parts), Decide(allowed, maxBytes, q);
            var form := q.mediaType.Some? && Text.Lower(q.mediaType.value) == "multipart/form-data";
            var tooLong := q.contentLength > 0 && maxBytes > 0 && q.contentLength > maxBytes;
            var checked := q.method_ == "POST" && form && q.boundary != "" && !tooLong;
            var reached := k < |q.parts| && Arrives(q, maxBytes, CostTo(q.parts, k));
            var ended := k == |q.parts| && Arrives(q, maxBytes, Cost(q.parts, q.tail));
            var capped := maxBytes > 0 && (q.fault.None? || maxBytes < q.fault.value);
            var welcome := k < |q.parts| && Allows(allowed, FileType(q.parts[k].part));
            && (d == Answer(405) <==> q.method_ != "POST")
            && (d == Answer(415) <==> q.method_ == "POST" && (!form || (checked && reached && !welcome)))
            && (d == Answer(400) <==>
                  && q.method_ == "POST" && form
                  && (q.boundary == "" || (checked && !reached && (ended || !capped))))
            && (d == Answer(413) <==>
                  && q.method_ == "POST" && form && q.boundary != ""
                  && (tooLong || (checked && !reached && !ended && capped)))
            && (d.Upstream? <==> checked && reached && welcome)
  {
    ArrivesAffords(q, maxBytes);
    if Precheck(q, maxBytes).None? {
      AnsweredAfterChecks(allowed, maxBytes, q);
    }
  }

  lemma ArrivesAffords(q: Request, maxBytes: int)
    ensures var r := Open(q.parts, q.tail, maxBytes, q.fault, q.held);
            forall n: nat :: Arrives(q, maxBytes, n) <==> Affords(r.left, n)
  {
  }

  /** The content type a part is judged by: the first declared value unless there is none or it is
      empty; and form fields are not judged. */
  lemma JudgedBy(allowed: seq<string>, header: Header, fileName: string, body: seq<bv8>)
    ensures Permitted(allowed, Part(header, fileName, body)) <==>
            || fileName == ""
            || if ContentType in header && header[ContentType] != [] && header[ContentType][0] != ""
               then Allows(allowed, header[ContentType][0]) else Allows(allowed, "application/octet-stream")
  {
  }

  /** An upload of one file gets through exactly if its type is allowed and all its bytes, framing and
      closing delimiter included, are within the cap. */
  lemma SingleFileExactly(allowed: seq<string>, frame: nat, p: Part, tail: nat, maxBytes: int, held: nat)
    requires IsFile(p)
    ensures Completes(allowed, Collect(allowed, Open([Framed(frame, p)], tail, maxBytes, None, held), [])) <==>
            Allows(allowed, FileType(p)) && (maxBytes > 0 ==> frame + |p.body| + tail <= maxBytes)
  {
    var r := Open([Framed(frame, p)], tail, maxBytes, None, held);
    CollectCleanIff(allowed, r, []);
    assert r.rest[0].part == p && r.rest[1..] == [];
    assert Cost(r.rest, tail) == frame + |p.body| + Cost(r.rest[1..], tail);
    assert Accepts(allowed, r.rest) <==> Permitted(allowed, p) && Accepts(allowed, r.rest[1..]);
    assert FindsFile(r.rest);
  }

  // ---- Why an upload fails --------------------------------------------------------------------

  /** Index of the first file part that is not allowed, or the number of parts. */
  function FirstRefused(allowed: seq<string>, rest: seq<Framed>): (n: nat)
    ensures n <= |rest|
    ensures n < |rest| ==> !Permitted(allowed, rest[n].part)
    ensures forall i | 0 <= i < n :: Permitted(allowed, rest[i].part)
  {
    if rest == [] || !Permitted(allowed, rest[0].part) then 0 else 1 + FirstRefused(allowed, rest[1..])
  }

  /** What stands in the way of an upload, from the inbound parts alone: the first disallowed file if it
      is reached, or else what stops the body before its end. */
  function Obstacle(allowed: seq<string>, r: Reader): Option<Error> {
    var k := FirstRefused(allowed, r.rest);
    if k < |r.rest| then
      Some(if Affords(r.left, CostTo(r.rest, k)) then NotAllowed(FileType(r.rest[k].part)) else Unreadable(r.cause))
    else if Affords(r.left, Cost(r.rest, r.tail)) then None
    else Some(Unreadable(r.cause))
  }

  /** Past a part that is read whole, the same stands in the way. */
  lemma ObstacleStays(allowed: seq<string>, r: Reader)
    requires NextPart(r).Opened? && Permitted(allowed, NextPart(r).part)
    ensures var b := ReadBody(NextPart(r).r, NextPart(r).part);
            Obstacle(allowed, r) == if b.whole then Obstacle(allowed, b.r) else Some(Unreadable(r.cause))
  {
    var p, r1 := NextPart(r).part, NextPart(r).r;
    var k := FirstRefused(allowed, r1.rest);
    assert FirstRefused(allowed, r.rest) == k + 1;
    if k < |r1.rest| {
      assert r1.rest[k] == r.rest[k + 1];
      assert CostTo(r.rest, k + 1) == r.rest[0].frame + (|p.body| + CostTo(r1.rest, k));
      PastPart(r, p, r1, CostTo(r1.rest, k));
    } else {
      assert Cost(r.rest, r.tail) == r.rest[0].frame + (|p.body| + Cost(r1.rest, r.tail));
      PastPart(r, p, r1, Cost(r1.rest, r.tail));
    }
  }

  /** The budget past a frame and a body. */
  lemma PastPart(r: Reader, p: Part, r1: Reader, n: nat)
    requires r.rest != [] && NextPart(r) == Opened(p, r1)
    ensures var b := ReadBody(r1, p);
            Affords(r.left, r.rest[0].frame + (|p.body| + n)) <==> b.whole && Affords(b.r.left, n)
  {
    AffordsInTurn(r.left, r.rest[0].frame, |p.body| + n);
    AffordsInTurn(r1.left, |p.body|, n);
  }

  lemma {:induction false} ForwardBecause(allowed: seq<string>, r: Reader)
    ensures ForwardPlan(allowed, r).error == Obstacle(allowed, r)
    decreases |r.rest|
  {
    if NextPart(r).Opened? && Permitted(allowed, NextPart(r).part) {
      var b := ReadBody(NextPart(r).r, NextPart(r).part);
      ObstacleStays(allowed, r);
      if b.whole {
        ForwardBecause(allowed, b.r);
      }
    } else {
      ObstacleAtOnce(allowed, r);
    }
  }

  lemma ObstacleAtOnce(allowed: seq<string>, r: Reader)
    requires !(NextPart(r).Opened? && Permitted(allowed, NextPart(r).part))
    ensures Obstacle(allowed, r) == match NextPart(r)
            case Eof => None
            case Fault => Some(Unreadable(r.cause))
            case Opened(p, _) => Some(NotAllowed(FileType(p)))
  {
    if r.rest != [] && !NextPart(r).Opened? {
      NothingReached(allowed, r);
    }
  }

  /** A body that stops before its next part opens reaches nothing beyond. */
  lemma NothingReached(allowed: seq<string>, r: Reader)
    requires r.rest != [] && !Affords(r.left, r.rest[0].frame)
    ensures !Affords(r.left, Cost(r.rest, r.tail))
    ensures forall k | 0 <= k < |r.rest| :: !Affords(r.left, CostTo(r.rest, k))
  {
  }

  /** An upload that was admitted ends with just the error that stands in its way, or none. */
  lemma {:induction false} FailsBecause(allowed: seq<string>, r: Reader, prefix: seq<Part>)
    requires Collect(allowed, r, prefix).Collected?
    ensures StreamPlan(allowed, Collect(allowed, r, prefix)).error == Obstacle(allowed, r)
    decreases |r.rest|
  {
    var p, b := NextPart(r).part, ReadBody(NextPart(r).r, NextPart(r).part);
    ObstacleStays(allowed, r);
    if IsFile(p) {
      ForwardBecause(allowed, b.r);
    } else {
      FailsBecause(allowed, b.r, prefix + [p]);
    }
  }

  /** At the boundary: a body that breaks off after exactly MaxBytes bytes is malformed, not too
      large; one more byte and it is too large. */
  lemma BreakAtTheCap(allowed: seq<string>, maxBytes: int, q: Request)
    requires Precheck(q, maxBytes).None? && maxBytes > 0
    ensures var r := Open(q.parts, q.tail, maxBytes, q.fault, q.held);
            var stopped := !FileReached(r) && !EndReached(r);
            && (q.fault == Some(maxBytes) && stopped ==> Decide(allowed, maxBytes, q) == Answer(400))
            && (q.fault == Some(maxBytes + 1) && stopped ==> Decide(allowed, maxBytes, q) == Answer(413))
  {
    AnsweredAfterChecks(allowed, maxBytes, q);
  }

  // ---- The handler as a program ---------------------------------------------------------------

  /** multipart.Reader over the capped body. */
  class PartReader {
    var rest: seq<Framed>
    var tail: nat
    var left: Option<nat>
    var cause: Cause
    var held: nat

    function View(): Reader
      reads this
    {
      Reader(rest, tail, left, cause, held)
    }

    constructor (r: Reader)
      ensures View() == r
    {
      rest, tail, left, cause, held := r.rest, r.tail, r.left, r.cause, r.held;
    }

    /** The next part, or None with whether the body ended cleanly. */
    method Next() returns (p: Option<Part>, eof: bool)
      modifies this
      ensures match NextPart(old(View()))
              case Eof => p.None? && eof && View() == old(View())
              case Fault => p.None? && !eof && View() == old(View())
              case Opened(q, r) => p == Some(q) && View() == r
    {
      if rest == [] {
        return None, Affords(left, tail);
      }
      var f := rest[0];
      if !Affords(left, f.frame) {
        return None, false;
      }
      rest, left := rest[1..], Spend(left, f.frame);
      return Some(f.part), false;
    }

    method Read(p: Part) returns (data: seq<bv8>, whole: bool)
      modifies this
      ensures ReadBody(old(View()), p) == Body(data, whole, View())
    {
      if Affords(left, |p.body|) {
        left := Spend(left, |p.body|);
        return p.body, true;
      }
      data := p.body[..if held <= left.value then left.value - held else 0];
      left := Some(0);
      return data, false;
    }

    /** One Read of a part of which `p` is still to come: some bytes, as many as suits the parser,
        or none and whether the part has ended cleanly. */
    method ReadSome(p: Part) returns (chunk: seq<bv8>, clean: bool)
      modifies this
      ensures var b := ReadBody(old(View()), p);
              if chunk != [] then chunk <= b.data && View() == Advance(old(View()), |chunk|)
              else b.data == [] && clean == b.whole && View() == b.r
    {
      var b := ReadBody(View(), p);
      if b.data == [] {
        left := b.r.left;
        return [], b.whole;
      }
      var n: nat :| 1 <= n <= |b.data|;
      left := Spend(left, n);
      return p.body[..n], true;
    }
  }

  /** What has gone through a pipe, and how many more symbols the transport takes before it hangs up
      (None: it never does). */
  datatype Sink = Sink(out: seq<Sym>, room: Option<nat>)

  /** The sink after it was offered `syms`. */
  function Push(k: Sink, syms: seq<Sym>): Sink {
    if Affords(k.room, |syms|) then Sink(k.out + syms, Spend(k.room, |syms|))
    else Sink(k.out + syms[..k.room.value], Some(0))
  }

  /** The write side of the pipe, as the multipart writer uses it. */
  class PartWriter {
    var out: seq<Sym>
    var room: Option<nat>

    function View(): Sink
      reads this
    {
      Sink(out, room)
    }

    constructor (room: Option<nat>)
      ensures View() == Sink([], room)
    {
      out, this.room := [], room;
    }

    method Write(chunk: seq<Sym>) returns (ok: bool)
      modifies this
      ensures View() == Push(old(View()), chunk)
      ensures ok == Affords(old(room), |chunk|)
    {
      ok := Affords(room, |chunk|);
      out := out + if ok then chunk else chunk[..room.value];
      room := if ok then Spend(room, |chunk|) else Some(0);
    }
  }

  /** collectPrefix; `buffer` is what it has read into memory when it returns. */
  method CollectPrefix(allowed: seq<string>, mr: PartReader) returns (c: Collected, ghost buffer: seq<Part>)
    modifies mr
    ensures c == Collect(allowed, old(mr.View()), [])
    ensures c.Collected? ==> mr.View() == c.r && c.prefix == buffer
    ensures buffer == Buffered(old(mr.View()), [])
    ensures old(mr.left).Some? ==> DataCount(Encode(buffer)) <= old(mr.left).value
  {
    if mr.left.Some? {
      BufferWithinBudget(mr.View(), []);
    }
    var prefix: seq<Part> := [];
    while true
      invariant Collect(allowed, mr.View(), prefix) == Collect(allowed, old(mr.View()), [])
      invariant Buffered(mr.View(), prefix) == Buffered(old(mr.View()), [])
      invariant mr.cause == old(mr.cause)
      decreases |mr.rest|
    {
      var p, eof := mr.Next();
      if p.None? {
        return Refused(if eof then NoFile else Unreadable(mr.cause)), prefix;
      }
      if !IsFile(p.value) {
        var data, whole := mr.Read(p.value);
        if !whole {
          return Refused(Unreadable(mr.cause)), prefix + [p.value.(body := data)];
        }
        prefix := prefix + [p.value];
        continue;
      }
      var ok := MIMEAllowed(allowed, FileType(p.value));
      if !ok {
        return Refused(NotAllowed(FileType(p.value))), prefix;
      }
      return Collected(prefix, p.value, mr.View()), prefix;
    }
  }

  /** Where writing a plan gets to. */
  predicate Written(plan: Plan, before: Sink, after: Sink, error: Option<Error>) {
    && after == Push(before, plan.syms)
    && error == if Affords(before.room, |plan.syms|) then plan.error else Some(PipeBroken)
  }

  /** Offering `a` and then, if it was taken, `b` is offering both. */
  lemma PushConcat(k: Sink, a: seq<Sym>, b: seq<Sym>)
    ensures Push(k, a + b) == if Affords(k.room, |a|) then Push(Push(k, a), b) else Push(k, a)
  {
    if !Affords(k.room, |a|) {
      assert (a + b)[..k.room.value] == a[..k.room.value];
    } else if Affords(k.room, |a + b|) {
      assert k.out + (a + b) == (k.out + a) + b;
    } else {
      assert (a + b)[..k.room.value] == a + b[..k.room.value - |a|];
      assert k.out + (a + b[..k.room.value - |a|]) == (k.out + a) + b[..k.room.value - |a|];
    }
  }

  /** Writing one plan and then, if all went well, another is writing both. */
  lemma WrittenThen(a: Plan, b: Plan, k0: Sink, k1: Sink, k2: Sink, e: Option<Error>, f: Option<Error>)
    requires Written(a, k0, k1, e)
    requires if e.Some? then k2 == k1 && f == e else Written(b, k1, k2, f)
    ensures Written(Then(a, b), k0, k2, f)
  {
    PushConcat(k0, a.syms, b.syms);
  }

  /** A part goes out as its head and then its body, in two writes. */
  method WritePart(mw: PartWriter, p: Part, data: seq<bv8>) returns (error: Option<Error>)
    modifies mw
    ensures Written(Plan(Piece(p, data), None), old(mw.View()), mw.View(), error)
  {
    PushConcat(mw.View(), [Head(p.header, p.fileName)], Bytes(data));
    var ok := mw.Write([Head(p.header, p.fileName)]);
    if ok {
      ok := mw.Write(Bytes(data));
    }
    error := if ok then None else Some(PipeBroken);
  }

  /** What is left to copy of an open part. */
  function TailPlan(r: Reader, p: Part): Plan {
    var b := ReadBody(r, p);
    Plan(Bytes(b.data), if b.whole then None else Some(Unreadable(r.cause)))
  }

  /** A chunk and then the rest is the whole tail. */
  lemma ChunkThenTail(r: Reader, p: Part, n: nat)
    requires n <= |ReadBody(r, p).data|
    ensures var r', p' := Advance(r, n), p.(body := p.body[n..]);
            && ReadBody(r', p').r == ReadBody(r, p).r
            && TailPlan(r, p) == Then(Plan(Bytes(p.body[..n]), None), TailPlan(r', p'))
  {
    AdvanceKeepsBody(r, p, n);
    var data := ReadBody(r, p).data;
    assert Bytes(data) == Bytes(data[..n]) + Bytes(data[n..]);
    assert data[..n] == p.body[..n];
  }

  /** io.Copy in copyPart: read a chunk, write it, until the part ends or one of the two fails. */
  method CopyBody(mw: PartWriter, mr: PartReader, p: Part) returns (error: Option<Error>)
    modifies mw, mr
    ensures Written(TailPlan(old(mr.View()), p), old(mw.View()), mw.View(), error)
    ensures error.None? ==> mr.View() == ReadBody(old(mr.View()), p).r
    ensures mr.rest == old(mr.rest)
  {
    var todo := p;
    ghost var done := Plan([], None);
    NothingWritten(mw.View(), None);
    while true
      invariant Written(done, old(mw.View()), mw.View(), None)
      invariant TailPlan(old(mr.View()), p) == Then(done, TailPlan(mr.View(), todo))
      invariant ReadBody(mr.View(), todo).r == ReadBody(old(mr.View()), p).r
      invariant mr.rest == old(mr.rest) && mr.cause == old(mr.cause)
      decreases |todo.body|
    {
      ghost var r0, k0 := mr.View(), mw.View();
      var chunk, clean := mr.ReadSome(todo);
      if chunk == [] {
        return if clean then None else Some(Unreadable(mr.cause));
      }
      ChunkThenTail(r0, todo, |chunk|);
      assert chunk == todo.body[..|chunk|];
      ghost var one := Plan(Bytes(chunk), None);
      todo := todo.(body := todo.body[|chunk|..]);
      ThenAssociates(done, one, TailPlan(mr.View(), todo));
      var ok := mw.Write(Bytes(chunk));
      error := if ok then None else Some(PipeBroken);
      WrittenThen(done, one, old(mw.View()), k0, mw.View(), None, error);
      if error.Some? {
        WrittenThen(Then(done, one), TailPlan(mr.View(), todo), old(mw.View()), mw.View(), mw.View(), error, error);
        return;
      }
      done := Then(done, one);
    }
  }

  /** copyPart: the head, and then the body as it is read. */
  method CopyPart(mw: PartWriter, mr: PartReader, p: Part) returns (error: Option<Error>)
    modifies mw, mr
    ensures Written(PartPlan(old(mr.View()), p), old(mw.View()), mw.View(), error)
    ensures error.None? ==> mr.View() == ReadBody(old(mr.View()), p).r
    ensures mr.rest == old(mr.rest)
  {
    ghost var head, tail := Plan([Head(p.header, p.fileName)], None), TailPlan(mr.View(), p);
    ghost var k0 := mw.View();
    var ok := mw.Write([Head(p.header, p.fileName)]);
    ghost var k1 := mw.View();
    error := if ok then None else Some(PipeBroken);
    ghost var begun := error;
    if ok {
      error := CopyBody(mw, mr, p);
    }
    WrittenThen(head, tail, k0, k1, mw.View(), begun, error);
  }

  lemma EncodeSnoc(parts: seq<Part>, i: nat)
    requires i < |parts|
    ensures Encode(parts[..i + 1]) == Encode(parts[..i]) + Piece(parts[i], parts[i].body)
  {
    assert parts[..i + 1] == parts[..i] + [parts[i]];
    EncodeConcat(parts[..i], [parts[i]]);
    assert Encode([parts[i]]) == Piece(parts[i], parts[i].body);
  }

  lemma EncodeCut(parts: seq<Part>, i: nat)
    requires i <= |parts|
    ensures Encode(parts) == Encode(parts[..i]) + Encode(parts[i..])
  {
    assert parts == parts[..i] + parts[i..];
    EncodeConcat(parts[..i], parts[i..]);
  }

  /** The first loop of streamRest: replay the buffered fields. */
  method ReplayPrefix(mw: PartWriter, prefix: seq<Part>) returns (error: Option<Error>)
    modifies mw
    ensures Written(Plan(Encode(prefix), None), old(mw.View()), mw.View(), error)
  {
    for i := 0 to |prefix|
      invariant Written(Plan(Encode(prefix[..i]), None), old(mw.View()), mw.View(), None)
    {
      ghost var done, k0, k1 := Plan(Encode(prefix[..i]), None), old(mw.View()), mw.View();
      ghost var part, more := Plan(Piece(prefix[i], prefix[i].body), None), Plan(Encode(prefix[i + 1..]), None);
      EncodeSnoc(prefix, i);
      EncodeCut(prefix, i + 1);
      error := WritePart(mw, prefix[i], prefix[i].body);
      WrittenThen(done, part, k0, k1, mw.View(), None, error);
      if error.Some? {
        WrittenThen(Then(done, part), more, k0, mw.View(), mw.View(), error, error);
        return;
      }
    }
    assert prefix[..|prefix|] == prefix;
    return None;
  }

  lemma ThenAssociates(a: Plan, b: Plan, c: Plan)
    ensures Then(Then(a, b), c) == Then(a, Then(b, c))
  {
    assert a.syms + b.syms + c.syms == a.syms + (b.syms + c.syms);
  }

  /** One of the remaining parts, just opened. */
  function OnePlan(allowed: seq<string>, r: Reader, p: Part): Plan {
    if Permitted(allowed, p) then PartPlan(r, p) else Plan([], Some(NotAllowed(FileType(p))))
  }

  lemma ForwardUnfolds(allowed: seq<string>, r: Reader, done: Plan)
    requires NextPart(r).Opened?
    ensures var Opened(p, r1) := NextPart(r);
            var one, more := OnePlan(allowed, r1, p), ForwardPlan(allowed, ReadBody(r1, p).r);
            Then(done, ForwardPlan(allowed, r)) == Then(Then(done, one), more)
  {
    var Opened(p, r1) := NextPart(r);
    ThenAssociates(done, OnePlan(allowed, r1, p), ForwardPlan(allowed, ReadBody(r1, p).r));
  }

  lemma NothingWritten(k: Sink, e: Option<Error>)
    ensures Written(Plan([], e), k, k, e)
  {
    assert k.out + [] == k.out;
  }

  method ForwardPart(allowed: seq<string>, mr: PartReader, mw: PartWriter, p: Part) returns (error: Option<Error>)
    modifies mr, mw
    ensures Written(OnePlan(allowed, old(mr.View()), p), old(mw.View()), mw.View(), error)
    ensures error.None? ==> mr.View() == ReadBody(old(mr.View()), p).r
    ensures mr.rest == old(mr.rest)
  {
    if IsFile(p) {
      var ok := MIMEAllowed(allowed, FileType(p));
      if !ok {
        NothingWritten(mw.View(), Some(NotAllowed(FileType(p))));
        return Some(NotAllowed(FileType(p)));
      }
    }
    error := CopyPart(mw, mr, p);
  }

  /** The last loop of streamRest: the remaining parts. */
  method ForwardRest(allowed: seq<string>, mr: PartReader, mw: PartWriter) returns (error: Option<Error>)
    modifies mr, mw
    ensures Written(ForwardPlan(allowed, old(mr.View())), old(mw.View()), mw.View(), error)
  {
    ghost var plan, k0 := ForwardPlan(allowed, mr.View()), mw.View();
    ghost var done := Plan([], None);
    NothingWritten(k0, None);
    while true
      invariant done.error.None? && plan == Then(done, ForwardPlan(allowed, mr.View()))
      invariant Written(done, k0, mw.View(), None)
      decreases |mr.rest|
    {
      ghost var k1, r0 := mw.View(), mr.View();
      var p, eof := mr.Next();
      if p.None? {
        return if eof then None else Some(Unreadable(mr.cause));
      }
      ForwardUnfolds(allowed, r0, done);
      ghost var one := OnePlan(allowed, mr.View(), p.value);
      ghost var more := ForwardPlan(allowed, ReadBody(mr.View(), p.value).r);
      error := ForwardPart(allowed, mr, mw, p.value);
      WrittenThen(done, one, k0, k1, mw.View(), None, error);
      if error.Some? {
        WrittenThen(Then(done, one), more, k0, mw.View(), mw.View(), error, error);
        return;
      }
      done := Then(done, one);
    }
  }

  /** streamRest: the plan of the two phases, as far as the pipe takes it; its own error if the
      pipe takes it all. */
  method StreamRest(allowed: seq<string>, mr: PartReader, mw: PartWriter, c: Collected) returns (error: Option<Error>)
    requires c.Collected? && mr.View() == c.r
    modifies mr, mw
    ensures Written(StreamPlan(allowed, c), old(mw.View()), mw.View(), error)
  {
    ghost var k0 := mw.View();
    ghost var fields, part := Plan(Encode(c.prefix), None), PartPlan(c.r, c.first);
    ghost var more := ForwardPlan(allowed, ReadBody(c.r, c.first).r);
    error := ReplayPrefix(mw, c.prefix);
    ghost var replayed, k1 := error, mw.View();
    if error.None? {
      error := CopyPart(mw, mr, c.first);
      ghost var copied, k2 := error, mw.View();
      if error.None? {
        error := ForwardRest(allowed, mr, mw);
      }
      WrittenThen(part, more, k1, k2, mw.View(), copied, error);
    }
    WrittenThen(fields, Then(part, more), k0, k1, mw.View(), replayed, error);
  }

  /** The header checks and the synchronous phase of ServeHTTP.  On Upstream the reader stands at
      the open first file. */
  method Admit(allowed: seq<string>, maxBytes: int, q: Request) returns (d: Decision, mr: PartReader)
    ensures fresh(mr) && d == Decide(allowed, maxBytes, q)
    ensures d.Upstream? ==> mr.View() == d.c.r
  {
    mr := new PartReader(Open(q.parts, q.tail, maxBytes, q.fault, q.held));
    if q.method_ != "POST" {
      return Answer(405), mr;
    }
    if q.mediaType.None? || Text.Lower(q.mediaType.value) != "multipart/form-data" {
      return Answer(415), mr;
    }
    if q.boundary == "" {
      return Answer(400), mr;
    }
    if q.contentLength > 0 && maxBytes > 0 && q.contentLength > maxBytes {
      return Answer(413), mr;
    }
    var c, _ := CollectPrefix(allowed, mr);
    match c
    case Refused(e) => return Answer(StatusOf(e)), mr;
    case Collected(_, _, _) => return Upstream(c), mr;
  }
}
