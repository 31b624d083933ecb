/** Inbound multipart data at the level of parts, read under a byte budget, and the symbols that
    the re-encoding writer puts on the upstream pipe. */
module Multipart {
  import opened Wrappers
  import opened Sequences
  import opened Headers
  import opened MimeList

  /** A part: header, file name (empty for a form field) and body. */
  datatype Part = Part(header: Header, fileName: string, body: seq<bv8>)

  /** A part with the bytes of framing (delimiter and header) that precede its body. */
  datatype Framed = Framed(frame: nat, part: Part)

  predicate IsFile(p: Part) {
    p.fileName != ""
  }

  /** The declared type of a file part, or the default. */
  function FileType(p: Part): string {
    var ct := First(p.header, ContentType);
    if ct == "" then "application/octet-stream" else ct
  }

  predicate Permitted(allowed: seq<string>, p: Part) {
    IsFile(p) ==> Allows(allowed, FileType(p))
  }

  // ---- The reader -------------------------------------------------------------------------

  /** Why the inbound body stops: the size cap, or a broken or malformed stream. */
  datatype Cause = TooLarge | Broken

  /** What is still to be read: parts, the closing delimiter, the bytes left before the stream
      stops (None: it does not), why it stops, and how many received bytes the parser holds back
      when it does. */
  datatype Reader = Reader(rest: seq<Framed>, tail: nat, left: Option<nat>, cause: Cause, held: nat)

  /** The cap of http.MaxBytesReader is what stops a body: it reports itself only when a byte beyond
      it arrives, so a stream that breaks off after exactly `maxBytes` bytes fails by itself. */
  predicate CapFirst(maxBytes: int, fault: Option<nat>) {
    maxBytes > 0 && (fault.None? || maxBytes < fault.value)
  }

  /** The reader over a request body: `maxBytes` of http.MaxBytesReader when positive, and
      possibly an earlier fault of the client's stream. */
  function Open(parts: seq<Framed>, tail: nat, maxBytes: int, fault: Option<nat>, held: nat): Reader {
    if CapFirst(maxBytes, fault)
    then Reader(parts, tail, Some(maxBytes), TooLarge, held)
    else Reader(parts, tail, fault, Broken, held)
  }

  predicate Affords(left: Option<nat>, n: nat) {
    left.None? || n <= left.value
  }

  function Spend(left: Option<nat>, n: nat): Option<nat>
    requires Affords(left, n)
  {
    if left.None? then None else Some(left.value - n)
  }

  datatype Next = Eof | Fault | Opened(part: Part, r: Reader)

  function NextPart(r: Reader): (n: Next)
    ensures n.Opened? ==> |n.r.rest| < |r.rest|
  {
    if r.rest == [] then (if Affords(r.left, r.tail) then Eof else Fault)
    else if Affords(r.left, r.rest[0].frame)
    then Opened(r.rest[0].part, r.(rest := r.rest[1..], left := Spend(r.left, r.rest[0].frame)))
    else Fault
  }

  /** A body read to its end or to the point where the stream stops. */
  datatype Body = Body(data: seq<bv8>, whole: bool, r: Reader)

  function ReadBody(r: Reader, p: Part): (b: Body)
    ensures b.r.rest == r.rest && b.data <= p.body
    ensures b.whole ==> b.data == p.body
    ensures b.whole <==> r.left.None? || |p.body| <= r.left.value
    ensures !b.whole ==> |b.data| == if r.left.value <= r.held then 0 else r.left.value - r.held
  {
    if Affords(r.left, |p.body|) then Body(p.body, true, r.(left := Spend(r.left, |p.body|)))
    else Body(p.body[..if r.held <= r.left.value then r.left.value - r.held else 0], false, r.(left := Some(0)))
  }

  /** The reader after `n` bytes of an open part. */
  function Advance(r: Reader, n: nat): Reader
    requires Affords(r.left, n)
  {
    r.(left := Spend(r.left, n))
  }

  /** Reading a body in pieces gives the same bytes and the same end as reading it at once. */
  lemma AdvanceKeepsBody(r: Reader, p: Part, n: nat)
    requires n <= |ReadBody(r, p).data|
    ensures Affords(r.left, n)
    ensures var b, b' := ReadBody(r, p), ReadBody(Advance(r, n), p.(body := p.body[n..]));
            b'.data == b.data[n..] && b'.whole == b.whole && b'.r == b.r
  {
  }

  function PartsOf(rest: seq<Framed>): seq<Part> {
    if rest == [] then [] else [rest[0].part] + PartsOf(rest[1..])
  }

  // ---- The writer -------------------------------------------------------------------------

  /** What travels on the pipe: the opening of a part, a body byte, the closing boundary. */
  datatype Sym = Head(header: Header, fileName: string) | Data(byte: bv8) | Final

  function Bytes(data: seq<bv8>): (s: seq<Sym>)
    ensures |s| == |data|
    ensures forall i | 0 <= i < |s| :: s[i] == Data(data[i])
  {
    seq(|data|, i requires 0 <= i < |data| => Data(data[i]))
  }

  /** A part whose body got through as far as `data`. */
  function Piece(p: Part, data: seq<bv8>): seq<Sym> {
    [Head(p.header, p.fileName)] + Bytes(data)
  }

  function Encode(parts: seq<Part>): seq<Sym> {
    if parts == [] then [] else Piece(parts[0], parts[0].body) + Encode(parts[1..])
  }

  lemma {:induction false} EncodeConcat(a: seq<Part>, b: seq<Part>)
    ensures Encode(a + b) == Encode(a) + Encode(b)
  {
    if a == [] {
      assert a + b == b;
    } else {
      assert (a + b)[1..] == a[1..] + b;
      EncodeConcat(a[1..], b);
    }
  }

  function DataCount(s: seq<Sym>): nat {
    if s == [] then 0 else DataCount(s[..|s| - 1]) + if s[|s| - 1].Data? then 1 else 0
  }

  lemma {:induction false} DataCountConcat(a: seq<Sym>, b: seq<Sym>)
    ensures DataCount(a + b) == DataCount(a) + DataCount(b)
  {
    if b == [] {
      assert a + b == a;
    } else {
      assert (a + b)[..|a + b| - 1] == a + b[..|b| - 1];
      DataCountConcat(a, b[..|b| - 1]);
    }
  }

  lemma {:induction false} DataCountBytes(data: seq<bv8>)
    ensures DataCount(Bytes(data)) == |data|
  {
    if data != [] {
      assert Bytes(data)[..|data| - 1] == Bytes(data[..|data| - 1]);
      DataCountBytes(data[..|data| - 1]);
    }
  }

  lemma DataCountPiece(p: Part, data: seq<bv8>)
    ensures DataCount(Piece(p, data)) == |data|
  {
    DataCountConcat([Head(p.header, p.fileName)], Bytes(data));
    DataCountBytes(data);
    assert DataCount([Head(p.header, p.fileName)]) == 0;
  }

  /** Taking fewer symbols takes no more data. */
  lemma DataCountPrefix(a: seq<Sym>, b: seq<Sym>)
    requires a <= b
    ensures DataCount(a) <= DataCount(b)
  {
    assert b == a + b[|a|..];
    DataCountConcat(a, b[|a|..]);
  }

  /** The first `k` parts whole, and possibly `data` of the next one. */
  function Truncated(parts: seq<Part>, k: nat, data: Option<seq<bv8>>): seq<Sym>
    requires if data.Some? then k < |parts| else k <= |parts|
  {
    Encode(parts[..k]) + if data.Some? then Piece(parts[k], data.value) else []
  }

  lemma TruncatedAfterFirst(parts: seq<Part>, k: nat, data: Option<seq<bv8>>)
    requires parts != [] && if data.Some? then k < |parts[1..]| else k <= |parts[1..]|
    ensures Truncated(parts, k + 1, data) == Piece(parts[0], parts[0].body) + Truncated(parts[1..], k, data)
  {
    assert parts[..k + 1][1..] == parts[1..][..k];
  }

  /** A prefix of an encoding is whole parts and at most one cut short. */
  lemma {:induction false} PrefixIsTruncation(parts: seq<Part>, s: seq<Sym>) returns (k: nat, data: Option<seq<bv8>>)
    requires s <= Encode(parts)
    ensures if data.Some? then k < |parts| && data.value <= parts[k].body else k <= |parts|
    ensures s == Truncated(parts, k, data)
  {
    if s == [] {
      k, data := 0, None;
    } else {
      var p, whole := parts[0], Piece(parts[0], parts[0].body);
      if |s| < |whole| {
        k, data := 0, Some(p.body[..|s| - 1]);
        assert s == whole[..|s|] == Piece(p, p.body[..|s| - 1]);
      } else {
        var t := s[|whole|..];
        assert s == whole + t;
        assert t == Encode(parts)[|whole|..][..|t|] && Encode(parts)[|whole|..] == Encode(parts[1..]);
        var j;
        j, data := PrefixIsTruncation(parts[1..], t);
        k := j + 1;
        TruncatedAfterFirst(parts, j, data);
      }
    }
  }

  // ---- What the symbols say ---------------------------------------------------------------------

  /** One symbol more: a Head opens a part with its header and file name, a byte goes to the body of
      the part that is open. */
  function Read(parts: seq<Part>, x: Sym): seq<Part> {
    match x
    case Head(header, fileName) => parts + [Part(header, fileName, [])]
    case Data(byte) =>
      if parts == [] then []
      else parts[..|parts| - 1] + [parts[|parts| - 1].(body := parts[|parts| - 1].body + [byte])]
    case Final => parts
  }

  /** The parts that a reader of the pipe finds, told by the symbols alone. */
  function Decode(syms: seq<Sym>): seq<Part> {
    if syms == [] then [] else Read(Decode(syms[..|syms| - 1]), syms[|syms| - 1])
  }

  lemma DecodeSnoc(syms: seq<Sym>, x: Sym)
    ensures Decode(syms + [x]) == Read(Decode(syms), x)
  {
    assert (syms + [x])[..|syms|] == syms;
  }

  /** Bytes after an open part extend its body. */
  lemma {:induction false} DecodeBytes(syms: seq<Sym>, parts: seq<Part>, p: Part, data: seq<bv8>)
    requires Decode(syms) == parts + [p]
    ensures Decode(syms + Bytes(data)) == parts + [p.(body := p.body + data)]
  {
    if data == [] {
      assert syms + Bytes(data) == syms && p.body + data == p.body;
    } else {
      var n := |data| - 1;
      DecodeBytes(syms, parts, p, data[..n]);
      BytesSnoc(data[..n], data[n]);
      assert data[..n] + [data[n]] == data;
      AppendAssociates(syms, Bytes(data[..n]), [Data(data[n])]);
      DecodeSnoc(syms + Bytes(data[..n]), Data(data[n]));
      ReadByte(parts, p.(body := p.body + data[..n]), data[n]);
      AppendAssociates(p.body, data[..n], [data[n]]);
    }
  }

  lemma BytesSnoc(data: seq<bv8>, byte: bv8)
    ensures Bytes(data + [byte]) == Bytes(data) + [Data(byte)]
  {
  }

  lemma ReadByte(parts: seq<Part>, p: Part, byte: bv8)
    ensures Read(parts + [p], Data(byte)) == parts + [p.(body := p.body + [byte])]
  {
    SnocLast(parts, p);
  }

  lemma DecodePiece(syms: seq<Sym>, p: Part, data: seq<bv8>)
    ensures Decode(syms + Piece(p, data)) == Decode(syms) + [p.(body := data)]
  {
    var head := [Head(p.header, p.fileName)];
    DecodeSnoc(syms, Head(p.header, p.fileName));
    DecodeBytes(syms + head, Decode(syms), Part(p.header, p.fileName, []), data);
    AppendAssociates(syms, head, Bytes(data));
    assert [] + data == data;
  }

  /** An encoding says exactly its parts: header, file name and body of each, in order. */
  lemma {:induction false} DecodeEncode(syms: seq<Sym>, parts: seq<Part>)
    ensures Decode(syms + Encode(parts)) == Decode(syms) + parts
    decreases |parts|
  {
    if parts == [] {
      assert syms + Encode(parts) == syms;
    } else {
      var piece := Piece(parts[0], parts[0].body);
      DecodePiece(syms, parts[0], parts[0].body);
      DecodeEncode(syms + piece, parts[1..]);
      AppendAssociates(syms, piece, Encode(parts[1..]));
      AppendAssociates(Decode(syms), [parts[0]], parts[1..]);
      assert [parts[0]] + parts[1..] == parts && parts[0].(body := parts[0].body) == parts[0];
    }
  }

  lemma EncodeSaysParts(parts: seq<Part>)
    ensures Decode(Encode(parts)) == parts && Decode(Encode(parts) + [Final]) == parts
  {
    DecodeEncode([], parts);
    assert [] + Encode(parts) == Encode(parts);
    DecodeSnoc(Encode(parts), Final);
  }

  /** The parts are the inbound ones in order: whole, but for the last, whose body may be cut. */
  predicate Received(got: seq<Part>, parts: seq<Part>) {
    && |got| <= |parts|
    && (forall i | 0 <= i < |got| - 1 :: got[i] == parts[i])
    && (got != [] ==>
          var last := |got| - 1;
          && got[last].header == parts[last].header && got[last].fileName == parts[last].fileName
          && got[last].body <= parts[last].body)
  }

  lemma TruncatedIsReceived(parts: seq<Part>, k: nat, data: Option<seq<bv8>>)
    requires if data.Some? then k < |parts| && data.value <= parts[k].body else k <= |parts|
    ensures Received(Decode(Truncated(parts, k, data)), parts)
  {
    EncodeSaysParts(parts[..k]);
    match data
    case None => assert Truncated(parts, k, data) == Encode(parts[..k]);
    case Some(bytes) => DecodePiece(Encode(parts[..k]), parts[k], bytes);
  }
}
