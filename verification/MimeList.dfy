/** The MIME allowlist: parsing the comma-separated list and matching a content type. */
module MimeList {
  import opened Text

  /** What a content type is reduced to: the part before the first ';', lower-cased and trimmed. */
  function MediaType(contentType: string): string {
    Trim(Lower(contentType[..IndexOf(contentType, ';')]))
  }

  /** An entry matches itself, and a wildcard (a type, a slash, a star) matches whatever starts with
      its type and slash. */
  predicate EntryMatches(entry: string, mediaType: string) {
    entry == mediaType || (HasSuffix(entry, "/*") && HasPrefix(mediaType, entry[..|entry| - 1]))
  }

  /** An empty list allows everything; otherwise some entry must match a non-blank type. */
  predicate Allows(entries: seq<string>, contentType: string) {
    || entries == []
    || (MediaType(contentType) != "" && exists e | e in entries :: EntryMatches(e, MediaType(contentType)))
  }

  /** With a semicolon at `k` of the trimmed text, what precedes it there and in the whole text ... */
  lemma CutTrimmed(a: string, m: string, b: string, k: nat)
    requires AllSpace(a) && k < |m| && m[k] == ';' && ';' !in m[..k]
    ensures MediaType(a + m + b) == Trim(Lower(m[..k]))
  {
    var s := a + m + b;
    assert s[..|a| + k] == a + m[..k];
    IndexOfFirst(s, ';', |a| + k);
    LowerConcat(a, m[..k]);
    TrimPads(Lower(a), Lower(m[..k]), "");
    assert Lower(a) + Lower(m[..k]) + "" == Lower(a) + Lower(m[..k]);
  }

  /** ... and without one. */
  lemma NothingToCut(a: string, m: string, b: string)
    requires AllSpace(a) && AllSpace(b) && ';' !in m
    ensures MediaType(a + m + b) == Trim(Lower(m))
  {
    var s := a + m + b;
    IndexOfFirst(s, ';', |s|);
    assert s[..|s|] == s;
    LowerConcat(a + m, b);
    LowerConcat(a, m);
    TrimPads(Lower(a), Lower(m), Lower(b));
  }

  /** The program trims and lower-cases first and cuts at ';' afterwards; the result is the same. */
  lemma NormalisedIsMediaType(contentType: string)
    ensures var ct := Lower(Trim(contentType)); var i := IndexOf(ct, ';');
            (if i < |ct| then Trim(ct[..i]) else ct) == MediaType(contentType)
  {
    var a, b := TrimParts(contentType);
    var m := Trim(contentType);
    var k := IndexOf(m, ';');
    IndexOfFirst(Lower(m), ';', k);
    if k < |m| {
      assert Lower(m)[..k] == Lower(m[..k]);
      CutTrimmed(a, m, b, k);
    } else {
      NothingToCut(a, m, b);
      TrimmedStaysTrimmed(contentType);
    }
  }

  lemma TrimmedStaysTrimmed(s: string)
    ensures Trim(Lower(Trim(s))) == Lower(Trim(s))
  {
    var a, b := TrimParts(s);
    TightTrims(Trim(s));
    TrimLower(Trim(s));
  }

  /** Config.MIMEAllowed */
  method MIMEAllowed(filesAllowedMIME: seq<string>, contentType: string) returns (ok: bool)
    ensures ok == Allows(filesAllowedMIME, contentType)
  {
    if |filesAllowedMIME| == 0 {
      return true;
    }
    var ct := Lower(Trim(contentType));
    NormalisedIsMediaType(contentType);
    var i := IndexOf(ct, ';');
    if i < |ct| {
      ct := Trim(ct[..i]);
    }
    assert ct == MediaType(contentType);
    if ct == "" {
      return false;
    }
    for n := 0 to |filesAllowedMIME|
      invariant forall m | 0 <= m < n :: !EntryMatches(filesAllowedMIME[m], ct)
    {
      var allowed := filesAllowedMIME[n];
      assert allowed in filesAllowedMIME;
      if allowed == ct {
        assert EntryMatches(allowed, ct);
        return true;
      }
      if HasSuffix(allowed, "/*") {
        var prefix := allowed[..|allowed| - 1];
        if HasPrefix(ct, prefix) {
          assert EntryMatches(allowed, ct);
          return true;
        }
      }
    }
    return false;
  }

  // ---- The list ---------------------------------------------------------------------------

  /** strings.Split(raw, ",") */
  function Split(raw: string): (segments: seq<string>)
    ensures |segments| > 0
    decreases |raw|
  {
    var i := IndexOf(raw, ',');
    if i == |raw| then [raw] else [raw[..i]] + Split(raw[i + 1..])
  }

  function Normalise(segment: string): string {
    Lower(Trim(segment))
  }

  function Entries(segments: seq<string>): seq<string> {
    if segments == [] then []
    else
      var init, v := Entries(segments[..|segments| - 1]), Normalise(segments[|segments| - 1]);
      if v != "" then init + [v] else init
  }

  /** Entries keep the order of the items: those of a list and its continuation, one after the other. */
  lemma {:induction false} EntriesInOrder(a: seq<string>, b: seq<string>)
    ensures Entries(a + b) == Entries(a) + Entries(b)
    ensures forall s :: Entries([s]) == if Lower(Trim(s)) == "" then [] else [Lower(Trim(s))]
  {
    forall s ensures Entries([s]) == if Lower(Trim(s)) == "" then [] else [Lower(Trim(s))] {
      assert [s][..0] == [];
    }
    if b == [] {
      assert a + b == a;
    } else {
      assert (a + b)[..|a + b| - 1] == a + b[..|b| - 1];
      EntriesInOrder(a, b[..|b| - 1]);
    }
  }

  lemma EntriesSnoc(segments: seq<string>, n: nat)
    requires n < |segments|
    ensures var v := Normalise(segments[n]);
            Entries(segments[..n + 1]) == if v != "" then Entries(segments[..n]) + [v] else Entries(segments[..n])
  {
    assert segments[..n + 1][..n] == segments[..n];
  }

  /** parseMIMEList */
  method ParseMIMEList(raw: string) returns (out: seq<string>)
    ensures out == Entries(Split(raw))
  {
    if Trim(raw) == "" {
      BlankHasNoEntries(raw);
      return [];
    }
    var parts := Split(raw);
    out := [];
    for n := 0 to |parts|
      invariant out == Entries(parts[..n])
    {
      EntriesSnoc(parts, n);
      var v := Lower(Trim(parts[n]));
      if v != "" {
        out := out + [v];
      }
    }
    assert parts[..|parts|] == parts;
  }

  lemma BlankHasNoEntries(raw: string)
    requires Trim(raw) == ""
    ensures Entries(Split(raw)) == []
  {
    var a, b := TrimParts(raw);
    assert raw == a + b;
    assert AllSpace(raw);
    IndexOfFirst(raw, ',', |raw|);
    assert Split(raw) == [raw];
    assert Entries([raw][..0]) == [];
  }

  /** `raw[i..j]` lies between two commas or ends of the string and contains none. */
  predicate IsSegment(raw: string, i: int, j: int) {
    && 0 <= i <= j <= |raw|
    && (i == 0 || raw[i - 1] == ',') && (j == |raw| || raw[j] == ',')
    && forall k | i <= k < j :: raw[k] != ','
  }

  /** Segments after a comma are those of the rest of the string. */
  lemma SegmentsAfterComma(raw: string, d: nat, i: nat, j: nat)
    requires 0 < d <= |raw| && raw[d - 1] == ','
    ensures IsSegment(raw[d..], i, j) <==> IsSegment(raw, d + i, d + j)
    ensures i <= j <= |raw| - d ==> raw[d..][i..j] == raw[d + i..d + j]
  {
    if IsSegment(raw[d..], i, j) {
      forall k | d + i <= k < d + j ensures raw[k] != ',' {
        assert raw[d..][k - d] == raw[k];
      }
    }
  }

  lemma ShiftedSegment(raw: string, d: nat, i: nat, j: nat, seg: string) returns (i': nat, j': nat)
    requires 0 < d <= |raw| && raw[d - 1] == ','
    requires IsSegment(raw[d..], i, j) && seg == raw[d..][i..j]
    ensures IsSegment(raw, i', j') && seg == raw[i'..j']
  {
    SegmentsAfterComma(raw, d, i, j);
    i', j' := d + i, d + j;
  }

  lemma HeadSegment(raw: string)
    ensures IsSegment(raw, 0, IndexOf(raw, ',')) && raw[0..IndexOf(raw, ',')] == Split(raw)[0]
  {
    var n := IndexOf(raw, ',');
    assert raw[0..n] == raw[..n] && (n == |raw| ==> raw[..n] == raw);
  }

  lemma {:induction false} SplitGivesSegments(raw: string, k: nat, seg: string) returns (i: nat, j: nat)
    requires k < |Split(raw)| && Split(raw)[k] == seg
    ensures IsSegment(raw, i, j) && seg == raw[i..j]
    decreases |raw|
  {
    var n := IndexOf(raw, ',');
    if k == 0 {
      HeadSegment(raw);
      i, j := 0, n;
    } else {
      var rest := raw[n + 1..];
      SplitTail(raw);
      assert Split(rest)[k - 1] == seg;
      var i', j' := SplitGivesSegments(rest, k - 1, seg);
      i, j := ShiftedSegment(raw, n + 1, i', j', seg);
    }
  }

  /** A segment that does not start the text, as a segment of what follows the first comma. */
  lemma SegmentOfRest(raw: string, i: nat, j: nat)
    requires IsSegment(raw, i, j) && i > 0
    ensures var n := IndexOf(raw, ',');
            && n < i <= j <= |raw| && IsSegment(raw[n + 1..], i - n - 1, j - n - 1)
            && raw[n + 1..][i - n - 1..j - n - 1] == raw[i..j]
  {
    var n := IndexOf(raw, ',');
    assert raw[i - 1] == ',' && n < i;
    SegmentsAfterComma(raw, n + 1, i - n - 1, j - n - 1);
  }

  lemma FirstSegment(raw: string, j: nat)
    requires IsSegment(raw, 0, j)
    ensures Split(raw)[0] == raw[0..j]
  {
    HeadSegment(raw);
    IndexOfFirst(raw, ',', j);
  }

  lemma {:induction false} SegmentsAreSplit(raw: string, i: nat, j: nat) returns (k: nat)
    requires IsSegment(raw, i, j)
    ensures k < |Split(raw)| && Split(raw)[k] == raw[i..j]
    decreases |raw|
  {
    var n := IndexOf(raw, ',');
    if i == 0 {
      FirstSegment(raw, j);
      k := 0;
    } else {
      SegmentOfRest(raw, i, j);
      k := SegmentsAreSplit(raw[n + 1..], i - n - 1, j - n - 1);
      k := AfterFirst(raw, raw[i..j], k);
    }
  }

  lemma AfterFirst(raw: string, seg: string, k: nat) returns (k': nat)
    requires IndexOf(raw, ',') < |raw|
    requires var rest := Split(raw[IndexOf(raw, ',') + 1..]); k < |rest| && rest[k] == seg
    ensures k' < |Split(raw)| && Split(raw)[k'] == seg
  {
    SplitTail(raw);
    k' := k + 1;
  }

  lemma SplitTail(raw: string)
    requires IndexOf(raw, ',') < |raw|
    ensures var rest := Split(raw[IndexOf(raw, ',') + 1..]);
            |Split(raw)| == 1 + |rest| && forall k | 0 <= k < |rest| :: Split(raw)[k + 1] == rest[k]
  {
  }

  /** Some item normalises to `e`. */
  predicate Lists(segments: seq<string>, e: string) {
    exists s | s in segments :: Normalise(s) == e
  }

  lemma {:induction false} EntriesAreSegments(segments: seq<string>, e: string)
    ensures e in Entries(segments) <==> e != "" && Lists(segments, e)
  {
    if segments != [] {
      var init, last := segments[..|segments| - 1], segments[|segments| - 1];
      EntriesAreSegments(init, e);
      assert segments == init + [last];
      assert Lists(segments, e) <==> Lists(init, e) || Normalise(last) == e;
    }
  }

  // ---- The match, on text ---------------------------------------------------------------------

  /** `e` is a wildcard for the type of `m`: the same type before a slash, and a star after it. */
  predicate Wildcard(e: string, m: string, kind: string, sub: string) {
    e == kind + "/*" && m == kind + "/" + sub
  }

  lemma EntryMatchesExactly(e: string, m: string)
    ensures EntryMatches(e, m) <==> e == m || exists kind, sub :: Wildcard(e, m, kind, sub)
  {
    if HasSuffix(e, "/*") && HasPrefix(m, e[..|e| - 1]) {
      var kind, sub := e[..|e| - 2], m[|e| - 1..];
      assert e == kind + "/*";
      assert e[..|e| - 1] == kind + "/";
      assert Wildcard(e, m, kind, sub);
    }
    if kind, sub :| Wildcard(e, m, kind, sub) {
      assert e[|e| - 2..] == "/*";
      assert e[..|e| - 1] == kind + "/" == m[..|e| - 1];
    }
  }

  /** What a list allows, exactly: anything when it is empty; otherwise a type that is not blank and is
      an entry, or of the type of a wildcard entry. */
  lemma AllowsExactly(entries: seq<string>, contentType: string)
    ensures var m := MediaType(contentType);
            Allows(entries, contentType) <==>
            || entries == []
            || (m != "" && exists e | e in entries :: e == m || exists kind, sub :: Wildcard(e, m, kind, sub))
  {
    var m := MediaType(contentType);
    forall e | e in entries ensures EntryMatches(e, m) <==> e == m || exists kind, sub :: Wildcard(e, m, kind, sub) {
      EntryMatchesExactly(e, m);
    }
  }

  /** The media type of a content type, exactly: the text before any parameters, between white space,
      in lower case. */
  lemma MediaTypeIs(a: string, x: string, b: string, params: string)
    requires AllSpace(a) && AllSpace(b) && Tight(x) && ';' !in x
    ensures MediaType(a + x + b) == Lower(x) && MediaType(a + x + b + ";" + params) == Lower(x)
  {
    NothingToCut(a, x, b);
    TightLower(x);
    TightTrims(Lower(x));
    assert forall c | c in a + x + b :: c in a || c in x || c in b;
    TypeParametersIrrelevant(a + x + b, params);
  }

  lemma TightLower(x: string)
    requires Tight(x)
    ensures Tight(Lower(x))
  {
  }

  /** A list with one entry allows a plain media type exactly if it names it, or is a wildcard for it. */
  lemma OneEntryExactly(e: string, m: string)
    requires Tight(m) && Lower(m) == m && ';' !in m
    ensures Allows([e], m) <==> m != "" && (m == e || exists kind, sub :: Wildcard(e, m, kind, sub))
  {
    OwnMediaType(m);
    AllowsExactly([e], m);
    assert e in [e];
  }

  /** A wildcard allows every subtype of its type. */
  lemma WildcardAllows(kind: string, sub: string)
    requires var m := kind + "/" + sub; Tight(m) && Lower(m) == m && ';' !in m
    ensures Allows([kind + "/*"], kind + "/" + sub)
  {
    assert Wildcard(kind + "/*", kind + "/" + sub, kind, sub);
    OneEntryExactly(kind + "/*", kind + "/" + sub);
  }

  /** `x` is an item of the list: between two commas or ends, and white space. */
  ghost predicate Listed(raw: string, x: string) {
    x != "" && Tight(x) && exists i, j, a, b :: ItemAt(raw, x, i, j, a, b)
  }

  predicate ItemAt(raw: string, x: string, i: int, j: int, a: string, b: string) {
    IsSegment(raw, i, j) && raw[i..j] == a + x + b && AllSpace(a) && AllSpace(b)
  }

  lemma ItemIsEntry(raw: string, x: string)
    requires Listed(raw, x)
    ensures Lower(x) in Entries(Split(raw))
  {
    var i, j, a, b :| ItemAt(raw, x, i, j, a, b);
    var k := SegmentsAreSplit(raw, i, j);
    TrimUnique(a, x, b);
    assert Normalise(raw[i..j]) == Lower(x);
    EntriesAreSegments(Split(raw), Lower(x));
  }

  lemma EntryIsItem(raw: string, e: string) returns (x: string)
    requires e in Entries(Split(raw))
    ensures Listed(raw, x) && Lower(x) == e
  {
    EntriesAreSegments(Split(raw), e);
    var s :| s in Split(raw) && Normalise(s) == e;
    var k :| 0 <= k < |Split(raw)| && Split(raw)[k] == s;
    var i, j := SplitGivesSegments(raw, k, s);
    var a, b := TrimParts(s);
    x := Trim(s);
    assert ItemAt(raw, x, i, j, a, b);
  }

  /** Parse and match against a definition on the raw text alone: everything is allowed when the list
      has no item; otherwise the type must not be blank and some item, in lower case, must be the type
      or a wildcard for it. */
  lemma AllowlistOnRawText(raw: string, contentType: string)
    ensures var m := MediaType(contentType);
            Allows(Entries(Split(raw)), contentType) <==>
            || (forall x :: !Listed(raw, x))
            || (m != "" && exists x | Listed(raw, x) ::
                  Lower(x) == m || exists kind, sub :: Wildcard(Lower(x), m, kind, sub))
  {
    var entries, m := Entries(Split(raw)), MediaType(contentType);
    AllowsExactly(entries, contentType);
    forall x | Listed(raw, x) ensures Lower(x) in entries {
      ItemIsEntry(raw, x);
    }
    forall e | e in entries ensures exists x :: Listed(raw, x) && Lower(x) == e {
      var x := EntryIsItem(raw, e);
    }
    if entries != [] {
      assert entries[0] in entries;
    }
  }

  // ---- What the match does not depend on ----------------------------------------------------

  lemma TypeCaseIrrelevant(x: string, y: string)
    requires Lower(x) == Lower(y)
    ensures MediaType(x) == MediaType(y)
  {
    var k := IndexOf(x, ';');
    assert forall i | 0 <= i < |x| :: Lower(x)[i] == Lower(y)[i];
    IndexOfFirst(y, ';', k);
    assert Lower(x[..k]) == Lower(x)[..k] == Lower(y[..k]);
  }

  lemma TypePaddingIrrelevant(a: string, x: string, b: string)
    requires AllSpace(a) && AllSpace(b)
    ensures MediaType(a + x + b) == MediaType(x)
  {
    var k, s := IndexOf(x, ';'), a + x + b;
    if k < |x| {
      assert s[..|a| + k] == a + x[..k] + "";
      IndexOfFirst(s, ';', |a| + k);
      LowerConcat(a + x[..k], "");
      LowerConcat(a, x[..k]);
      TrimPads(Lower(a), Lower(x[..k]), "");
    } else {
      assert x[..k] == x && s[..|s|] == s;
      IndexOfFirst(s, ';', |s|);
      LowerConcat(a + x, b);
      LowerConcat(a, x);
      TrimPads(Lower(a), Lower(x), Lower(b));
    }
  }

  lemma TypeParametersIrrelevant(x: string, params: string)
    requires ';' !in x
    ensures MediaType(x + ";" + params) == MediaType(x)
  {
    var s := x + ";" + params;
    assert s[..|x|] == x && x[..|x|] == x;
    IndexOfFirst(s, ';', |x|);
    IndexOfFirst(x, ';', |x|);
  }

  /** Letter case, surrounding white space and parameters of the content type are immaterial. */
  lemma TypeSpellingIrrelevant(a: string, contentType: string, b: string, other: string, params: string)
    requires AllSpace(a) && AllSpace(b) && Lower(other) == Lower(contentType)
    ensures MediaType(a + other + b) == MediaType(contentType)
    ensures ';' !in a + other + b ==> MediaType(a + other + b + ";" + params) == MediaType(contentType)
  {
    TypeCaseIrrelevant(other, contentType);
    TypePaddingIrrelevant(a, other, b);
    if ';' !in a + other + b {
      TypeParametersIrrelevant(a + other + b, params);
    }
  }

  /** Letter case and surrounding white space of a list item are immaterial. */
  lemma EntrySpellingIrrelevant(a: string, segment: string, b: string, other: string)
    requires AllSpace(a) && AllSpace(b) && Lower(other) == Lower(segment)
    ensures Normalise(a + other + b) == Normalise(segment)
  {
    TrimPads(a, other, b);
    TrimLower(other);
    TrimLower(segment);
  }

  /** Only the set of normalised items counts: order, repetition and blank items do not. */
  lemma OrderIrrelevant(segs: seq<string>, segs': seq<string>, contentType: string)
    requires forall e | e != "" :: Lists(segs, e) <==> Lists(segs', e)
    ensures Allows(Entries(segs), contentType) == Allows(Entries(segs'), contentType)
  {
    forall e ensures e in Entries(segs) <==> e in Entries(segs') {
      EntriesAreSegments(segs, e);
      EntriesAreSegments(segs', e);
    }
    assert Entries(segs) != [] ==> Entries(segs)[0] in Entries(segs');
    assert Entries(segs') != [] ==> Entries(segs')[0] in Entries(segs);
  }

  function Repeat(c: char, n: nat): string {
    seq(n, i => c)
  }

  predicate ShorterThan(entries: seq<string>, n: nat) {
    forall e | e in entries :: |e| < n
  }

  lemma {:induction false} LengthBound(entries: seq<string>) returns (n: nat)
    ensures n > 0 && ShorterThan(entries, n)
  {
    n := 1;
    if entries != [] {
      var m := LengthBound(entries[1..]);
      n := m + |entries[0]| + 1;
      assert entries == [entries[0]] + entries[1..];
    }
  }

  lemma PlainTypeIsItself(s: string)
    requires s != "" && forall i | 0 <= i < |s| :: s[i] == 'a' || s[i] == '/'
    ensures MediaType(s) == s
  {
    IndexOfFirst(s, ';', |s|);
    assert s[..|s|] == s && Lower(s) == s;
    TightTrims(s);
  }

  /** No list but the empty one allows every type: some proper `type/subtype` is always left out. */
  lemma SomeTypeIsLeftOut(entries: seq<string>) returns (contentType: string)
    requires entries != []
    ensures MediaType(contentType) == contentType && '/' in contentType && !Allows(entries, contentType)
  {
    var n := LengthBound(entries);
    var head := Repeat('a', n);
    contentType := head + "/a";
    PlainTypeIsItself(contentType);
    assert contentType[n] == '/';
    forall e | e in entries ensures !EntryMatches(e, contentType) {
      TooShortToMatch(e, n);
    }
  }

  lemma TooShortToMatch(entry: string, n: nat)
    requires |entry| < n
    ensures !EntryMatches(entry, Repeat('a', n) + "/a")
  {
    var t := Repeat('a', n) + "/a";
    if HasSuffix(entry, "/*") {
      var k := |entry| - 2;
      assert entry[..k + 1][k] == entry[k..][0] == '/';
      assert t[..k + 1][k] == 'a';
    }
  }

  /** Adding entries never takes away a type that is not blank, exactly when the list was not empty
      (or nothing is added): the first entry turns "allow all" into an allowlist. */
  lemma MonotoneExactly(entries: seq<string>, more: seq<string>)
    ensures (forall ct | MediaType(ct) != "" :: Allows(entries, ct) ==> Allows(entries + more, ct))
       <==> (entries != [] || more == [])
  {
    if entries != [] {
      assert forall e | e in entries :: e in entries + more;
    } else if more != [] {
      var ct := SomeTypeIsLeftOut(more);
      assert entries + more == more;
      assert Allows(entries, ct) && !Allows(entries + more, ct);
    }
  }

  lemma MediaTypeHasNoSemicolon(contentType: string)
    ensures ';' !in MediaType(contentType)
  {
    var before := contentType[..IndexOf(contentType, ';')];
    assert ';' !in Lower(before);
    var a, b := TrimParts(Lower(before));
    assert forall c | c in MediaType(contentType) :: c in Lower(before);
  }

  /** A list item with a parameter is dead: it matches no content type. */
  lemma ParameterisedEntryNeverMatches(entry: string, contentType: string)
    requires ';' in entry
    ensures !EntryMatches(entry, MediaType(contentType))
  {
    MediaTypeHasNoSemicolon(contentType);
    if HasSuffix(entry, "/*") {
      assert entry[|entry| - 1] == entry[|entry| - 2..][1] == '*';
      assert ';' in entry[..|entry| - 1];
    }
  }

  lemma NormalisedIsTight(segment: string)
    ensures Tight(Normalise(segment)) && Lower(Normalise(segment)) == Normalise(segment)
  {
    var a, b := TrimParts(segment);
  }

  /** A text that is tight and in lower case and has no parameter is its own media type. */
  lemma OwnMediaType(s: string)
    requires Tight(s) && Lower(s) == s && ';' !in s
    ensures MediaType(s) == s
  {
    IndexOfFirst(s, ';', |s|);
    assert s[..|s|] == s;
    TightTrims(s);
  }

  /** Exactly the list items without a parameter match some content type. */
  lemma DeadEntriesExactly(segment: string)
    requires Normalise(segment) != ""
    ensures ';' !in Normalise(segment) <==> exists ct :: EntryMatches(Normalise(segment), MediaType(ct))
  {
    var e := Normalise(segment);
    if ';' in e {
      forall ct ensures !EntryMatches(e, MediaType(ct)) {
        ParameterisedEntryNeverMatches(e, ct);
      }
    } else {
      NormalisedIsTight(segment);
      OwnMediaType(e);
      assert EntryMatches(e, MediaType(e));
    }
  }
}
