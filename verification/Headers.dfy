/** HTTP header maps: names are looked up in canonical form, the first value counts. */
module Headers {
  /** A canonical header name: one of those the gateway itself uses, or any other. */
  datatype Name =
    | Subject | User | Email | Mode
    | Authorization | ContentType | Traceparent | Tracestate
    | Other(text: string)

  type Header = map<Name, seq<string>>

  const CANONICAL_HEADERS: seq<Name> := [Subject, User, Email, Mode]
  const FORWARDED: seq<Name> := [Subject, User, Email, Mode, Authorization]
  const PROPAGATION: seq<Name> := [Traceparent, Tracestate]

  function First(h: Header, name: Name): string {
    if name in h && h[name] != [] then h[name][0] else ""
  }

  /** http.Header as the handlers change it in place. */
  class HeaderMap {
    var m: Header

    constructor (m: Header)
      ensures this.m == m
    {
      this.m := m;
    }

    method Set(name: Name, value: string)
      modifies this
      ensures m == old(m)[name := [value]]
    {
      m := m[name := [value]];
    }

    method Del(name: Name)
      modifies this
      ensures m == old(m) - {name}
    {
      m := m - {name};
    }
  }

  // ---- From text to names -------------------------------------------------------------------

  /** A byte that may occur in a header name (section 5.6.2 of RFC 9110, token). */
  predicate IsTokenChar(c: char) {
    || 'a' <= c <= 'z' || 'A' <= c <= 'Z' || '0' <= c <= '9' || c == '-'
    || c in {'!', '#', '$', '%', '&', '\'', '*', '+', '.', '^', '_', '`', '|', '~'}
  }

  function KeyChar(s: string, i: nat): char
    requires i < |s|
  {
    if i == 0 || s[i - 1] == '-' then
      (if 'a' <= s[i] <= 'z' then (s[i] as int - 32) as char else s[i])
    else
      (if 'A' <= s[i] <= 'Z' then (s[i] as int + 32) as char else s[i])
  }

  /** textproto.CanonicalMIMEHeaderKey: a name with any other byte is left alone. */
  function CanonicalKey(s: string): (r: string)
    ensures |r| == |s|
  {
    if exists c | c in s :: !IsTokenChar(c) then s
    else seq(|s|, i requires 0 <= i < |s| => KeyChar(s, i))
  }

  function Spelling(name: Name): string {
    match name
    case Subject => "X-Auth-Subject"
    case User => "X-Auth-User"
    case Email => "X-Auth-Email"
    case Mode => "X-Auth-Mode"
    case Authorization => "Authorization"
    case ContentType => "Content-Type"
    case Traceparent => "Traceparent"
    case Tracestate => "Tracestate"
    case Other(text) => text
  }

  /** The name that a configured or inbound spelling stands for. */
  function NameOf(text: string): Name {
    var k := CanonicalKey(text);
    if k == Spelling(Subject) then Subject
    else if k == Spelling(User) then User
    else if k == Spelling(Email) then Email
    else if k == Spelling(Mode) then Mode
    else if k == Spelling(Authorization) then Authorization
    else if k == Spelling(ContentType) then ContentType
    else if k == Spelling(Traceparent) then Traceparent
    else if k == Spelling(Tracestate) then Tracestate
    else Other(k)
  }

  /** http.Header.Get */
  function Get(h: Header, text: string): string {
    First(h, NameOf(text))
  }

  predicate SameLetters(c: char, d: char) {
    c == d || ('A' <= c <= 'Z' && d as int == c as int + 32) || ('a' <= c <= 'z' && d as int == c as int - 32)
  }

  /** The letter case of a header name is immaterial. */
  lemma NameCaseIrrelevant(s: string, t: string)
    requires |s| == |t| && forall i | 0 <= i < |s| :: SameLetters(s[i], t[i]) && IsTokenChar(s[i])
    ensures NameOf(s) == NameOf(t)
  {
    forall i | 0 <= i < |t| ensures IsTokenChar(t[i]) && KeyChar(s, i) == KeyChar(t, i) {
      if i > 0 {
        assert SameLetters(s[i - 1], t[i - 1]);
      }
    }
    assert forall c | c in t :: IsTokenChar(c);
    assert CanonicalKey(s) == CanonicalKey(t);
  }

  /** Canonical from index `i` on: the condition spelled out character by character. */
  predicate CanonicalFrom(s: string, i: nat)
    decreases |s| - i
  {
    i >= |s| || (IsTokenChar(s[i]) && KeyChar(s, i) == s[i] && CanonicalFrom(s, i + 1))
  }

  lemma {:induction false} CanonicalFromMeans(s: string, i: nat)
    requires CanonicalFrom(s, i)
    ensures forall k | i <= k < |s| :: IsTokenChar(s[k]) && KeyChar(s, k) == s[k]
    decreases |s| - i
  {
    if i < |s| {
      CanonicalFromMeans(s, i + 1);
    }
  }

  lemma CanonicalWhen(s: string)
    requires CanonicalFrom(s, 0)
    ensures CanonicalKey(s) == s
  {
    CanonicalFromMeans(s, 0);
  }

  /** The names the gateway uses are canonical as it spells them, so they are found again. */
  lemma SpellingRoundTrip(name: Name)
    requires !name.Other?
    ensures NameOf(Spelling(name)) == name
  {
    SpellingIsCanonical(name);
    SpellingsDiffer(name);
  }

  lemma SpellingIsCanonical(name: Name)
    requires !name.Other?
    ensures CanonicalKey(Spelling(name)) == Spelling(name)
  {
    if name in CANONICAL_HEADERS {
      IdentitySpelling(name);
    } else {
      TransportSpelling(name);
    }
    CanonicalWhen(Spelling(name));
  }

  lemma IdentitySpelling(name: Name)
    requires name in CANONICAL_HEADERS
    ensures CanonicalFrom(Spelling(name), 0)
  {
    match name
    case Subject => assert CanonicalFrom("X-Auth-Subject", 0);
    case User => assert CanonicalFrom("X-Auth-User", 0);
    case Email => assert CanonicalFrom("X-Auth-Email", 0);
    case Mode => assert CanonicalFrom("X-Auth-Mode", 0);
  }

  lemma TransportSpelling(name: Name)
    requires name !in CANONICAL_HEADERS && !name.Other?
    ensures CanonicalFrom(Spelling(name), 0)
  {
    assert name in [Authorization, ContentType, Traceparent, Tracestate];
    match name
    case Authorization => assert CanonicalFrom("Authorization", 0);
    case ContentType => assert CanonicalFrom("Content-Type", 0);
    case Traceparent => assert CanonicalFrom("Traceparent", 0);
    case Tracestate => assert CanonicalFrom("Tracestate", 0);
    case _ =>
  }

  lemma SpellingsDiffer(name: Name)
    requires !name.Other?
    ensures forall n: Name | !n.Other? && Spelling(n) == Spelling(name) :: n == name
  {
    assert Spelling(User)[7] == 'U' && Spelling(Mode)[7] == 'M';
    assert Spelling(User)[0] == Spelling(Mode)[0] == Spelling(Email)[0] == 'X';
    assert Spelling(Traceparent)[0] == 'T' && Spelling(ContentType)[0] == 'C';
  }

  /** The gateway's names as they are written on the wire. */
  lemma WireNames()
    ensures NameOf("X-Auth-Subject") == Subject && NameOf("X-Auth-User") == User
    ensures NameOf("X-Auth-Email") == Email && NameOf("X-Auth-Mode") == Mode
    ensures NameOf("Authorization") == Authorization && NameOf("Content-Type") == ContentType
    ensures NameOf("Traceparent") == Traceparent && NameOf("Tracestate") == Tracestate
  {
    SpellingRoundTrip(Subject);
    SpellingRoundTrip(User);
    SpellingRoundTrip(Email);
    SpellingRoundTrip(Mode);
    SpellingRoundTrip(Authorization);
    SpellingRoundTrip(ContentType);
    SpellingRoundTrip(Traceparent);
    SpellingRoundTrip(Tracestate);
  }

  lemma KeyKeepsLetters(s: string, i: nat)
    requires i < |s|
    ensures SameLetters(CanonicalKey(s)[i], s[i])
  {
  }

  /** Two spellings are the same name exactly if they have the same canonical key; so names of different
      letters stay apart. */
  lemma NamesExactly(s: string, t: string)
    ensures NameOf(s) == NameOf(t) <==> CanonicalKey(s) == CanonicalKey(t)
    ensures NameOf(s) == NameOf(t) ==> |s| == |t| && forall i | 0 <= i < |s| :: SameFolded(s[i], t[i])
  {
    if NameOf(s) == NameOf(t) {
      SameNameSameKey(s, t);
      forall i | 0 <= i < |s| ensures SameFolded(s[i], t[i]) {
        KeyKeepsLetters(s, i);
        KeyKeepsLetters(t, i);
      }
    }
  }

  lemma SameNameSameKey(s: string, t: string)
    requires NameOf(s) == NameOf(t)
    ensures CanonicalKey(s) == CanonicalKey(t)
  {
    KeyOfName(s);
    KeyOfName(t);
  }

  lemma KeyOfName(s: string)
    ensures CanonicalKey(s) == Spelling(NameOf(s))
  {
  }

  /** The same but for the case of ASCII letters. */
  predicate SameFolded(c: char, d: char) {
    exists e :: SameLetters(e, c) && SameLetters(e, d)
  }

  /** The first value of a header counts, and a header without values counts as empty. */
  lemma FirstValue(h: Header, name: Name, value: string, more: seq<string>)
    ensures First(h[name := [value] + more], name) == value
    ensures First(h[name := []], name) == "" && First(h - {name}, name) == ""
  {
  }
}
