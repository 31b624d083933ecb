/** The string helpers of Go's `strings` package that the gateway relies on. */
module Text {
  /** White space as `strings.TrimSpace` sees it (Unicode White_Space). */
  predicate IsSpace(c: char) {
    || c == ' ' || ('\t' <= c <= '\r')
    || c == '\U{0085}' || c == '\U{00A0}' || c == '\U{1680}'
    || ('\U{2000}' <= c <= '\U{200A}')
    || c == '\U{2028}' || c == '\U{2029}' || c == '\U{202F}' || c == '\U{205F}' || c == '\U{3000}'
  }

  predicate AllSpace(s: string) {
    forall i | 0 <= i < |s| :: IsSpace(s[i])
  }

  /** Lower case of one character.  Besides the ASCII letters, exactly two characters have an
      ASCII lower case: the Kelvin sign and the dotted capital I. */
  function LowerChar(c: char): char {
    if 'A' <= c <= 'Z' then (c as int + 32) as char
    else if c == '\U{212A}' then 'k'
    else if c == '\U{0130}' then 'i'
    else c
  }

  function Lower(s: string): (r: string)
    ensures |r| == |s|
    ensures forall i | 0 <= i < |s| :: r[i] == LowerChar(s[i])
  {
    seq(|s|, i requires 0 <= i < |s| => LowerChar(s[i]))
  }

  function TrimLeft(s: string): string {
    if s != "" && IsSpace(s[0]) then TrimLeft(s[1..]) else s
  }

  function TrimRight(s: string): string {
    if s != "" && IsSpace(s[|s| - 1]) then TrimRight(s[..|s| - 1]) else s
  }

  /** strings.TrimSpace */
  function Trim(s: string): string {
    TrimRight(TrimLeft(s))
  }

  /** No white space at either end. */
  predicate Tight(s: string) {
    s != "" ==> !IsSpace(s[0]) && !IsSpace(s[|s| - 1])
  }

  predicate HasPrefix(s: string, p: string) {
    |p| <= |s| && s[..|p|] == p
  }

  predicate HasSuffix(s: string, p: string) {
    |p| <= |s| && s[|s| - |p|..] == p
  }

  lemma {:induction false} FirstIndex(s: string, c: char) returns (i: nat)
    requires c in s
    ensures i < |s| && s[i] == c && forall k | 0 <= k < i :: s[k] != c
  {
    if s[0] == c {
      i := 0;
    } else {
      var j := FirstIndex(s[1..], c);
      i := j + 1;
      assert forall k | 0 < k < i :: s[k] == s[1..][k - 1];
    }
  }

  /** Index of the first `c`, or |s|: `strings.IndexByte` with "absent" read as the length. */
  function IndexOf(s: string, c: char): (r: nat)
    ensures r <= |s| && forall i | 0 <= i < r :: s[i] != c
    ensures r < |s| ==> s[r] == c
  {
    if c in s then
      assert exists i: nat :: i < |s| && s[i] == c && forall k | 0 <= k < i :: s[k] != c by {
        var i := FirstIndex(s, c);
      }
      var i: nat :| i < |s| && s[i] == c && forall k | 0 <= k < i :: s[k] != c;
      i
    else |s|
  }

  lemma IndexOfFirst(s: string, c: char, k: nat)
    requires k <= |s| && (forall i | 0 <= i < k :: s[i] != c) && (k < |s| ==> s[k] == c)
    ensures IndexOf(s, c) == k
  {
  }

  lemma {:induction false} TrimLeftSkips(a: string, s: string)
    requires AllSpace(a)
    ensures TrimLeft(a + s) == TrimLeft(s)
  {
    if a == "" {
      assert a + s == s;
    } else {
      assert (a + s)[1..] == a[1..] + s;
      TrimLeftSkips(a[1..], s);
    }
  }

  lemma {:induction false} TrimRightSkips(s: string, b: string)
    requires AllSpace(b)
    ensures TrimRight(s + b) == TrimRight(s)
  {
    if b == "" {
      assert s + b == s;
    } else {
      assert (s + b)[..|s + b| - 1] == s + b[..|b| - 1];
      TrimRightSkips(s, b[..|b| - 1]);
    }
  }

  /** What Trim computes: the only tight middle of `s` between two runs of white space. */
  lemma TrimUnique(a: string, m: string, b: string)
    requires AllSpace(a) && AllSpace(b) && Tight(m)
    ensures Trim(a + m + b) == m
  {
    assert a + m + b == a + (m + b);
    TrimLeftSkips(a, m + b);
    if m == "" {
      assert m + b == b + "";
      TrimLeftSkips(b, "");
    } else {
      TrimRightSkips(m, b);
    }
  }

  lemma TightTrims(m: string)
    requires Tight(m)
    ensures Trim(m) == m
  {
    assert "" + m + "" == m;
    TrimUnique("", m, "");
  }

  lemma TrimEnd(m: string, b: string)
    requires Tight(m) && AllSpace(b)
    ensures Trim(m + b) == m
  {
    assert "" + m + b == m + b;
    TrimUnique("", m, b);
  }

  lemma {:induction false} TrimLeftParts(s: string) returns (a: string)
    ensures s == a + TrimLeft(s) && AllSpace(a)
    ensures TrimLeft(s) != "" ==> !IsSpace(TrimLeft(s)[0])
  {
    a := "";
    if s != "" && IsSpace(s[0]) {
      var a' := TrimLeftParts(s[1..]);
      a := [s[0]] + a';
    }
  }

  lemma {:induction false} TrimRightParts(s: string) returns (b: string)
    ensures s == TrimRight(s) + b && AllSpace(b)
    ensures TrimRight(s) != "" ==> !IsSpace(TrimRight(s)[|TrimRight(s)| - 1])
  {
    b := "";
    if s != "" && IsSpace(s[|s| - 1]) {
      var b' := TrimRightParts(s[..|s| - 1]);
      b := b' + [s[|s| - 1]];
      assert s == s[..|s| - 1] + [s[|s| - 1]];
    }
  }

  /** Trim really splits off white space on both sides and leaves none. */
  lemma TrimParts(s: string) returns (a: string, b: string)
    ensures s == a + Trim(s) + b
    ensures AllSpace(a) && AllSpace(b) && Tight(Trim(s))
  {
    a := TrimLeftParts(s);
    b := TrimRightParts(TrimLeft(s));
    if Trim(s) != "" {
      assert TrimLeft(s)[0] == Trim(s)[0];
    }
  }

  lemma TrimPads(a: string, s: string, b: string)
    requires AllSpace(a) && AllSpace(b)
    ensures Trim(a + s + b) == Trim(s)
  {
    var c, d := TrimParts(s);
    assert a + s + b == (a + c) + Trim(s) + (d + b);
    TrimUnique(a + c, Trim(s), d + b);
  }

  lemma LowerConcat(s: string, t: string)
    ensures Lower(s + t) == Lower(s) + Lower(t)
  {
  }

  /** Trimming and lower-casing commute. */
  lemma TrimLower(s: string)
    ensures Trim(Lower(s)) == Lower(Trim(s))
  {
    var a, b := TrimParts(s);
    LowerConcat(a + Trim(s), b);
    LowerConcat(a, Trim(s));
    TrimUnique(Lower(a), Lower(Trim(s)), Lower(b));
  }

  /** Among ASCII, white space is the blank, tab, line feed, vertical tab, form feed and carriage
      return. */
  lemma AsciiSpace(c: char)
    requires c as int < 128
    ensures IsSpace(c) <==> c as int in {9, 10, 11, 12, 13, 32}
  {
  }

  /** Among ASCII, lower case moves the 26 capitals by 32 and nothing else. */
  lemma AsciiLower(s: string, i: nat)
    requires i < |s| && s[i] as int < 128
    ensures Lower(s)[i] as int == s[i] as int + if 65 <= s[i] as int <= 90 then 32 else 0
  {
  }
}
