/** The byte-count setting: a decimal number with an optional binary unit. */
module ByteCount {
  import opened Wrappers
  import opened Text
  import opened Int64

  datatype Result = Ok(value: int) | Invalid | NotPositive

  const UNITS: seq<(string, int)> := [
    ("gib", 0x4000_0000), ("gb", 0x4000_0000), ("g", 0x4000_0000),
    ("mib", 0x10_0000), ("mb", 0x10_0000), ("m", 0x10_0000),
    ("kib", 0x400), ("kb", 0x400), ("k", 0x400)]

  predicate IsDigit(c: char) {
    '0' <= c <= '9'
  }

  function Digit(c: char): nat
    requires IsDigit(c)
  {
    c as int - '0' as int
  }

  function Value(digits: string): nat
    requires forall i | 0 <= i < |digits| :: IsDigit(digits[i])
  {
    if digits == "" then 0
    else 10 * Value(digits[..|digits| - 1]) + Digit(digits[|digits| - 1])
  }

  predicate Digits(s: string) {
    s != "" && forall i | 0 <= i < |s| :: IsDigit(s[i])
  }

  /** strconv.ParseInt(s, 10, 64): an optional sign, at least one digit, a 64-bit value. */
  function ParseInt(s: string): Option<int> {
    var signed := s != "" && (s[0] == '+' || s[0] == '-');
    var digits := if signed then s[1..] else s;
    if !Digits(digits) then None
    else
      var v: int := Value(digits);
      var n := if signed && s[0] == '-' then -v else v;
      if Fits(n) then Some(n) else None
  }

  /** The first unit from index `i` on that ends `s`. */
  function Unit(s: string, i: nat): (r: Option<nat>)
    ensures r.Some? ==> i <= r.value < |UNITS| && HasSuffix(s, UNITS[r.value].0)
    decreases |UNITS| - i
  {
    if i >= |UNITS| then None
    else if HasSuffix(s, UNITS[i].0) then Some(i)
    else Unit(s, i + 1)
  }

  function Scaled(digits: string, mult: int): Result {
    match ParseInt(Trim(digits))
    case None => Invalid
    case Some(n) => if n <= 0 then NotPositive else Ok(Wrap(n * mult))
  }

  /** The setting's value: the fallback when unset or empty. */
  function Bytes(raw: Option<string>, fallback: int): Result {
    if raw.None? || raw.value == "" then Ok(fallback)
    else
      var s := Trim(Lower(raw.value));
      match Unit(s, 0)
      case None => Scaled(s, 1)
      case Some(i) => Scaled(s[..|s| - |UNITS[i].0|], UNITS[i].1)
  }

  /** envBytesDefault */
  method EnvBytesDefault(raw: Option<string>, fallback: int) returns (r: Result)
    ensures r == Bytes(raw, fallback)
  {
    if raw.None? || raw.value == "" {
      return Ok(fallback);
    }
    var s := Trim(Lower(raw.value));
    ghost var whole := s;
    var mult := 1;
    var i := 0;
    while i < |UNITS|
      invariant i <= |UNITS| && s == whole && mult == 1
      invariant Unit(whole, 0) == Unit(whole, i)
    {
      if HasSuffix(s, UNITS[i].0) {
        mult := UNITS[i].1;
        s := s[..|s| - |UNITS[i].0|];
        break;
      }
      i := i + 1;
    }
    var n := ParseInt(Trim(s));
    if n.None? {
      return Invalid;
    }
    if n.value <= 0 {
      return NotPositive;
    }
    return Ok(Wrap(n.value * mult));
  }

  // ---- Units ------------------------------------------------------------------------------

  /** A unit is one of three letters, followed by `ib`, `b` or nothing. */
  function Letter(i: nat): char {
    if i < 3 then 'g' else if i < 6 then 'm' else 'k'
  }

  lemma UnitShape(i: nat)
    requires i < |UNITS|
    ensures UNITS[i].0 == [Letter(i)] + (if i % 3 == 0 then "ib" else if i % 3 == 1 then "b" else "")
  {
    assert i in {0, 1, 2, 3, 4, 5, 6, 7, 8};
  }

  lemma SuffixChars(s: string, u: string)
    requires HasSuffix(s, u)
    ensures |u| >= 1 ==> s[|s| - 1] == u[|u| - 1]
    ensures |u| >= 2 ==> s[|s| - 2] == u[|u| - 2]
    ensures |u| >= 3 ==> s[|s| - 3] == u[|u| - 3]
  {
  }

  /** The last character, and the one or two before it, of a string that ends in a unit. */
  lemma UnitEnding(s: string, i: nat)
    requires i < |UNITS| && HasSuffix(s, UNITS[i].0)
    ensures i % 3 == 2 ==> |s| >= 1 && s[|s| - 1] == Letter(i)
    ensures i % 3 == 1 ==> |s| >= 2 && s[|s| - 1] == 'b' && s[|s| - 2] == Letter(i)
    ensures i % 3 == 0 ==> |s| >= 3 && s[|s| - 1] == 'b' && s[|s| - 2] == 'i' && s[|s| - 3] == Letter(i)
  {
    UnitShape(i);
    SuffixChars(s, UNITS[i].0);
  }

  /** No string ends in two different units, so the order of the table is immaterial. */
  lemma AtMostOneUnit(s: string, i: nat, j: nat)
    requires i < |UNITS| && j < |UNITS| && HasSuffix(s, UNITS[i].0) && HasSuffix(s, UNITS[j].0)
    ensures i == j
  {
    UnitEnding(s, i);
    UnitEnding(s, j);
    SameEnding(i, j);
  }

  lemma SameEnding(i: nat, j: nat)
    requires i < 9 && j < 9 && i % 3 == j % 3 && Letter(i) == Letter(j)
    ensures i == j
  {
  }

  lemma UnitUnfolds(s: string, i: nat)
    requires i < |UNITS|
    ensures Unit(s, i) == if HasSuffix(s, UNITS[i].0) then Some(i) else Unit(s, i + 1)
  {
  }

  lemma {:induction false} UnitFound(s: string, i: nat, j: nat)
    requires i <= j < |UNITS| && HasSuffix(s, UNITS[j].0)
    ensures Unit(s, i) == Some(j)
    decreases j - i
  {
    UnitUnfolds(s, i);
    if HasSuffix(s, UNITS[i].0) {
      AtMostOneUnit(s, i, j);
    } else {
      UnitFound(s, i + 1, j);
    }
  }

  // ---- Printing and parsing ---------------------------------------------------------------

  function Decimal(n: nat): (s: string)
    ensures s != "" && forall i | 0 <= i < |s| :: IsDigit(s[i])
  {
    (if n < 10 then "" else Decimal(n / 10)) + [(n % 10 + '0' as int) as char]
  }

  lemma {:induction false} DecimalValue(n: nat)
    ensures Value(Decimal(n)) == n
  {
    var s := Decimal(n);
    if n >= 10 {
      DecimalValue(n / 10);
      assert s[..|s| - 1] == Decimal(n / 10);
    } else {
      assert s[..|s| - 1] == "";
    }
  }

  /** A decimal numeral: digits, with or without a sign. */
  predicate Numeral(s: string) {
    Digits(s) || (s != "" && (s[0] == '+' || s[0] == '-') && Digits(s[1..]))
  }

  function NumeralValue(s: string): int
    requires Numeral(s)
  {
    if Digits(s) then Value(s) else if s[0] == '-' then -(Value(s[1..]) as int) else Value(s[1..])
  }

  /** Positional notation: another digit makes ten times the value and the digit. */
  lemma ValueSnoc(s: string, c: char)
    requires (forall i | 0 <= i < |s| :: IsDigit(s[i])) && IsDigit(c)
    ensures 48 <= c as int <= 57
    ensures forall i | 0 <= i < |s + [c]| :: IsDigit((s + [c])[i])
    ensures Value(s + [c]) == 10 * Value(s) + (c as int - 48)
    ensures Value("") == 0
  {
    assert (s + [c])[..|s|] == s;
  }

  /** What is read are exactly the numerals whose value fits in 64 bits. */
  lemma ParseIntExactly(s: string)
    ensures ParseInt(s) == if Numeral(s) && Fits(NumeralValue(s)) then Some(NumeralValue(s)) else None
  {
    if s != "" && (s[0] == '+' || s[0] == '-') {
      assert !IsDigit(s[0]) && !Digits(s);
      assert Numeral(s) <==> Digits(s[1..]);
    } else {
      assert Numeral(s) <==> Digits(s);
      assert ParseInt(s) == if !Digits(s) then None else if Fits(Value(s)) then Some(Value(s)) else None;
    }
  }

  lemma NumeralShape(d: string)
    requires Numeral(d)
    ensures d != "" && IsDigit(d[|d| - 1]) && Tight(d) && Lower(d) == d
    ensures forall i | 0 <= i < |d| :: IsDigit(d[i]) || d[i] == '+' || d[i] == '-'
  {
    if !Digits(d) {
      assert d[|d| - 1] == d[1..][|d| - 2];
      assert forall i | 0 < i < |d| :: d[i] == d[1..][i - 1];
    }
  }

  lemma NumeralTrims(d: string, b: string)
    requires Numeral(d) && AllSpace(b)
    ensures Trim(d + b) == d
  {
    NumeralShape(d);
    TrimEnd(d, b);
  }

  lemma DecimalIsNumeral(n: nat)
    ensures Numeral(Decimal(n)) && NumeralValue(Decimal(n)) == n
  {
    DecimalValue(n);
  }

  /** The size a spelling of a unit stands for; no unit at all stands for 1. */
  predicate Spells(unit: string, mult: int) {
    var u := Lower(unit);
    || (u == "" && mult == 1)
    || (u in {"k", "kb", "kib"} && mult == 1024)
    || (u in {"m", "mb", "mib"} && mult == 1024 * 1024)
    || (u in {"g", "gb", "gib"} && mult == 1024 * 1024 * 1024)
  }

  /** The units of the table are just these. */
  lemma SpellsUnit(unit: string, mult: int) returns (i: nat)
    requires Spells(unit, mult) && unit != ""
    ensures i < |UNITS| && Lower(unit) == UNITS[i].0 && mult == UNITS[i].1
  {
    var u := Lower(unit);
    i := if u == "gib" then 0 else if u == "gb" then 1 else if u == "g" then 2
         else if u == "mib" then 3 else if u == "mb" then 4 else if u == "m" then 5
         else if u == "kib" then 6 else if u == "kb" then 7 else 8;
  }

  lemma UnitSpells(unit: string, i: nat)
    requires i < |UNITS| && Lower(unit) == UNITS[i].0
    ensures Spells(unit, UNITS[i].1)
  {
    assert i in {0, 1, 2, 3, 4, 5, 6, 7, 8};
  }

  lemma UnitsAreTight(i: nat)
    requires i < |UNITS|
    ensures var u := UNITS[i].0; u != "" && Tight(u) && !IsDigit(u[|u| - 1])
  {
    UnitShape(i);
  }

  lemma NoUnitAfterDigit(s: string, i: nat)
    requires s != "" && IsDigit(s[|s| - 1])
    ensures Unit(s, i) == None
    decreases |UNITS| - i
  {
    if i < |UNITS| {
      UnitsAreTight(i);
      var u := UNITS[i].0;
      assert HasSuffix(s, u) ==> s[|s| - |u|..][|u| - 1] == s[|s| - 1];
      NoUnitAfterDigit(s, i + 1);
    }
  }

  /** What is left to parse after normalising a bare number ... */
  lemma BareNumber(a: string, d: string, c: string, fallback: int)
    requires AllSpace(a) && AllSpace(c) && Numeral(d)
    ensures Bytes(Some(a + d + c), fallback) == Scaled(d, 1)
  {
    NumeralShape(d);
    LowerConcat(a + d, c);
    LowerConcat(a, d);
    LowerKeepsSpace(a);
    LowerKeepsSpace(c);
    TrimUnique(Lower(a), d, Lower(c));
    NoUnitAfterDigit(d, 0);
  }

  lemma LowerPieces(a: string, d: string, b: string, unit: string, c: string)
    requires Lower(d) == d
    ensures Lower(a + d + b + unit + c) == Lower(a) + (d + Lower(b) + Lower(unit)) + Lower(c)
  {
    LowerConcat(a + d + b + unit, c);
    LowerConcat(a + d + b, unit);
    LowerConcat(a + d, b);
    LowerConcat(a, d);
    assert Lower(a) + d + Lower(b) + Lower(unit) == Lower(a) + (d + Lower(b) + Lower(unit));
  }

  lemma CutUnit(head: string, i: nat)
    requires i < |UNITS| && head != "" && !IsSpace(head[0])
    ensures var m := head + UNITS[i].0; Tight(m) && Unit(m, 0) == Some(i) && m[..|m| - |UNITS[i].0|] == head
  {
    var u := UNITS[i].0;
    var m := head + u;
    UnitsAreTight(i);
    assert m[|m| - 1] == u[|u| - 1] && m[0] == head[0];
    assert m[|m| - |u|..] == u;
    UnitFound(m, 0, i);
  }

  /** ... and a number with a unit. */
  lemma NumberWithUnit(a: string, d: string, b: string, unit: string, c: string, i: nat, fallback: int)
    requires AllSpace(a) && AllSpace(b) && AllSpace(c) && Numeral(d) && i < |UNITS| && Lower(unit) == UNITS[i].0
    ensures Bytes(Some(a + d + b + unit + c), fallback) == Scaled(d + Lower(b), UNITS[i].1)
  {
    NumeralShape(d);
    LowerPieces(a, d, b, unit, c);
    LowerKeepsSpace(a);
    LowerKeepsSpace(c);
    var head := d + Lower(b);
    assert head[0] == d[0];
    CutUnit(head, i);
    TrimUnique(Lower(a), head + UNITS[i].0, Lower(c));
  }

  /** What a numeral with a unit of this size reads as: an error when it does not fit, or is not
      positive, and otherwise the product, which is not checked. */
  function Reading(d: string, mult: int): Result
    requires Numeral(d)
  {
    var n := NumeralValue(d);
    if !Fits(n) then Invalid else if n <= 0 then NotPositive else Ok(Wrap(n * mult))
  }

  lemma ScaledNumeral(d: string, b: string, mult: int)
    requires AllSpace(b) && Numeral(d)
    ensures Scaled(d + b, mult) == Reading(d, mult)
  {
    NumeralTrims(d, b);
    ParseIntExactly(d);
  }

  lemma BareReads(a: string, d: string, c: string, fallback: int)
    requires AllSpace(a) && AllSpace(c) && Numeral(d)
    ensures Bytes(Some(a + d + c), fallback) == Reading(d, 1)
  {
    BareNumber(a, d, c, fallback);
    ScaledNumeral(d, "", 1);
    assert d + "" == d;
  }

  lemma LowerKeepsSpace(b: string)
    requires AllSpace(b)
    ensures AllSpace(Lower(b))
  {
  }

  lemma UnitReads(a: string, d: string, b: string, unit: string, c: string, i: nat, fallback: int)
    requires AllSpace(a) && AllSpace(b) && AllSpace(c) && Numeral(d)
    requires i < |UNITS| && Lower(unit) == UNITS[i].0
    ensures Bytes(Some(a + d + b + unit + c), fallback) == Reading(d, UNITS[i].1)
  {
    var mult := UNITS[i].1;
    NumberWithUnit(a, d, b, unit, c, i, fallback);
    LowerKeepsSpace(b);
    ScaledNumeral(d, Lower(b), mult);
  }

  lemma WithoutUnit(a: string, d: string, b: string, c: string)
    ensures a + d + b + "" + c == a + d + (b + c)
  {
  }

  /** A setting as it may be written: a numeral, a unit in any letter case, white space around and
      between. */
  predicate Writes(raw: string, a: string, d: string, b: string, unit: string, c: string, mult: int) {
    raw == a + d + b + unit + c && AllSpace(a) && AllSpace(b) && AllSpace(c) && Numeral(d) && Spells(unit, mult)
  }

  lemma WrittenReads(raw: string, a: string, d: string, b: string, unit: string, c: string, mult: int, fallback: int)
    requires Writes(raw, a, d, b, unit, c, mult)
    ensures Bytes(Some(raw), fallback) == Reading(d, mult)
  {
    if unit == "" {
      WithoutUnit(a, d, b, c);
      BareReads(a, d, b + c, fallback);
    } else {
      var i := SpellsUnit(unit, mult);
      UnitReads(a, d, b, unit, c, i, fallback);
    }
  }

  /** What is not invalid contains a numeral, between white space. */
  lemma ScaledIsNumeral(s: string, mult: int) returns (x: string, d: string, y: string)
    requires Scaled(s, mult) != Invalid
    ensures s == x + d + y && AllSpace(x) && AllSpace(y) && Numeral(d)
  {
    x, y := TrimParts(s);
    d := Trim(s);
    ParseIntExactly(d);
  }

  /** Nothing else is read: any other text is invalid. */
  lemma ReadIsWritten(raw: string, fallback: int)
      returns (a: string, d: string, b: string, unit: string, c: string, mult: int)
    requires raw != "" && Bytes(Some(raw), fallback) != Invalid
    ensures Writes(raw, a, d, b, unit, c, mult)
  {
    var head, u, i;
    head, u, i, mult := CutOff(raw, fallback);
    var lead, trail := TrimParts(Lower(raw));
    var x, num, y := ScaledIsNumeral(head, mult);
    Regroup(lead, x, num, y, u, trail);
    a, d, b, unit, c := RawPieces(raw, lead + x, num, y, u, trail);
    if i.Some? {
      UnitSpells(unit, i.value);
    }
  }

  /** The unit cut off, if there is one. */
  lemma CutOff(raw: string, fallback: int) returns (head: string, u: string, i: Option<nat>, mult: int)
    requires raw != ""
    ensures Trim(Lower(raw)) == head + u && Bytes(Some(raw), fallback) == Scaled(head, mult)
    ensures match i
            case None => u == "" && mult == 1
            case Some(k) => k < |UNITS| && u == UNITS[k].0 && mult == UNITS[k].1
  {
    var s := Trim(Lower(raw));
    i := Unit(s, 0);
    if i.Some? {
      u, mult := UNITS[i.value].0, UNITS[i.value].1;
      head := s[..|s| - |u|];
    } else {
      head, u, mult := s, "", 1;
      assert s + "" == s;
    }
  }

  lemma Regroup(a: string, x: string, d: string, y: string, u: string, c: string)
    ensures a + ((x + d + y) + u) + c == (a + x) + d + y + u + c
  {
  }

  /** Pieces of the lower-cased text are pieces of the text; a numeral is the same in both. */
  lemma RawPieces(raw: string, a: string, d: string, b: string, u: string, c: string)
      returns (a': string, d': string, b': string, u': string, c': string)
    requires Lower(raw) == a + d + b + u + c && Numeral(d) && AllSpace(a) && AllSpace(b) && AllSpace(c)
    ensures raw == a' + d' + b' + u' + c' && d' == d && Lower(u') == u
    ensures AllSpace(a') && AllSpace(b') && AllSpace(c')
  {
    var i := |a|;
    var j := i + |d|;
    var k := j + |b|;
    var l := k + |u|;
    a', d', b', u', c' := raw[..i], raw[i..j], raw[j..k], raw[k..l], raw[l..];
    NumeralShape(d);
    LowerSlices(raw, i, j, k, l);
    SlicesOf(a, d, b, u, c);
    SameNumeral(d', d);
    SameSpace(a', a);
    SameSpace(b', b);
    SameSpace(c', c);
  }

  lemma LowerSlices(raw: string, i: nat, j: nat, k: nat, l: nat)
    requires i <= j <= k <= l <= |raw|
    ensures raw == raw[..i] + raw[i..j] + raw[j..k] + raw[k..l] + raw[l..]
    ensures Lower(raw[..i]) == Lower(raw)[..i] && Lower(raw[i..j]) == Lower(raw)[i..j]
    ensures Lower(raw[j..k]) == Lower(raw)[j..k] && Lower(raw[k..l]) == Lower(raw)[k..l]
    ensures Lower(raw[l..]) == Lower(raw)[l..]
  {
  }

  lemma SlicesOf(a: string, d: string, b: string, u: string, c: string)
    ensures var s := a + d + b + u + c; var i := |a|; var j := i + |d|; var k := j + |b|; var l := k + |u|;
            s[..i] == a && s[i..j] == d && s[j..k] == b && s[k..l] == u && s[l..] == c
  {
  }

  lemma SameNumeral(s: string, d: string)
    requires Numeral(d) && Lower(s) == d
    ensures s == d
  {
    NumeralShape(d);
    forall i | 0 <= i < |s| ensures s[i] == d[i] {
      assert LowerChar(s[i]) == d[i];
    }
  }

  lemma SameSpace(s: string, t: string)
    requires AllSpace(t) && Lower(s) == t
    ensures AllSpace(s)
  {
    forall i | 0 <= i < |s| ensures IsSpace(s[i]) {
      assert LowerChar(s[i]) == t[i];
    }
  }

  /** The setting, exactly: the fallback when it is unset or empty; what a numeral with a unit reads as
      when it is one; and invalid otherwise. */
  lemma SettingExactly(raw: Option<string>, fallback: int)
    ensures raw == None || raw == Some("") ==> Bytes(raw, fallback) == Ok(fallback)
    ensures raw.Some? && raw.value != "" ==>
              (Bytes(raw, fallback) != Invalid ==>
                exists a, d, b, unit, c, mult :: Writes(raw.value, a, d, b, unit, c, mult)
                  && Bytes(raw, fallback) == Reading(d, mult))
    ensures forall s, a, d, b, unit, c, mult :: Writes(s, a, d, b, unit, c, mult) ==>
              Bytes(Some(s), fallback) == Reading(d, mult)
  {
    if raw.Some? && raw.value != "" && Bytes(raw, fallback) != Invalid {
      var a, d, b, unit, c, mult := ReadIsWritten(raw.value, fallback);
      WrittenReads(raw.value, a, d, b, unit, c, mult, fallback);
    }
    forall s, a, d, b, unit, c, mult | Writes(s, a, d, b, unit, c, mult)
      ensures Bytes(Some(s), fallback) == Reading(d, mult)
    {
      WrittenReads(s, a, d, b, unit, c, mult, fallback);
    }
  }

  /** Print a number with any unit in any letter case and spacing, and parse it. */
  lemma PrintedParses(a: string, n: nat, b: string, unit: string, c: string, mult: int, fallback: int)
    requires AllSpace(a) && AllSpace(b) && AllSpace(c) && n > 0 && Spells(unit, mult)
    ensures Bytes(Some(a + Decimal(n) + b + unit + c), fallback)
         == if n < TWO63 then Ok(Wrap(n * mult)) else Invalid
  {
    DecimalIsNumeral(n);
    WrittenReads(a + Decimal(n) + b + unit + c, a, Decimal(n), b, unit, c, mult, fallback);
  }

  /** The round trip holds exactly when the number of bytes fits in 64 bits: the multiplication
      itself is not checked. */
  lemma RoundTripExactly(a: string, n: nat, b: string, unit: string, c: string, mult: int, fallback: int)
    requires AllSpace(a) && AllSpace(b) && AllSpace(c) && n > 0 && Spells(unit, mult)
    ensures Bytes(Some(a + Decimal(n) + b + unit + c), fallback) == Ok(n * mult) <==> n * mult < TWO63
  {
    PrintedParses(a, n, b, unit, c, mult, fallback);
    UnitIsPositive(unit, mult);
    ProductGrows(n, mult);
  }

  lemma UnitIsPositive(unit: string, mult: int)
    requires Spells(unit, mult)
    ensures mult >= 1
  {
  }

  lemma ProductGrows(n: nat, mult: int)
    requires mult >= 1
    ensures n * mult >= n
  {
  }

  /** "Must be positive", exactly: an accepted count comes out positive when its low 64 bits do. */
  lemma PositiveExactly(a: string, n: nat, b: string, unit: string, c: string, mult: int, fallback: int)
    requires AllSpace(a) && AllSpace(b) && AllSpace(c) && 0 < n < TWO63 && Spells(unit, mult)
    ensures match Bytes(Some(a + Decimal(n) + b + unit + c), fallback)
            case Ok(v) => v > 0 <==> 0 < (n * mult) % TWO64 < TWO63
            case _ => false
  {
    PrintedParses(a, n, b, unit, c, mult, fallback);
    WrapByLowBits(n * mult);
  }

  /** Where it fails: 2^34 GiB is accepted and read as 0, which switches the upload cap off. */
  lemma HugeCountReadsAsZero(fallback: int)
    ensures Bytes(Some(Decimal(17179869184) + "g"), fallback) == Ok(0)
  {
    HugeCount(17179869184, fallback);
  }

  lemma HugeCount(n: nat, fallback: int)
    requires n == 17179869184
    ensures Bytes(Some(Decimal(n) + "g"), fallback) == Ok(0)
  {
    assert "" + Decimal(n) + "" + "g" + "" == Decimal(n) + "g";
    Giga();
    DecimalIsNumeral(n);
    WrittenReads(Decimal(n) + "g", "", Decimal(n), "", "g", "", 1024 * 1024 * 1024, fallback);
    HugeProduct(n);
  }

  lemma Giga()
    ensures Spells("g", 1024 * 1024 * 1024)
  {
    assert Lower("g") == "g";
  }

  lemma HugeProduct(n: nat)
    requires n == 17179869184
    ensures Wrap(n * (1024 * 1024 * 1024)) == 0
  {
    WrapUnique(n * (1024 * 1024 * 1024), 0, 1);
  }
}
