/**
 * The textual encoding of a visitor's list-valued fields inside one CSV cell.
 * A list of scalars is written as a JSON array, `["/a", "/b"]` or `[12.5, 40]`:
 * items are separated by ", ", strings are quoted with `"` and `\` escaped, and
 * numbers are kept as their literal text. A number is a JSON number or one of
 * Python's `NaN`, `Infinity` and `-Infinity`. `Decode` reads back exactly what
 * `Encode` writes.
 */
module JsonCells {
  import opened Wrappers

  // ----- numbers -----

  predicate IsDigit(c: char)
  {
    '0' <= c <= '9'
  }

  /** Characters that can continue a number: a digit, `.`, an exponent mark or a sign. */
  predicate IsNumberChar(c: char)
  {
    IsDigit(c) || c == '-' || c == '+' || c == '.' || c == 'e' || c == 'E'
  }

  /** Length of the run of digits at the front of `t`. */
  function DigitsLength(t: string): (n: nat)
    ensures n <= |t|
    ensures n < |t| ==> !IsDigit(t[n])
  {
    if t == [] || !IsDigit(t[0]) then 0 else 1 + DigitsLength(t[1..])
  }

  /** Every character of the run is a digit. */
  lemma {:induction false} DigitsAreDigits(t: string)
    ensures forall i :: 0 <= i < DigitsLength(t) ==> IsDigit(t[i])
  {
    if t != [] && IsDigit(t[0]) {
      DigitsAreDigits(t[1..]);
      assert forall i :: 1 <= i < DigitsLength(t) ==> t[i] == t[1..][i - 1];
    }
  }

  /** The run of digits ends where the first non-digit stands. */
  lemma {:induction false} DigitsLengthIs(t: string, n: nat)
    requires n <= |t|
    requires forall i :: 0 <= i < n ==> IsDigit(t[i])
    requires n < |t| ==> !IsDigit(t[n])
    ensures DigitsLength(t) == n
  {
    if n > 0 {
      assert IsDigit(t[0]);
      assert forall i :: 0 <= i < n - 1 ==> t[1..][i] == t[i + 1];
      DigitsLengthIs(t[1..], n - 1);
    }
  }

  /** Every character of `s` is a digit: the run of digits covers it. */
  predicate AllDigits(s: string)
  {
    DigitsLength(s) == |s|
  }

  /** A prefix of the run of digits is all digits. */
  lemma DigitsPrefix(t: string, m: nat)
    requires m <= DigitsLength(t)
    ensures AllDigits(t[..m])
  {
    DigitsAreDigits(t);
    assert forall i :: 0 <= i < m ==> t[..m][i] == t[i];
    DigitsLengthIs(t[..m], m);
  }

  /** JSON's exponent `[eE][+-]?[0-9]+`, or nothing. */
  predicate IsExponent(s: string)
  {
    s == [] ||
    ((s[0] == 'e' || s[0] == 'E') &&
     var u := if |s| > 1 && (s[1] == '+' || s[1] == '-') then s[2..] else s[1..];
     u != [] && AllDigits(u))
  }

  /** JSON's optional fraction `.[0-9]+`, then an exponent. */
  predicate IsFractionExponent(s: string)
  {
    if s != [] && s[0] == '.' then
      var d := DigitsLength(s[1..]);
      d > 0 && IsExponent(s[1 + d..])
    else IsExponent(s)
  }

  /** JSON's integer part `0` or `[1-9][0-9]*`, then a fraction and an exponent. */
  predicate IsUnsignedNumber(s: string)
  {
    s != [] &&
    if s[0] == '0' then IsFractionExponent(s[1..])
    else '1' <= s[0] <= '9' && IsFractionExponent(s[DigitsLength(s)..])
  }

  /** A JSON number: an optional `-` and an unsigned number. */
  predicate IsJsonNumber(s: string)
  {
    if s != [] && s[0] == '-' then IsUnsignedNumber(s[1..]) else IsUnsignedNumber(s)
  }

  /** The number texts `json.loads` reads: JSON numbers and Python's three special floats. */
  predicate IsNumberLiteral(s: string)
  {
    IsJsonNumber(s) || s == "NaN" || s == "Infinity" || s == "-Infinity"
  }

  /** The literal text of a number, such as `12.5`, `-3e2` or `NaN`. */
  type NumberLiteral = s: string | IsNumberLiteral(s) witness "0"

  /** One element of a visitor's `page_urls`, `scroll_depth` or `time_spent` list. */
  datatype Scalar = Str(s: string) | Num(literal: NumberLiteral)

  // ----- encoding -----

  /** String body with `"` and `\` preceded by a backslash. */
  function Escape(s: string): (r: string)
    ensures |r| >= |s|
  {
    if s == [] then []
    else (if s[0] == '"' || s[0] == '\\' then ['\\', s[0]] else [s[0]]) + Escape(s[1..])
  }

  function EncodeScalar(x: Scalar): string
  {
    match x
    case Str(s) => "\"" + Escape(s) + "\""
    case Num(l) => l
  }

  /** The items of a non-empty array, separated by ", ". */
  function EncodeItems(xs: seq<Scalar>): string
    requires |xs| > 0
  {
    if |xs| == 1 then EncodeScalar(xs[0]) else EncodeScalar(xs[0]) + ", " + EncodeItems(xs[1..])
  }

  /** `json.dumps(xs)` for a list of scalars. */
  function Encode(xs: seq<Scalar>): (cell: string)
    ensures |cell| >= 2 && cell[0] == '[' && cell[|cell| - 1] == ']'
  {
    if xs == [] then "[]" else "[" + EncodeItems(xs) + "]"
  }

  // ----- decoding -----

  /** Reads a string body up to its closing quote; yields the text and what follows the quote. */
  function ParseStringBody(t: string): (r: Option<(string, string)>)
    ensures r.Some? ==> |r.value.1| < |t| && r.value.1 == t[|t| - |r.value.1|..]
  {
    if |t| == 0 then None
    else if t[0] == '"' then Some(("", t[1..]))
    else if t[0] == '\\' then
      if |t| < 2 then None
      else match ParseStringBody(t[2..])
        case None => None
        case Some((s, rest)) => Some(([t[1]] + s, rest))
    else match ParseStringBody(t[1..])
      case None => None
      case Some((s, rest)) => Some(([t[0]] + s, rest))
  }

  /** Length of the exponent at the front of `t`; a mark with no digits is not taken. */
  function ExponentLength(t: string): (n: nat)
    ensures n <= |t|
  {
    if t != [] && (t[0] == 'e' || t[0] == 'E') then
      var k := if |t| > 1 && (t[1] == '+' || t[1] == '-') then 2 else 1;
      var d := DigitsLength(t[k..]);
      if d > 0 then k + d else 0
    else 0
  }

  /** Length of the fraction and exponent at the front of `t`; a `.` with no digits is not taken. */
  function FractionExponentLength(t: string): (n: nat)
    ensures n <= |t|
  {
    if |t| > 1 && t[0] == '.' && IsDigit(t[1]) then
      var d := DigitsLength(t[1..]);
      1 + d + ExponentLength(t[1 + d..])
    else ExponentLength(t)
  }

  /** Length of the unsigned number at the front of `t`; 0 when none starts there. */
  function UnsignedLength(t: string): (n: nat)
    ensures n <= |t|
  {
    if t == [] then 0
    else if t[0] == '0' then 1 + FractionExponentLength(t[1..])
    else if '1' <= t[0] <= '9' then
      var d := DigitsLength(t);
      d + FractionExponentLength(t[d..])
    else 0
  }

  /** Length of the JSON number at the front of `t`; 0 when none starts there. */
  function FiniteLength(t: string): (n: nat)
    ensures n <= |t|
  {
    if t != [] && t[0] == '-' then
      var u := UnsignedLength(t[1..]);
      if u == 0 then 0 else 1 + u
    else UnsignedLength(t)
  }

  /**
   * How much of `t` the number scanner of `json.loads` takes: `NaN`,
   * `Infinity` or `-Infinity`, otherwise the longest JSON number at the front.
   */
  function NumberPrefixLength(t: string): (n: nat)
    ensures n <= |t|
  {
    if |t| >= 3 && t[..3] == "NaN" then 3
    else if |t| >= 8 && t[..8] == "Infinity" then 8
    else if |t| >= 9 && t[..9] == "-Infinity" then 9
    else FiniteLength(t)
  }

  // ----- what the scanner takes is a number -----

  lemma ExponentSound(t: string)
    ensures IsExponent(t[..ExponentLength(t)])
  {
    var n := ExponentLength(t);
    if n > 0 {
      var k := if |t| > 1 && (t[1] == '+' || t[1] == '-') then 2 else 1;
      DigitsPrefix(t[k..], n - k);
      assert t[..n][k..] == t[k..][..n - k];
    }
  }

  /** A `.`, a run of digits ended by a non-digit or the end, then an exponent, is a fraction and exponent. */
  lemma FractionParts(p: string, d: nat)
    requires 0 < d < |p| && p[0] == '.'
    requires forall i :: 1 <= i <= d ==> IsDigit(p[i])
    requires 1 + d < |p| ==> !IsDigit(p[1 + d])
    requires IsExponent(p[1 + d..])
    ensures IsFractionExponent(p)
  {
    assert forall i :: 0 <= i < d ==> p[1..][i] == p[i + 1];
    DigitsLengthIs(p[1..], d);
  }

  lemma FractionExponentSound(t: string)
    ensures IsFractionExponent(t[..FractionExponentLength(t)])
  {
    if |t| > 1 && t[0] == '.' && IsDigit(t[1]) {
      var d := DigitsLength(t[1..]);
      var e := ExponentLength(t[1 + d..]);
      var p := t[..1 + d + e];
      DigitsAreDigits(t[1..]);
      ExponentSound(t[1 + d..]);
      assert p[1 + d..] == t[1 + d..][..e];
      assert forall i :: 1 <= i <= d ==> p[i] == t[1..][i - 1];
      assert e > 0 ==> p[1 + d] == t[1 + d..][0];
      FractionParts(p, d);
    } else {
      var n := ExponentLength(t);
      ExponentSound(t);
      assert n > 0 ==> t[..n][0] == t[0] != '.';
    }
  }

  /** A run of digits led by a non-zero digit, then a fraction and exponent, is an unsigned number. */
  lemma DigitsThenFraction(t: string, d: nat, f: nat)
    requires 0 < d <= |t| && '1' <= t[0] <= '9' && d == DigitsLength(t)
    requires d + f <= |t| && IsFractionExponent(t[d..][..f])
    ensures IsUnsignedNumber(t[..d + f])
  {
    var p := t[..d + f];
    DigitsAreDigits(t);
    assert forall i :: 0 <= i < d ==> p[i] == t[i];
    assert d < |p| ==> p[d] == t[d];
    DigitsLengthIs(p, d);
    assert p[d..] == t[d..][..f];
  }

  lemma UnsignedSound(t: string)
    ensures UnsignedLength(t) > 0 ==> IsUnsignedNumber(t[..UnsignedLength(t)])
  {
    if t == [] {
    } else if t[0] == '0' {
      var f := FractionExponentLength(t[1..]);
      FractionExponentSound(t[1..]);
      assert t[..1 + f][1..] == t[1..][..f];
    } else if '1' <= t[0] <= '9' {
      var d := DigitsLength(t);
      FractionExponentSound(t[d..]);
      DigitsThenFraction(t, d, FractionExponentLength(t[d..]));
    }
  }

  lemma FiniteSound(t: string)
    ensures FiniteLength(t) > 0 ==> IsJsonNumber(t[..FiniteLength(t)])
  {
    if t != [] && t[0] == '-' {
      var u := UnsignedLength(t[1..]);
      UnsignedSound(t[1..]);
      if u > 0 {
        assert t[..1 + u][1..] == t[1..][..u];
      }
    } else {
      UnsignedSound(t);
    }
  }

  /** Whatever the number scanner takes is a number literal. */
  lemma NumberPrefixSound(t: string)
    ensures NumberPrefixLength(t) > 0 ==> IsNumberLiteral(t[..NumberPrefixLength(t)])
  {
    FiniteSound(t);
  }

  /** Reads one scalar from the front of `t`; yields it and the rest. */
  function ParseScalar(t: string): (r: Option<(Scalar, string)>)
    ensures r.Some? ==> |r.value.1| < |t| && r.value.1 == t[|t| - |r.value.1|..]
  {
    if |t| > 0 && t[0] == '"' then
      match ParseStringBody(t[1..])
      case None => None
      case Some((s, rest)) => Some((Str(s), rest))
    else
      var n := NumberPrefixLength(t);
      if n == 0 then None
      else
        NumberPrefixSound(t);
        Some((Num(t[..n]), t[n..]))
  }

  /** Reads `item, item, ..., item]` up to the end of `t`. */
  function ParseItems(t: string): (r: Option<seq<Scalar>>)
    ensures r.Some? ==> |r.value| > 0 && |t| > 0 && t[|t| - 1] == ']'
    decreases |t|
  {
    match ParseScalar(t)
    case None => None
    case Some((x, rest)) =>
      if rest == "]" then Some([x])
      else if |rest| >= 2 && rest[..2] == ", " then
        match ParseItems(rest[2..])
        case None => None
        case Some(xs) => Some([x] + xs)
      else None
  }

  /**
   * Reads back a cell in the layout `Encode` writes: `[`, items separated by
   * ", ", `]`. Strings are quoted, a backslash taking the next character
   * literally; numbers follow JSON's grammar and may also be `NaN`, `Infinity`
   * or `-Infinity`, as `json.loads` reads them. Any other layout gives `None`.
   */
  function Decode(cell: string): (r: Option<seq<Scalar>>)
    ensures cell == "[]" ==> r == Some([])
    ensures r.Some? ==> |cell| >= 2 && cell[0] == '[' && cell[|cell| - 1] == ']'
    ensures r.Some? && r.value == [] ==> cell == "[]"
  {
    if cell == "[]" then Some([])
    else if |cell| > 0 && cell[0] == '[' then ParseItems(cell[1..])
    else None
  }

  /** A one-item cell fails when the scanner takes nothing or stops before a separator. */
  lemma NumberItemStops(t: string, n: nat)
    requires t != [] && t[0] != '"' && t != "]" && n == NumberPrefixLength(t)
    requires n == 0 || (t[n..] != "]" && (|t[n..]| < 2 || t[n..][..2] != ", "))
    ensures Decode("[" + t) == None
  {
    assert ("[" + t)[1..] == t;
  }

  /** A sign or a dot with no digit before it is not a number: `json.loads` raises on these cells. */
  lemma SignOrDotCell(cell: string)
    requires cell == "[+]" || cell == "[-]" || cell == "[.5]"
    ensures Decode(cell) == None
  {
    var t := cell[1..];
    assert cell == "[" + t;
    if cell == "[-]" {
      assert UnsignedLength(t[1..]) == 0;
    }
    NumberItemStops(t, 0);
  }

  /**
   * A leading zero followed by a digit, an `e` with no digits and a `.` with
   * no digits end the number after its first digit, so what follows is not a
   * separator: `json.loads` raises on these cells.
   */
  lemma TruncatedNumberCell(cell: string)
    requires cell == "[01]" || cell == "[1e]" || cell == "[1.]"
    ensures Decode(cell) == None
  {
    var t := cell[1..];
    assert cell == "[" + t;
    if cell == "[01]" {
      assert FractionExponentLength(t[1..]) == 0;
    } else {
      assert DigitsLength(t[1..]) == 0;
      assert DigitsLength(t) == 1;
      assert FractionExponentLength(t[1..]) == 0;
    }
    NumberItemStops(t, 1);
  }

  /** Python's special floats decode. */
  lemma SpecialFloatCell()
    ensures Decode("[NaN]") == Some([Num("NaN")])
  {
  }

  // ----- round trip -----

  lemma {:induction false} StringRoundTrip(s: string, rest: string)
    ensures ParseStringBody(Escape(s) + "\"" + rest) == Some((s, rest))
  {
    var t := Escape(s) + "\"" + rest;
    if s == [] {
      assert t == "\"" + rest;
    } else if s[0] == '"' || s[0] == '\\' {
      assert t == ['\\', s[0]] + (Escape(s[1..]) + "\"" + rest);
      assert t[2..] == Escape(s[1..]) + "\"" + rest;
      StringRoundTrip(s[1..], rest);
      assert [s[0]] + s[1..] == s;
    } else {
      assert t == [s[0]] + (Escape(s[1..]) + "\"" + rest);
      assert t[1..] == Escape(s[1..]) + "\"" + rest;
      StringRoundTrip(s[1..], rest);
      assert [s[0]] + s[1..] == s;
    }
  }

  /** Text that cannot continue a number: nothing, or a character that is not part of one. */
  predicate StopsNumber(rest: string)
  {
    rest == [] || !IsNumberChar(rest[0])
  }

  /** The run of digits of `a + rest` is that of `a` when it ends inside `a` or `rest` cannot continue it. */
  lemma DigitsAcross(a: string, rest: string)
    requires DigitsLength(a) < |a| || StopsNumber(rest)
    ensures DigitsLength(a + rest) == DigitsLength(a)
  {
    var d := DigitsLength(a);
    var t := a + rest;
    DigitsAreDigits(a);
    assert forall i :: 0 <= i < d ==> t[i] == a[i];
    assert d < |t| ==> t[d] == if d < |a| then a[d] else rest[0];
    DigitsLengthIs(t, d);
  }

  lemma {:induction false} ExponentRoundTrip(s: string, rest: string)
    requires IsExponent(s) && StopsNumber(rest)
    ensures ExponentLength(s + rest) == |s|
  {
    var t := s + rest;
    if s != [] {
      var k := if |s| > 1 && (s[1] == '+' || s[1] == '-') then 2 else 1;
      assert |s| >= 2 && t[0] == s[0] && t[1] == s[1];
      assert k == if |t| > 1 && (t[1] == '+' || t[1] == '-') then 2 else 1;
      DigitsAcross(s[k..], rest);
      assert t[k..] == s[k..] + rest;
      assert DigitsLength(t[k..]) == |s| - k > 0;
    } else {
      assert t == rest;
    }
  }

  /** A `.`, its digits and an exponent, followed by text that cannot continue them, are scanned back whole. */
  lemma FractionRoundTrip(s: string, rest: string)
    requires s != [] && s[0] == '.' && IsFractionExponent(s) && StopsNumber(rest)
    ensures FractionExponentLength(s + rest) == |s|
  {
    var p, t := s[1..], s + rest;
    var d := DigitsLength(p);
    assert t[0] == '.' && t[1..] == p + rest;
    DigitsAcross(p, rest);
    assert IsDigit(t[1]) by { assert t[1] == p[0]; }
    assert t[1 + d..] == p[d..] + rest;
    ExponentRoundTrip(p[d..], rest);
  }

  lemma FractionExponentRoundTrip(s: string, rest: string)
    requires IsFractionExponent(s) && StopsNumber(rest)
    ensures FractionExponentLength(s + rest) == |s|
  {
    if s != [] && s[0] == '.' {
      FractionRoundTrip(s, rest);
    } else {
      var t := s + rest;
      assert t != [] ==> t[0] == if s != [] then s[0] else rest[0];
      ExponentRoundTrip(s, rest);
    }
  }

  lemma {:induction false} UnsignedRoundTrip(s: string, rest: string)
    requires IsUnsignedNumber(s) && StopsNumber(rest)
    ensures UnsignedLength(s + rest) == |s|
  {
    var t := s + rest;
    assert t[0] == s[0];
    if s[0] == '0' {
      assert t[1..] == s[1..] + rest;
      FractionExponentRoundTrip(s[1..], rest);
    } else {
      var d := DigitsLength(s);
      assert d < |s| ==> s[d] == '.' || s[d] == 'e' || s[d] == 'E';
      DigitsAcross(s, rest);
      assert t[d..] == s[d..] + rest;
      FractionExponentRoundTrip(s[d..], rest);
    }
  }

  lemma {:induction false} FiniteRoundTrip(l: string, rest: string)
    requires IsJsonNumber(l) && StopsNumber(rest)
    ensures FiniteLength(l + rest) == |l|
  {
    var t := l + rest;
    assert t[0] == l[0];
    if l[0] == '-' {
      assert t[1..] == l[1..] + rest;
      UnsignedRoundTrip(l[1..], rest);
    } else {
      UnsignedRoundTrip(l, rest);
    }
  }

  /** A JSON number starts with a digit, or with `-` and a digit. */
  lemma JsonNumberStart(l: string)
    requires IsJsonNumber(l)
    ensures |l| > 0 && (IsDigit(l[0]) || (|l| > 1 && l[0] == '-' && IsDigit(l[1])))
  {
  }

  /** Python's special floats are scanned back whole, whatever follows. */
  lemma SpecialRoundTrip(l: string, rest: string)
    requires l == "NaN" || l == "Infinity" || l == "-Infinity"
    ensures NumberPrefixLength(l + rest) == |l|
  {
    var t := l + rest;
    assert t[..|l|] == l;
    if l != "NaN" {
      assert t[..3][0] == l[0] != 'N';
    }
    if l == "-Infinity" {
      assert t[..8][0] == '-';
    }
  }

  /** Text that starts like a JSON number is not taken for a special float. */
  lemma NotSpecial(t: string)
    requires t != [] && (IsDigit(t[0]) || (|t| > 1 && t[0] == '-' && IsDigit(t[1])))
    ensures NumberPrefixLength(t) == FiniteLength(t)
  {
    assert |t| >= 3 ==> t[..3][0] == t[0];
    assert |t| >= 8 ==> t[..8][0] == t[0];
    assert |t| >= 9 ==> t[..9][1] == t[1];
  }

  /** A JSON number followed by text that cannot continue it is scanned back whole. */
  lemma JsonNumberRoundTrip(l: string, rest: string)
    requires IsJsonNumber(l) && StopsNumber(rest)
    ensures NumberPrefixLength(l + rest) == |l|
  {
    var t := l + rest;
    JsonNumberStart(l);
    assert t[0] == l[0] && (|l| > 1 ==> t[1] == l[1]);
    NotSpecial(t);
    FiniteRoundTrip(l, rest);
  }

  /** A number literal is scanned back whole when text that cannot continue it follows. */
  lemma NumberPrefixRoundTrip(l: NumberLiteral, rest: string)
    requires StopsNumber(rest)
    ensures NumberPrefixLength(l + rest) == |l|
  {
    if IsJsonNumber(l) {
      JsonNumberRoundTrip(l, rest);
    } else {
      SpecialRoundTrip(l, rest);
    }
  }

  /** A scalar followed by text that cannot continue it reads back as itself. */
  lemma {:induction false} ScalarRoundTrip(x: Scalar, rest: string)
    requires StopsNumber(rest)
    ensures ParseScalar(EncodeScalar(x) + rest) == Some((x, rest))
  {
    match x
    case Str(s) => QuotedRoundTrip(s, rest);
    case Num(l) => NumberRoundTrip(l, rest);
  }

  lemma {:induction false} QuotedRoundTrip(s: string, rest: string)
    ensures ParseScalar("\"" + Escape(s) + "\"" + rest) == Some((Str(s), rest))
  {
    var t := "\"" + Escape(s) + "\"" + rest;
    assert t[0] == '"';
    assert t[1..] == Escape(s) + "\"" + rest;
    StringRoundTrip(s, rest);
  }

  lemma {:induction false} NumberRoundTrip(l: NumberLiteral, rest: string)
    requires StopsNumber(rest)
    ensures ParseScalar(l + rest) == Some((Num(l), rest))
  {
    var t := l + rest;
    assert t[0] == l[0];
    NumberPrefixRoundTrip(l, rest);
    assert t[..|l|] == l;
    assert t[|l|..] == rest;
  }

  /** One encoded scalar and `, ` in front of a parsed item list parse to one more item. */
  lemma ItemsCons(x: Scalar, more: string, xs: seq<Scalar>)
    requires ParseItems(more) == Some(xs)
    ensures ParseItems(EncodeScalar(x) + ", " + more) == Some([x] + xs)
  {
    var tail := ", " + more;
    assert EncodeScalar(x) + ", " + more == EncodeScalar(x) + tail;
    ScalarRoundTrip(x, tail);
    assert tail[..2] == ", " && tail[2..] == more;
  }

  lemma {:induction false} ItemsRoundTrip(xs: seq<Scalar>)
    requires |xs| > 0
    ensures ParseItems(EncodeItems(xs) + "]") == Some(xs)
  {
    if |xs| == 1 {
      ScalarRoundTrip(xs[0], "]");
      assert [xs[0]] == xs;
    } else {
      var more := EncodeItems(xs[1..]) + "]";
      ItemsRoundTrip(xs[1..]);
      ItemsCons(xs[0], more, xs[1..]);
      assert EncodeItems(xs) + "]" == EncodeScalar(xs[0]) + ", " + more;
      assert [xs[0]] + xs[1..] == xs;
    }
  }

  /** `json.loads(json.dumps(xs)) == xs`: a list survives a trip through a CSV cell. */
  lemma DecodeEncode(xs: seq<Scalar>)
    ensures Decode(Encode(xs)) == Some(xs)
  {
    if xs != [] {
      var cell := Encode(xs);
      assert cell[1..] == EncodeItems(xs) + "]";
      if cell == "[]" {
        assert |EncodeItems(xs)| == 0;
        EncodeItemsNonEmpty(xs);
      }
      ItemsRoundTrip(xs);
    }
  }

  lemma EncodeItemsNonEmpty(xs: seq<Scalar>)
    requires |xs| > 0
    ensures |EncodeItems(xs)| > 0
  {
    match xs[0]
    case Str(s) =>
    case Num(l) =>
  }

  /** Distinct lists are written as distinct cells. */
  lemma EncodeInjective(xs: seq<Scalar>, ys: seq<Scalar>)
    requires Encode(xs) == Encode(ys)
    ensures xs == ys
  {
    DecodeEncode(xs);
    DecodeEncode(ys);
  }
}
