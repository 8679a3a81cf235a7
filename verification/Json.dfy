/**
 The JSON reader and the compact writer. The reader works on what is left of the input and returns a value
 with the input after it. A number keeps its token.
 */
module Json {
  import opened Common
  import opened Numbers

  datatype JVal =
    | Null
    | Bool(b: bool)
    | Num(n: Numeral)
    | Str(s: string)
    | Arr(items: seq<JVal>)
    | Obj(pairs: seq<(string, JVal)>)

  datatype Parsed<+T> = Fail | Got(value: T, rest: string)

  const MAX_DEPTH: nat := 64
  const REPLACEMENT: char := '\U{FFFD}'

  // ---------------------------------------------------------------- lexing

  predicate IsWs(c: char) { c == ' ' || c == '\t' || c == '\n' || c == '\r' }

  function SkipWs(s: string): (r: string)
    ensures |r| <= |s|
    ensures r == [] || !IsWs(r[0])
  {
    if s != [] && IsWs(s[0]) then SkipWs(s[1..]) else s
  }

  predicate Starts(s: string, c: char) { s != [] && s[0] == c }

  predicate StartsWith(s: string, word: string) { |word| <= |s| && s[..|word|] == word }

  /** The leading run of digits. */
  function Digits(s: string): (d: string)
    ensures |d| <= |s|
    ensures |d| < |s| ==> !IsDigit(s[|d|])
  {
    if s == [] || !IsDigit(s[0]) then [] else [s[0]] + Digits(s[1..])
  }

  function AfterDigits(s: string): (r: string)
    ensures |Digits(s)| + |r| == |s|
    ensures r == [] || !IsDigit(r[0])
  {
    s[|Digits(s)|..]
  }

  function Fraction(s: string): (r: Parsed<Option<string>>)
    ensures r.Got? && |r.rest| + |OrEmpty(r.value)| <= |s|
  {
    if Starts(s, '.') then Got(Some(Digits(s[1..])), AfterDigits(s[1..])) else Got(None, s)
  }

  function ExponentSign(s: string): string {
    if Starts(s, '+') || Starts(s, '-') then s[..1] else []
  }

  function ExponentPart(s: string): (r: Parsed<Exponent>)
    ensures r.Got? && |r.rest| <= |s|
  {
    if Starts(s, 'e') || Starts(s, 'E') then
      var sign := ExponentSign(s[1..]);
      var t := s[1..][|sign|..];
      Got(Exponent(s[0], sign, Digits(t)), AfterDigits(t))
    else Got(NoExponent, s)
  }

  /** The token after its sign. */
  function Unsigned(s: string, negative: bool): (r: Parsed<Numeral>)
    ensures r.Got? && |r.rest| + |r.value.whole| + |OrEmpty(r.value.fraction)| <= |s|
  {
    var f := Fraction(AfterDigits(s));
    var e := ExponentPart(f.rest);
    Got(Numeral(negative, Digits(s), f.value, e.value), e.rest)
  }

  function Number(s: string): (r: Parsed<JVal>)
    ensures r.Got? ==> |r.rest| < |s| && r.value.Num?
  {
    var u := if Starts(s, '-') then Unsigned(s[1..], true) else Unsigned(s, false);
    if Accepted(u.value) then Got(Num(u.value), u.rest) else Fail
  }

  // ---------------------------------------------------------------- strings

  function HexValue(c: char): (r: Option<nat>)
    ensures r.Some? ==> r.value < 16
  {
    if '0' <= c <= '9' then Some(c as int - '0' as int)
    else if 'a' <= c <= 'f' then Some(c as int - 'a' as int + 10)
    else if 'A' <= c <= 'F' then Some(c as int - 'A' as int + 10)
    else None
  }

  /** Four hexadecimal digits; the radix parser also takes a leading plus sign. */
  function Hex4(s: string): (r: Parsed<nat>)
    ensures r.Got? ==> r.value < 0x10000 && |s| >= 4 && r.rest == s[4..]
  {
    if |s| < 4 then Fail else
    var a := if s[0] == '+' then Some(0) else HexValue(s[0]);
    var b, c, d := HexValue(s[1]), HexValue(s[2]), HexValue(s[3]);
    if a.None? || b.None? || c.None? || d.None? then Fail
    else Got(4096 * a.value + 256 * b.value + 16 * c.value + d.value, s[4..])
  }

  predicate IsHigh(n: nat) { 0xD800 <= n < 0xDC00 }

  predicate IsLow(n: nat) { 0xDC00 <= n < 0xE000 }

  /** A code unit on its own: a surrogate becomes the replacement character. */
  function Unit(n: nat): char
    requires n < 0x10000
  {
    if IsHigh(n) || IsLow(n) then REPLACEMENT else n as char
  }

  function Pair(hi: nat, lo: nat): char
    requires IsHigh(hi) && IsLow(lo)
  {
    (0x10000 + (hi - 0xD800) * 0x400 + (lo - 0xDC00)) as char
  }

  /** After backslash and u. */
  function Unicode(s: string): (r: Parsed<char>)
    ensures r.Got? ==> |r.rest| < |s|
  {
    match Hex4(s)
    case Fail => Fail
    case Got(hi, r) =>
      if IsHigh(hi) && StartsWith(r, "\\u") then
        match Hex4(r[2..])
        case Fail => Fail
        case Got(lo, q) => Got(if IsLow(lo) then Pair(hi, lo) else REPLACEMENT, q)
      else Got(Unit(hi), r)
  }

  function SimpleEscape(c: char): Option<char> {
    match c
    case '"' => Some('"')
    case '\\' => Some('\\')
    case '/' => Some('/')
    case 'b' => Some('\U{08}')
    case 'f' => Some('\U{0C}')
    case 'n' => Some('\n')
    case 'r' => Some('\r')
    case 't' => Some('\t')
    case _ => None
  }

  /** After a backslash. */
  function Escape(s: string): (r: Parsed<char>)
    ensures r.Got? ==> |r.rest| < |s|
  {
    if s == [] then Fail
    else if s[0] == 'u' then Unicode(s[1..])
    else if SimpleEscape(s[0]).Some? then Got(SimpleEscape(s[0]).value, s[1..])
    else Fail
  }

  function Cons(c: char, p: Parsed<string>): Parsed<string> {
    if p.Got? then Got([c] + p.value, p.rest) else Fail
  }

  /** After the opening quote. */
  function StringBody(s: string): (r: Parsed<string>)
    ensures r.Got? ==> |r.rest| < |s|
    decreases |s|
  {
    if s == [] then Fail
    else if s[0] == '"' then Got([], s[1..])
    else if s[0] == '\\' then
      match Escape(s[1..])
      case Fail => Fail
      case Got(c, r) => Cons(c, StringBody(r))
    else if s[0] < ' ' then Fail
    else Cons(s[0], StringBody(s[1..]))
  }

  // ---------------------------------------------------------------- values

  function Literal(s: string, word: string, v: JVal): Parsed<JVal> {
    if StartsWith(s, word) then Got(v, s[|word|..]) else Fail
  }

  function Word(s: string): (r: Parsed<JVal>)
    requires s != []
    ensures r.Got? ==> |r.rest| < |s| && (r.value.Bool? || r.value.Null?)
  {
    if s[0] == 't' then Literal(s, "true", Bool(true))
    else if s[0] == 'f' then Literal(s, "false", Bool(false))
    else if s[0] == 'n' then Literal(s, "null", Null)
    else Fail
  }

  function Scalar(s: string): (r: Parsed<JVal>)
    requires s != []
    ensures r.Got? ==> |r.rest| < |s|
    ensures r.Got? ==> !r.value.Arr? && !r.value.Obj?
  {
    if s[0] == '"' then
      match StringBody(s[1..])
      case Fail => Fail
      case Got(t, r) => Got(Str(t), r)
    else if s[0] == '-' || IsDigit(s[0]) then Number(s)
    else Word(s)
  }

  function Value(s: string, depth: nat): (r: Parsed<JVal>)
    ensures r.Got? ==> |r.rest| < |s|
    decreases |s|, 2
  {
    if depth > MAX_DEPTH then Fail else
    var t := SkipWs(s);
    if t == [] then Fail
    else if t[0] == '{' then Object(t[1..], depth)
    else if t[0] == '[' then Array(t[1..], depth)
    else Scalar(t)
  }

  /** After the opening brace. */
  function Object(s: string, depth: nat): (r: Parsed<JVal>)
    requires depth <= MAX_DEPTH
    ensures r.Got? ==> |r.rest| < |s| && r.value.Obj?
    decreases |s|, 2
  {
    var t := SkipWs(s);
    if Starts(t, '}') then Got(Obj([]), t[1..]) else
    match Members(s, depth)
    case Fail => Fail
    case Got(ps, r) => Got(Obj(ps), r)
  }

  /** One key, its colon and its value. */
  function Member(s: string, depth: nat): (r: Parsed<(string, JVal)>)
    requires depth <= MAX_DEPTH
    ensures r.Got? ==> |r.rest| < |s|
    decreases |s|, 0
  {
    var t := SkipWs(s);
    if !Starts(t, '"') then Fail else
    match StringBody(t[1..])
    case Fail => Fail
    case Got(key, q) =>
      var c := SkipWs(q);
      if !Starts(c, ':') then Fail else
      match Value(c[1..], depth + 1)
      case Fail => Fail
      case Got(v, r) => Got((key, v), r)
  }

  function Members(s: string, depth: nat): (r: Parsed<seq<(string, JVal)>>)
    requires depth <= MAX_DEPTH
    ensures r.Got? ==> |r.rest| < |s|
    decreases |s|, 1
  {
    match Member(s, depth)
    case Fail => Fail
    case Got(m, q) =>
      var c := SkipWs(q);
      if Starts(c, ',') then
        match Members(c[1..], depth)
        case Fail => Fail
        case Got(ms, r) => Got([m] + ms, r)
      else if Starts(c, '}') then Got([m], c[1..])
      else Fail
  }

  /** After the opening bracket. */
  function Array(s: string, depth: nat): (r: Parsed<JVal>)
    requires depth <= MAX_DEPTH
    ensures r.Got? ==> |r.rest| < |s| && r.value.Arr?
    decreases |s|, 4
  {
    var t := SkipWs(s);
    if Starts(t, ']') then Got(Arr([]), t[1..]) else
    match Items(s, depth)
    case Fail => Fail
    case Got(vs, r) => Got(Arr(vs), r)
  }

  function Items(s: string, depth: nat): (r: Parsed<seq<JVal>>)
    requires depth <= MAX_DEPTH
    ensures r.Got? ==> |r.rest| < |s|
    decreases |s|, 3
  {
    match Value(s, depth + 1)
    case Fail => Fail
    case Got(v, q) =>
      var c := SkipWs(q);
      if Starts(c, ',') then
        match Items(c[1..], depth)
        case Fail => Fail
        case Got(vs, r) => Got([v] + vs, r)
      else if Starts(c, ']') then Got([v], c[1..])
      else Fail
  }

  /** One complete value; anything but white space after it is an error. */
  function Parse(s: string): Option<JVal> {
    match Value(s, 0)
    case Fail => None
    case Got(v, r) => if SkipWs(r) == [] then Some(v) else None
  }

  // ---------------------------------------------------------------- input that goes on

  /** What a reader got from p it gets from any longer input, with the extra input left over. */
  predicate Extends<T(==)>(short: Parsed<T>, long: Parsed<T>, t: string) {
    short.Got? && long == Got(short.value, short.rest + t)
  }

  lemma {:induction false} SkipWsExtends(p: string, t: string)
    requires SkipWs(p) != []
    ensures SkipWs(p + t) == SkipWs(p) + t
  {
    if p != [] && IsWs(p[0]) {
      SkipWsExtends(p[1..], t);
      assert (p + t)[1..] == p[1..] + t;
    }
  }

  lemma DropExtends(p: string, k: nat, t: string)
    requires k <= |p|
    ensures (p + t)[k..] == p[k..] + t
  {
  }

  /** The next token starts the same way. */
  lemma NextExtends(p: string, t: string)
    requires SkipWs(p) != []
    ensures SkipWs(p + t) != [] && SkipWs(p + t)[0] == SkipWs(p)[0] && SkipWs(p + t)[1..] == SkipWs(p)[1..] + t
  {
    SkipWsExtends(p, t);
    DropExtends(SkipWs(p), 1, t);
  }

  lemma {:induction false} DigitsExtend(p: string, t: string)
    requires AfterDigits(p) != []
    ensures Digits(p + t) == Digits(p) && AfterDigits(p + t) == AfterDigits(p) + t
  {
    if p != [] && IsDigit(p[0]) {
      assert Digits(p) == [p[0]] + Digits(p[1..]);
      assert AfterDigits(p[1..]) == AfterDigits(p);
      DigitsExtend(p[1..], t);
      assert (p + t)[1..] == p[1..] + t;
    }
  }

  lemma FractionExtends(p: string, t: string)
    requires Fraction(p).rest != []
    ensures Extends(Fraction(p), Fraction(p + t), t)
  {
    if Starts(p, '.') {
      DigitsExtend(p[1..], t);
      DropExtends(p, 1, t);
    }
  }

  lemma SignExtends(q: string, t: string)
    requires q != []
    ensures ExponentSign(q + t) == ExponentSign(q)
  {
    assert (q + t)[..1] == q[..1];
  }

  lemma ExponentStep(s: string, sign: string, d: string, r: string)
    requires Starts(s, 'e') || Starts(s, 'E')
    requires sign == ExponentSign(s[1..]) && d == Digits(s[1..][|sign|..]) && r == AfterDigits(s[1..][|sign|..])
    ensures ExponentPart(s) == Got(Exponent(s[0], sign, d), r)
  {
  }

  lemma ExponentExtends(p: string, t: string)
    requires ExponentPart(p).rest != []
    ensures Extends(ExponentPart(p), ExponentPart(p + t), t)
  {
    if Starts(p, 'e') || Starts(p, 'E') {
      var q := p[1..];
      var sign := ExponentSign(q);
      var d, r := Digits(q[|sign|..]), AfterDigits(q[|sign|..]);
      DropExtends(p, 1, t);
      SignExtends(q, t);
      AfterSignExtends(q, |sign|, t);
      ExponentStep(p, sign, d, r);
      ExponentStep(p + t, sign, d, r + t);
    }
  }

  lemma AfterSignExtends(q: string, k: nat, t: string)
    requires k <= |q| && AfterDigits(q[k..]) != []
    ensures Digits((q + t)[k..]) == Digits(q[k..]) && AfterDigits((q + t)[k..]) == AfterDigits(q[k..]) + t
  {
    DropExtends(q, k, t);
    DigitsExtend(q[k..], t);
  }

  lemma UnsignedExtends(p: string, negative: bool, t: string)
    requires Unsigned(p, negative).rest != []
    ensures Extends(Unsigned(p, negative), Unsigned(p + t, negative), t)
  {
    ExponentExtends(Fraction(AfterDigits(p)).rest, t);
    FractionExtends(AfterDigits(p), t);
    DigitsExtend(p, t);
  }

  lemma NumberExtends(p: string, t: string)
    requires Number(p).Got? && Number(p).rest != []
    ensures Extends(Number(p), Number(p + t), t)
  {
    if Starts(p, '-') {
      DropExtends(p, 1, t);
      UnsignedExtends(p[1..], true, t);
    } else {
      UnsignedExtends(p, false, t);
    }
  }

  lemma Hex4Extends(p: string, t: string)
    requires Hex4(p).Got?
    ensures Extends(Hex4(p), Hex4(p + t), t)
  {
    DropExtends(p, 4, t);
  }

  /** A lone high surrogate could still be paired by the next two characters, so those must be known. */
  predicate Settled(r: string) { |r| >= 2 || (|r| == 1 && r[0] != '\\') }

  lemma UnicodeExtends(p: string, t: string)
    requires Unicode(p).Got? && Settled(Unicode(p).rest)
    ensures Extends(Unicode(p), Unicode(p + t), t)
  {
    Hex4Extends(p, t);
    var r := Hex4(p).rest;
    if IsHigh(Hex4(p).value) {
      if StartsWith(r, "\\u") {
        DropExtends(r, 2, t);
        assert StartsWith(r + t, "\\u");
        Hex4Extends(r[2..], t);
      } else {
        assert (r + t)[0] == r[0] && (|r| >= 2 ==> (r + t)[..2] == r[..2]);
      }
    }
  }

  lemma EscapeExtends(p: string, t: string)
    requires Escape(p).Got? && Settled(Escape(p).rest)
    ensures Extends(Escape(p), Escape(p + t), t)
  {
    DropExtends(p, 1, t);
    if p[0] == 'u' { UnicodeExtends(p[1..], t); }
  }

  lemma UnfinishedString(r: string)
    requires !Settled(r)
    ensures StringBody(r).Fail?
  {
    if r != [] { assert r == "\\"; }
  }

  lemma {:induction false} StringBodyExtends(p: string, t: string)
    requires StringBody(p).Got?
    ensures Extends(StringBody(p), StringBody(p + t), t)
    decreases |p|
  {
    DropExtends(p, 1, t);
    if p[0] == '\\' {
      var r := Escape(p[1..]).rest;
      if !Settled(r) { UnfinishedString(r); }
      EscapeExtends(p[1..], t);
      StringBodyExtends(r, t);
    } else if p[0] != '"' {
      StringBodyExtends(p[1..], t);
    }
  }

  lemma LiteralExtends(p: string, word: string, v: JVal, t: string)
    requires Literal(p, word, v).Got?
    ensures Extends(Literal(p, word, v), Literal(p + t, word, v), t)
  {
    assert (p + t)[..|word|] == p[..|word|];
    DropExtends(p, |word|, t);
  }

  lemma ScalarExtends(p: string, t: string)
    requires p != [] && Scalar(p).Got? && (Scalar(p).value.Num? ==> Scalar(p).rest != [])
    ensures Extends(Scalar(p), Scalar(p + t), t)
  {
    if p[0] == '"' {
      DropExtends(p, 1, t);
      StringBodyExtends(p[1..], t);
    } else if p[0] == 't' { LiteralExtends(p, "true", Bool(true), t);
    } else if p[0] == 'f' { LiteralExtends(p, "false", Bool(false), t);
    } else if p[0] == 'n' { LiteralExtends(p, "null", Null, t);
    } else {
      NumberExtends(p, t);
    }
  }

  /** Only a number that ends the input can grow; every other complete value stays what it is. */
  lemma {:induction false} ValueExtends(p: string, depth: nat, t: string)
    requires Value(p, depth).Got? && (Value(p, depth).value.Num? ==> Value(p, depth).rest != [])
    ensures Extends(Value(p, depth), Value(p + t, depth), t)
    decreases |p|, 2
  {
    var q := SkipWs(p);
    NextExtends(p, t);
    if q[0] == '{' {
      ObjectExtends(q[1..], depth, t);
    } else if q[0] == '[' {
      ArrayExtends(q[1..], depth, t);
    } else {
      SkipWsExtends(p, t);
      ScalarExtends(q, t);
    }
  }

  lemma {:induction false} MemberExtends(p: string, depth: nat, t: string)
    requires depth <= MAX_DEPTH && Member(p, depth).Got? && SkipWs(Member(p, depth).rest) != []
    ensures Extends(Member(p, depth), Member(p + t, depth), t)
    decreases |p|, 0
  {
    var q := SkipWs(p);
    NextExtends(p, t);
    StringBodyExtends(q[1..], t);
    var k := StringBody(q[1..]).rest;
    var c := SkipWs(k);
    NextExtends(k, t);
    ValueExtends(c[1..], depth + 1, t);
  }

  lemma {:induction false} MembersExtend(p: string, depth: nat, t: string)
    requires depth <= MAX_DEPTH && Members(p, depth).Got?
    ensures Extends(Members(p, depth), Members(p + t, depth), t)
    decreases |p|, 1
  {
    var q := Member(p, depth).rest;
    var c := SkipWs(q);
    MemberExtends(p, depth, t);
    NextExtends(q, t);
    if Starts(c, ',') { MembersExtend(c[1..], depth, t); }
  }

  lemma {:induction false} ObjectExtends(p: string, depth: nat, t: string)
    requires depth <= MAX_DEPTH && Object(p, depth).Got?
    ensures Extends(Object(p, depth), Object(p + t, depth), t)
    decreases |p|, 2
  {
    var q := SkipWs(p);
    if q == [] { BlankHasNoMember(p, depth); }
    NextExtends(p, t);
    if !Starts(q, '}') { MembersExtend(p, depth, t); }
  }

  lemma BlankHasNoMember(p: string, depth: nat)
    requires depth <= MAX_DEPTH && SkipWs(p) == []
    ensures Members(p, depth).Fail? && Items(p, depth).Fail?
  {
  }

  lemma {:induction false} ItemsExtend(p: string, depth: nat, t: string)
    requires depth <= MAX_DEPTH && Items(p, depth).Got?
    ensures Extends(Items(p, depth), Items(p + t, depth), t)
    decreases |p|, 3
  {
    var q := Value(p, depth + 1).rest;
    var c := SkipWs(q);
    ValueExtends(p, depth + 1, t);
    NextExtends(q, t);
    if Starts(c, ',') { ItemsExtend(c[1..], depth, t); }
  }

  lemma {:induction false} ArrayExtends(p: string, depth: nat, t: string)
    requires depth <= MAX_DEPTH && Array(p, depth).Got?
    ensures Extends(Array(p, depth), Array(p + t, depth), t)
    decreases |p|, 4
  {
    var q := SkipWs(p);
    if q == [] { BlankHasNoMember(p, depth); }
    NextExtends(p, t);
    if !Starts(q, ']') { ItemsExtend(p, depth, t); }
  }

  /** A text cut short anywhere inside its last object or array does not read as anything. */
  lemma TornTextIsRejected(p: string, t: string)
    requires Parse(p + t).Some? && (Parse(p + t).value.Obj? || Parse(p + t).value.Arr?)
    requires t != [] && !IsWs(t[|t| - 1])
    ensures Parse(p).None?
  {
    if Parse(p).Some? {
      TornKind(p, t);
      ValueExtends(p, 0, t);
      LastIsNotSkipped(Value(p, 0).rest, t);
    }
  }

  lemma TornKind(p: string, t: string)
    requires Value(p, 0).Got? && Value(p + t, 0).Got? && !Value(p + t, 0).value.Num?
    requires Value(p + t, 0).value.Obj? || Value(p + t, 0).value.Arr?
    ensures !Value(p, 0).value.Num?
  {
    SkipWsExtends(p, t);
  }

  lemma {:induction false} LastIsNotSkipped(r: string, t: string)
    requires t != [] && !IsWs(t[|t| - 1])
    ensures SkipWs(r + t) != []
    decreases |r + t|
  {
    var u := r + t;
    if IsWs(u[0]) {
      if r == [] {
        assert u[1..] == [] + t[1..];
        LastIsNotSkipped([], t[1..]);
      } else {
        assert u[1..] == r[1..] + t;
        LastIsNotSkipped(r[1..], t);
      }
    }
  }

  // ---------------------------------------------------------------- writing

  function HexChar(n: nat): char
    requires n < 16
  {
    if n < 10 then (n + '0' as int) as char else (n - 10 + 'a' as int) as char
  }

  function EscapeChar(c: char): string {
    match c
    case '"' => "\\\""
    case '\\' => "\\\\"
    case '\n' => "\\n"
    case '\r' => "\\r"
    case '\t' => "\\t"
    case _ => if c < ' ' then ['\\', 'u', '0', '0', HexChar(c as int / 16), HexChar(c as int % 16)] else [c]
  }

  function EscapeJson(s: string): string {
    if s == [] then [] else EscapeChar(s[0]) + EscapeJson(s[1..])
  }

  function Quote(s: string): string { "\"" + EscapeJson(s) + "\"" }

  function Write(v: JVal): string
    decreases v, 0, 0
  {
    match v
    case Null => "null"
    case Bool(b) => if b then "true" else "false"
    case Num(n) => NumeralText(n)
    case Str(s) => Quote(s)
    case Arr(items) => "[" + WriteItems(items, 0) + "]"
    case Obj(pairs) => "{" + WritePairs(pairs, 0) + "}"
  }

  /** The items from index k on, each after the first with its comma. */
  function WriteItems(items: seq<JVal>, k: nat): string
    requires k <= |items|
    decreases items, 0, |items| - k
  {
    if k == |items| then []
    else (if k > 0 then "," else []) + Write(items[k]) + WriteItems(items, k + 1)
  }

  function WritePair(p: (string, JVal)): string
    decreases p, 1, 0
  {
    Quote(p.0) + ":" + Write(p.1)
  }

  function WritePairs(pairs: seq<(string, JVal)>, k: nat): string
    requires k <= |pairs|
    decreases pairs, 0, |pairs| - k
  {
    if k == |pairs| then []
    else (if k > 0 then "," else []) + WritePair(pairs[k]) + WritePairs(pairs, k + 1)
  }

  /** Every number in the value is a token the reader takes whole. */
  predicate WellFormed(v: JVal)
    decreases v
  {
    match v
    case Num(n) => IsNumeral(n)
    case Arr(items) => forall i :: 0 <= i < |items| ==> WellFormed(items[i])
    case Obj(pairs) => forall i :: 0 <= i < |pairs| ==> WellFormed(pairs[i].1)
    case _ => true
  }

  /** Every number in the value is a token or one of the spellings of what is not finite. */
  predicate Spelled(v: JVal)
    decreases v
  {
    match v
    case Num(n) => IsNumeral(n) || IsOdd(n)
    case Arr(items) => forall i :: 0 <= i < |items| ==> Spelled(items[i])
    case Obj(pairs) => forall i :: 0 <= i < |pairs| ==> Spelled(pairs[i].1)
    case _ => true
  }

  lemma {:induction false} WellFormedIsSpelled(v: JVal)
    requires WellFormed(v)
    ensures Spelled(v)
    decreases v
  {
    match v
    case Arr(items) => forall i | 0 <= i < |items| ensures Spelled(items[i]) { WellFormedIsSpelled(items[i]); }
    case Obj(pairs) => forall i | 0 <= i < |pairs| ensures Spelled(pairs[i].1) { WellFormedIsSpelled(pairs[i].1); }
    case _ =>
  }

  // ---------------------------------------------------------------- round trip

  lemma HexCharReads(n: nat)
    requires n < 16
    ensures HexValue(HexChar(n)) == Some(n)
  {
  }

  lemma ControlReads(c: char, u: string)
    requires c < ' '
    ensures Escape(['u', '0', '0', HexChar(c as int / 16), HexChar(c as int % 16)] + u) == Got(c, u)
  {
    var hi, lo := HexChar(c as int / 16), HexChar(c as int % 16);
    HexCharReads(c as int / 16);
    HexCharReads(c as int % 16);
    var e: string := ['u', '0', '0', hi, lo];
    var h: string := ['0', '0', hi, lo];
    assert (e + u)[1..] == h + u;
    assert (h + u)[4..] == u;
  }

  lemma EscapedStep(c: char, e: string, u: string)
    requires Escape(e + u) == Got(c, u)
    ensures StringBody(['\\'] + (e + u)) == Cons(c, StringBody(u))
  {
    Head('\\', e + u);
  }

  lemma SimpleEscapes(c: char, e: char, u: string)
    requires SimpleEscape(e) == Some(c)
    ensures Escape([e] + u) == Got(c, u)
  {
    Head(e, u);
  }

  lemma SimpleReads(c: char, e: char, u: string)
    requires SimpleEscape(e) == Some(c)
    ensures StringBody(['\\', e] + u) == Cons(c, StringBody(u))
  {
    SimpleEscapes(c, e, u);
    EscapedStep(c, [e], u);
    assert ['\\', e] + u == ['\\'] + ([e] + u);
  }

  lemma ControlStep(c: char, u: string)
    requires c < ' '
    ensures StringBody(['\\', 'u', '0', '0', HexChar(c as int / 16), HexChar(c as int % 16)] + u)
         == Cons(c, StringBody(u))
  {
    var e: string := ['u', '0', '0', HexChar(c as int / 16), HexChar(c as int % 16)];
    ControlReads(c, u);
    EscapedStep(c, e, u);
    assert ['\\', 'u', '0', '0', HexChar(c as int / 16), HexChar(c as int % 16)] + u == ['\\'] + (e + u);
  }

  lemma RawStep(c: char, u: string)
    requires c >= ' ' && c != '"' && c != '\\'
    ensures StringBody([c] + u) == Cons(c, StringBody(u))
  {
    Head(c, u);
  }

  lemma EscapeCharReads(c: char, u: string)
    ensures StringBody(EscapeChar(c) + u) == Cons(c, StringBody(u))
  {
    match c
    case '"' => SimpleReads(c, '"', u);
    case '\\' => SimpleReads(c, '\\', u);
    case '\n' => SimpleReads(c, 'n', u);
    case '\r' => SimpleReads(c, 'r', u);
    case '\t' => SimpleReads(c, 't', u);
    case _ => if c < ' ' { ControlStep(c, u); } else { RawStep(c, u); }
  }

  /** Any string comes back from its escaped form. */
  lemma {:induction false} StringReads(s: string, t: string)
    ensures StringBody(EscapeJson(s) + "\"" + t) == Got(s, t)
  {
    if s == [] {
      assert EscapeJson(s) + "\"" + t == "\"" + t;
    } else {
      var u := EscapeJson(s[1..]) + "\"" + t;
      assert EscapeJson(s) + "\"" + t == EscapeChar(s[0]) + u;
      EscapeCharReads(s[0], u);
      StringReads(s[1..], t);
      assert [s[0]] + s[1..] == s;
    }
  }

  lemma {:induction false} DigitsRead(d: string, t: string)
    requires AllDigits(d) && (t == [] || !IsDigit(t[0]))
    ensures Digits(d + t) == d && AfterDigits(d + t) == t
  {
    if d == [] {
      assert d + t == t;
    } else {
      DigitsRead(d[1..], t);
      assert (d + t)[1..] == d[1..] + t;
      assert Digits(d + t) == [d[0]] + d[1..] == d;
    }
  }

  lemma Head(c: char, u: string)
    ensures ([c] + u)[0] == c && ([c] + u)[1..] == u
  {
  }

  predicate IsNumberChar(c: char) { IsDigit(c) || c in ".eE+-" }

  /** What may follow a value without changing how it reads. */
  predicate Ends(t: string) { t == [] || !IsNumberChar(t[0]) }

  lemma ExponentReads(e: Exponent, t: string)
    requires Ends(t) && IsExponent(e)
    ensures ExponentPart(ExponentText(e) + t) == Got(e, t)
  {
    if e.Exponent? {
      var u := e.digits + t;
      assert ExponentText(e) + t == [e.mark] + (e.sign + u);
      Head(e.mark, e.sign + u);
      DigitsRead(e.digits, t);
      SignReads(e.sign, u);
    } else {
      assert ExponentText(e) + t == t;
    }
  }

  lemma SignReads(sign: string, u: string)
    requires sign in ["", "+", "-"] && u != [] && IsDigit(u[0])
    ensures ExponentSign(sign + u) == sign && (sign + u)[|sign|..] == u
  {
    if sign == "" { assert sign + u == u; } else { assert (sign + u)[..1] == sign; }
  }

  lemma FractionReads(f: Option<string>, u: string)
    requires AllDigits(OrEmpty(f)) && (u == [] || (!IsDigit(u[0]) && u[0] != '.'))
    ensures Fraction(FractionText(f) + u) == Got(f, u)
  {
    if f.Some? {
      assert (FractionText(f) + u)[1..] == f.value + u;
      DigitsRead(f.value, u);
    } else {
      assert FractionText(f) + u == u;
    }
  }

  lemma UnsignedReads(n: Numeral, t: string)
    requires IsNumeral(n) && Ends(t)
    ensures Unsigned(n.whole + (FractionText(n.fraction) + (ExponentText(n.exponent) + t)), n.negative) == Got(n, t)
  {
    var e := ExponentText(n.exponent) + t;
    var f := FractionText(n.fraction) + e;
    ExponentReads(n.exponent, t);
    FractionReads(n.fraction, e);
    DigitsRead(n.whole, f);
  }

  lemma NumeralParts(n: Numeral, t: string)
    ensures var u := n.whole + (FractionText(n.fraction) + (ExponentText(n.exponent) + t));
            NumeralText(n) + t == if n.negative then ['-'] + u else u
  {
  }

  lemma NumberReads(n: Numeral, t: string)
    requires IsNumeral(n) && Ends(t)
    ensures Number(NumeralText(n) + t) == Got(Num(n), t)
  {
    var u := n.whole + (FractionText(n.fraction) + (ExponentText(n.exponent) + t));
    UnsignedReads(n, t);
    NumeralParts(n, t);
    if n.negative {
      Head('-', u);
    } else {
      assert u[0] == n.whole[0];
    }
  }

  lemma NumeralStart(n: Numeral)
    requires IsNumeral(n)
    ensures NumeralText(n) != [] && (NumeralText(n)[0] == '-' || IsDigit(NumeralText(n)[0]))
  {
  }

  /** Read at this depth, no element of the value lies deeper than the cap, and every number is a token. */
  predicate Fits(v: JVal, depth: nat)
    decreases v
  {
    && depth <= MAX_DEPTH
    && match v
       case Num(n) => IsNumeral(n)
       case Arr(items) => forall i :: 0 <= i < |items| ==> Fits(items[i], depth + 1)
       case Obj(pairs) => forall i :: 0 <= i < |pairs| ==> Fits(pairs[i].1, depth + 1)
       case _ => true
  }

  lemma TokenStart(n: Numeral)
    requires IsNumeral(n) || IsOdd(n)
    ensures NumeralText(n) != [] && !IsWs(NumeralText(n)[0]) && NumeralText(n)[0] !in "]}[{"
  {
    if IsNumeral(n) { NumeralStart(n); } else { assert NumeralText(n)[0] in "-iN"; }
  }

  lemma FirstChar(v: JVal)
    requires Spelled(v)
    ensures Write(v) != [] && !IsWs(Write(v)[0]) && Write(v)[0] !in "]}"
    ensures Write(v)[0] == '{' <==> v.Obj?
    ensures Write(v)[0] == '[' <==> v.Arr?
  {
    if v.Num? { TokenStart(v.n); }
  }

  lemma WordReads(word: string, v: JVal, t: string)
    ensures Literal(word + t, word, v) == Got(v, t)
  {
    assert (word + t)[..|word|] == word;
    assert (word + t)[|word|..] == t;
  }

  lemma QuoteReads(s: string, t: string)
    ensures (Quote(s) + t)[0] == '"' && StringBody((Quote(s) + t)[1..]) == Got(s, t)
  {
    assert (Quote(s) + t)[1..] == EscapeJson(s) + "\"" + t;
    StringReads(s, t);
  }

  lemma NumberStep(w: string, r: Parsed<JVal>)
    requires w != [] && (w[0] == '-' || IsDigit(w[0])) && r == Number(w)
    ensures Scalar(w) == r
  {
  }

  lemma StringStep(w: string, s: string, t: string)
    requires w != [] && w[0] == '"' && StringBody(w[1..]) == Got(s, t)
    ensures Scalar(w) == Got(Str(s), t)
  {
  }

  lemma WordStep(w: string, word: string, v: JVal)
    requires (word, v) in [("true", Bool(true)), ("false", Bool(false)), ("null", Null)] && Starts(w, word[0])
    ensures Scalar(w) == Literal(w, word, v)
  {
  }

  lemma OddFails(n: Numeral, t: string)
    requires IsOdd(n)
    ensures NumeralText(n) != [] && Scalar(NumeralText(n) + t).Fail?
  {
    var w := NumeralText(n) + t;
    if n.negative {
      Head('-', "inf" + t);
      assert w == ['-'] + ("inf" + t);
      NoDigits("inf" + t);
      NumberStep(w, Fail);
    } else {
      assert w[0] == n.whole[0];
    }
  }

  lemma NoDigits(s: string)
    requires s != [] && !IsDigit(s[0]) && s[0] != '.'
    ensures !Accepted(Unsigned(s, true).value)
  {
    assert Digits(s) == [];
  }

  lemma ScalarReads(v: JVal, t: string)
    requires Spelled(v) && !v.Arr? && !v.Obj? && Ends(t)
    ensures Write(v) != [] && Scalar(Write(v) + t) == Read(v, t, v.Num? ==> IsNumeral(v.n))
  {
    match v
    case Num(n) =>
      if IsNumeral(n) {
        NumeralStart(n);
        NumberReads(n, t);
        NumberStep(NumeralText(n) + t, Got(v, t));
      } else {
        OddFails(n, t);
      }
    case Str(s) =>
      QuoteReads(s, t);
      StringStep(Quote(s) + t, s, t);
    case _ =>
      WordStep(Write(v) + t, Write(v), v);
      WordReads(Write(v), v, t);
  }

  function Read<T>(v: T, t: string, ok: bool): Parsed<T> { if ok then Got(v, t) else Fail }

  lemma ValueStep(w: string, depth: nat)
    requires depth <= MAX_DEPTH && w != [] && !IsWs(w[0])
    ensures w[0] == '{' ==> Value(w, depth) == Object(w[1..], depth)
    ensures w[0] == '[' ==> Value(w, depth) == Array(w[1..], depth)
    ensures w[0] !in "{[" ==> Value(w, depth) == Scalar(w)
  {
  }

  lemma ArrayStep(w: string, depth: nat, items: seq<JVal>, t: string, ok: bool)
    requires depth <= MAX_DEPTH && w != [] && !IsWs(w[0]) && w[0] != ']' && Items(w, depth) == Read(items, t, ok)
    ensures Array(w, depth) == Read(Arr(items), t, ok)
  {
  }

  lemma ObjectStep(w: string, depth: nat, pairs: seq<(string, JVal)>, t: string, ok: bool)
    requires depth <= MAX_DEPTH && w != [] && !IsWs(w[0]) && w[0] != '}' && Members(w, depth) == Read(pairs, t, ok)
    ensures Object(w, depth) == Read(Obj(pairs), t, ok)
  {
  }

  lemma EmptyContainers(t: string, depth: nat)
    requires depth <= MAX_DEPTH
    ensures Array([']'] + t, depth) == Got(Arr([]), t)
    ensures Object(['}'] + t, depth) == Got(Obj([]), t)
  {
    Head(']', t);
    Head('}', t);
  }

  lemma LastItem(s: string, depth: nat, v: JVal, t: string, ok: bool)
    requires depth <= MAX_DEPTH && Value(s, depth + 1) == Read(v, [']'] + t, ok)
    ensures Items(s, depth) == Read([v], t, ok)
  {
    Head(']', t);
  }

  lemma JoinItems(s: string, depth: nat, v: JVal, u: string, ok: bool, more: seq<JVal>, t: string, okMore: bool)
    requires depth <= MAX_DEPTH && Value(s, depth + 1) == Read(v, [','] + u, ok)
    requires Items(u, depth) == Read(more, t, okMore)
    ensures Items(s, depth) == Read([v] + more, t, ok && okMore)
  {
    Head(',', u);
  }

  lemma LastMember(s: string, depth: nat, p: (string, JVal), t: string, ok: bool)
    requires depth <= MAX_DEPTH && Member(s, depth) == Read(p, ['}'] + t, ok)
    ensures Members(s, depth) == Read([p], t, ok)
  {
    Head('}', t);
  }

  lemma JoinMembers(s: string, depth: nat, p: (string, JVal), u: string, ok: bool, more: seq<(string, JVal)>, t: string,
                    okMore: bool)
    requires depth <= MAX_DEPTH && Member(s, depth) == Read(p, [','] + u, ok)
    requires Members(u, depth) == Read(more, t, okMore)
    ensures Members(s, depth) == Read([p] + more, t, ok && okMore)
  {
    Head(',', u);
  }

  lemma JoinMember(s: string, depth: nat, key: string, v: JVal, u: string, t: string, ok: bool)
    requires depth <= MAX_DEPTH && s != [] && s[0] == '"' && StringBody(s[1..]) == Got(key, [':'] + u)
    requires Value(u, depth + 1) == Read(v, t, ok)
    ensures Member(s, depth) == Read((key, v), t, ok)
  {
    Head(':', u);
  }

  /** The items from index k on and the closing bracket, as the reader meets them. */
  ghost function ItemsFrom(items: seq<JVal>, k: nat, t: string): string
    requires k < |items|
    decreases |items| - k
  {
    Write(items[k]) + if k + 1 == |items| then [']'] + t else [','] + ItemsFrom(items, k + 1, t)
  }

  lemma {:induction false} ItemsFromText(items: seq<JVal>, k: nat, t: string)
    requires k < |items|
    ensures (if k > 0 then "," else []) + ItemsFrom(items, k, t) == WriteItems(items, k) + ([']'] + t)
    decreases |items| - k
  {
    var tail := if k + 1 == |items| then [']'] + t else [','] + ItemsFrom(items, k + 1, t);
    if k + 1 < |items| { ItemsFromText(items, k + 1, t); }
    Glue(if k > 0 then "," else [], Write(items[k]), tail, WriteItems(items, k + 1), [']'] + t);
  }

  lemma Glue(c: string, w: string, tail: string, rest: string, close: string)
    requires tail == rest + close
    ensures c + (w + tail) == (c + w + rest) + close
  {
  }

  ghost function PairsFrom(pairs: seq<(string, JVal)>, k: nat, t: string): string
    requires k < |pairs|
    decreases |pairs| - k
  {
    WritePair(pairs[k]) + if k + 1 == |pairs| then ['}'] + t else [','] + PairsFrom(pairs, k + 1, t)
  }

  lemma {:induction false} PairsFromText(pairs: seq<(string, JVal)>, k: nat, t: string)
    requires k < |pairs|
    ensures (if k > 0 then "," else []) + PairsFrom(pairs, k, t) == WritePairs(pairs, k) + (['}'] + t)
    decreases |pairs| - k
  {
    var tail := if k + 1 == |pairs| then ['}'] + t else [','] + PairsFrom(pairs, k + 1, t);
    if k + 1 < |pairs| { PairsFromText(pairs, k + 1, t); }
    Glue(if k > 0 then "," else [], WritePair(pairs[k]), tail, WritePairs(pairs, k + 1), ['}'] + t);
  }

  lemma ArrayText(v: JVal, t: string)
    requires v.Arr?
    ensures (Write(v) + t)[1..] == if v.items == [] then [']'] + t else ItemsFrom(v.items, 0, t)
  {
    assert (Write(v) + t)[1..] == WriteItems(v.items, 0) + ([']'] + t);
    if v.items != [] { ItemsFromText(v.items, 0, t); }
  }

  lemma ObjectText(v: JVal, t: string)
    requires v.Obj?
    ensures (Write(v) + t)[1..] == if v.pairs == [] then ['}'] + t else PairsFrom(v.pairs, 0, t)
    ensures v.pairs != [] ==> Starts(PairsFrom(v.pairs, 0, t), '"')
  {
    assert (Write(v) + t)[1..] == WritePairs(v.pairs, 0) + (['}'] + t);
    if v.pairs != [] { PairsFromText(v.pairs, 0, t); }
  }

  lemma PairText(p: (string, JVal), t: string)
    ensures WritePair(p) + t == Quote(p.0) + ([':'] + (Write(p.1) + t))
  {
  }

  lemma Slice<T>(s: seq<T>, k: nat)
    requires k < |s|
    ensures s[k..] == [s[k]] + s[k + 1..]
    ensures k + 1 == |s| ==> s[k..] == [s[k]]
  {
  }

  predicate FitFrom(items: seq<JVal>, k: nat, depth: nat) { forall i :: k <= i < |items| ==> Fits(items[i], depth) }

  predicate PairsFitFrom(pairs: seq<(string, JVal)>, k: nat, depth: nat) {
    forall i :: k <= i < |pairs| ==> Fits(pairs[i].1, depth)
  }

  lemma ContainerFits(v: JVal, depth: nat)
    requires depth <= MAX_DEPTH
    ensures v.Arr? ==> (Fits(v, depth) <==> FitFrom(v.items, 0, depth + 1))
    ensures v.Obj? ==> (Fits(v, depth) <==> PairsFitFrom(v.pairs, 0, depth + 1))
  {
  }

  /** A written value reads back as itself, exactly up to the nesting cap. */
  lemma {:induction false} ValueReads(v: JVal, depth: nat, t: string)
    requires Spelled(v) && Ends(t)
    ensures Value(Write(v) + t, depth) == Read(v, t, Fits(v, depth))
    decreases v, 2, 0
  {
    if depth <= MAX_DEPTH {
      FirstChar(v);
      ValueStep(Write(v) + t, depth);
      if v.Arr? {
        ArrayReads(v, depth, t);
      } else if v.Obj? {
        ObjectReads(v, depth, t);
      } else {
        ScalarReads(v, t);
      }
    }
  }

  lemma {:induction false} ArrayReads(v: JVal, depth: nat, t: string)
    requires v.Arr? && depth <= MAX_DEPTH && Spelled(v)
    ensures Array((Write(v) + t)[1..], depth) == Read(v, t, Fits(v, depth))
    decreases v, 1, 0
  {
    var w := (Write(v) + t)[1..];
    ArrayText(v, t);
    if v.items == [] {
      EmptyContainers(t, depth);
    } else {
      FirstChar(v.items[0]);
      ItemsRead(v.items, 0, depth, t);
      assert v.items[0..] == v.items;
      ContainerFits(v, depth);
      ArrayStep(w, depth, v.items, t, Fits(v, depth));
    }
  }

  lemma {:induction false} ItemsRead(items: seq<JVal>, k: nat, depth: nat, t: string)
    requires depth <= MAX_DEPTH && k < |items| && forall i :: k <= i < |items| ==> Spelled(items[i])
    ensures Items(ItemsFrom(items, k, t), depth) == Read(items[k..], t, FitFrom(items, k, depth + 1))
    decreases items, 0, |items| - k
  {
    var s, v := ItemsFrom(items, k, t), items[k];
    if k + 1 == |items| {
      ValueReads(v, depth + 1, [']'] + t);
      LastItem(s, depth, v, t, Fits(v, depth + 1));
      Slice(items, k);
    } else {
      var u := ItemsFrom(items, k + 1, t);
      ValueReads(v, depth + 1, [','] + u);
      ItemsRead(items, k + 1, depth, t);
      JoinItems(s, depth, v, u, Fits(v, depth + 1), items[k + 1..], t, FitFrom(items, k + 1, depth + 1));
      Slice(items, k);
    }
  }

  lemma {:induction false} ObjectReads(v: JVal, depth: nat, t: string)
    requires v.Obj? && depth <= MAX_DEPTH && Spelled(v)
    ensures Object((Write(v) + t)[1..], depth) == Read(v, t, Fits(v, depth))
    decreases v, 1, 0
  {
    var w := (Write(v) + t)[1..];
    ObjectText(v, t);
    if v.pairs == [] {
      EmptyContainers(t, depth);
    } else {
      MembersRead(v.pairs, 0, depth, t);
      assert v.pairs[0..] == v.pairs;
      ContainerFits(v, depth);
      ObjectStep(w, depth, v.pairs, t, Fits(v, depth));
    }
  }

  lemma {:induction false} MemberReads(p: (string, JVal), depth: nat, t: string)
    requires depth <= MAX_DEPTH && Spelled(p.1) && Ends(t)
    ensures Member(WritePair(p) + t, depth) == Read(p, t, Fits(p.1, depth + 1))
    decreases p, 0, 0
  {
    var u := Write(p.1) + t;
    PairText(p, t);
    QuoteReads(p.0, [':'] + u);
    ValueReads(p.1, depth + 1, t);
    JoinMember(Quote(p.0) + ([':'] + u), depth, p.0, p.1, u, t, Fits(p.1, depth + 1));
  }

  lemma {:induction false} MembersRead(pairs: seq<(string, JVal)>, k: nat, depth: nat, t: string)
    requires depth <= MAX_DEPTH && k < |pairs| && forall i :: k <= i < |pairs| ==> Spelled(pairs[i].1)
    ensures Members(PairsFrom(pairs, k, t), depth) == Read(pairs[k..], t, PairsFitFrom(pairs, k, depth + 1))
    decreases pairs, 0, |pairs| - k
  {
    var s, p := PairsFrom(pairs, k, t), pairs[k];
    if k + 1 == |pairs| {
      MemberReads(p, depth, ['}'] + t);
      LastMember(s, depth, p, t, Fits(p.1, depth + 1));
      Slice(pairs, k);
    } else {
      var u := PairsFrom(pairs, k + 1, t);
      MemberReads(p, depth, [','] + u);
      MembersRead(pairs, k + 1, depth, t);
      JoinMembers(s, depth, p, u, Fits(p.1, depth + 1), pairs[k + 1..], t, PairsFitFrom(pairs, k + 1, depth + 1));
      Slice(pairs, k);
    }
  }

  lemma WholeReads(v: JVal)
    requires Spelled(v)
    ensures Value(Write(v), 0) == Read(v, [], Fits(v, 0))
  {
    ValueReads(v, 0, []);
    assert Write(v) + [] == Write(v);
  }

  /** A written value parses as itself exactly if it is within the nesting cap and all its numbers are tokens. */
  lemma WrittenParses(v: JVal)
    requires Spelled(v)
    ensures Parse(Write(v)) == if Fits(v, 0) then Some(v) else None
  {
    WholeReads(v);
  }

  // ---------------------------------------------------------------- the serializer

  /** An infinite number is serialized as null. */
  function Clean(v: JVal): JVal
    decreases v
  {
    match v
    case Num(n) => if Overflows(n) then Null else v
    case Arr(items) => Arr(seq(|items|, i requires 0 <= i < |items| => Clean(items[i])))
    case Obj(pairs) => Obj(seq(|pairs|, i requires 0 <= i < |pairs| => (pairs[i].0, Clean(pairs[i].1))))
    case _ => v
  }

  function ToJson(v: JVal): string { Write(Clean(v)) }

  predicate AllFinite(v: JVal)
    decreases v
  {
    match v
    case Num(n) => !Overflows(n)
    case Arr(items) => forall i :: 0 <= i < |items| ==> AllFinite(items[i])
    case Obj(pairs) => forall i :: 0 <= i < |pairs| ==> AllFinite(pairs[i].1)
    case _ => true
  }

  lemma {:induction false} CleanIsWellFormed(v: JVal)
    requires WellFormed(v)
    ensures WellFormed(Clean(v))
    decreases v
  {
    match v
    case Arr(items) =>
      forall i | 0 <= i < |items| ensures WellFormed(Clean(v).items[i]) { CleanIsWellFormed(items[i]); }
    case Obj(pairs) =>
      forall i | 0 <= i < |pairs| ensures WellFormed(Clean(v).pairs[i].1) { CleanIsWellFormed(pairs[i].1); }
    case _ =>
  }

  lemma {:induction false} CleanFits(v: JVal, depth: nat)
    requires WellFormed(v)
    ensures Fits(Clean(v), depth) <==> Fits(v, depth)
    decreases v
  {
    match v
    case Arr(items) =>
      forall i | 0 <= i < |items| ensures Fits(Clean(v).items[i], depth + 1) <==> Fits(items[i], depth + 1) {
        CleanFits(items[i], depth + 1);
      }
      assert forall i :: 0 <= i < |items| ==> Clean(v).items[i] == Clean(items[i]);
    case Obj(pairs) =>
      forall i | 0 <= i < |pairs| ensures Fits(Clean(v).pairs[i].1, depth + 1) <==> Fits(pairs[i].1, depth + 1) {
        CleanFits(pairs[i].1, depth + 1);
      }
      assert forall i :: 0 <= i < |pairs| ==> Clean(v).pairs[i].1 == Clean(pairs[i].1);
    case _ =>
  }

  lemma {:induction false} FiniteIsClean(v: JVal)
    requires AllFinite(v)
    ensures Clean(v) == v
    decreases v
  {
    match v
    case Arr(items) =>
      forall i | 0 <= i < |items| ensures Clean(v).items[i] == items[i] { FiniteIsClean(items[i]); }
      assert Clean(v).items == items;
    case Obj(pairs) =>
      forall i | 0 <= i < |pairs| ensures Clean(v).pairs[i] == pairs[i] { FiniteIsClean(pairs[i].1); }
      assert Clean(v).pairs == pairs;
    case _ =>
  }

  lemma {:induction false} CleanIsFinite(v: JVal)
    requires Clean(v) == v
    ensures AllFinite(v)
    decreases v
  {
    match v
    case Arr(items) =>
      forall i | 0 <= i < |items| ensures AllFinite(items[i]) {
        assert Clean(v).items[i] == Clean(items[i]);
        CleanIsFinite(items[i]);
      }
    case Obj(pairs) =>
      forall i | 0 <= i < |pairs| ensures AllFinite(pairs[i].1) {
        assert Clean(v).pairs[i].1 == Clean(pairs[i].1);
        CleanIsFinite(pairs[i].1);
      }
    case _ =>
  }

  /**
   Serializing and parsing gives the value back exactly if it is nested within the cap and none of its numbers
   overflows; an overflowing number comes back as null, and a value nested deeper is refused.
   */
  lemma RoundTrip(v: JVal)
    requires WellFormed(v)
    ensures Parse(ToJson(v)) == if Fits(v, 0) then Some(Clean(v)) else None
    ensures Parse(ToJson(v)) == Some(v) <==> Fits(v, 0) && AllFinite(v)
  {
    CleanIsWellFormed(v);
    WellFormedIsSpelled(Clean(v));
    CleanFits(v, 0);
    WrittenParses(Clean(v));
    if AllFinite(v) { FiniteIsClean(v); }
    if Clean(v) == v { CleanIsFinite(v); }
  }

  /** 1e999 parses, and does not come back. */
  lemma HugeDoesNotComeBack()
    ensures Parse("1e999") == Some(Num(HUGE))
    ensures ToJson(Num(HUGE)) == "null" && Parse("null") == Some(Null)
  {
    HugeOverflows();
    WrittenParses(Num(HUGE));
    WrittenParses(Null);
  }

  /** Empty arrays, k levels inside one another. */
  function Nested(k: nat): JVal { if k == 0 then Arr([]) else Arr([Nested(k - 1)]) }

  lemma {:induction false} NestedFits(k: nat, depth: nat)
    ensures WellFormed(Nested(k)) && AllFinite(Nested(k))
    ensures Fits(Nested(k), depth) <==> depth + k <= MAX_DEPTH
  {
    if k > 0 {
      NestedFits(k - 1, depth + 1);
      assert Nested(k).items[0] == Nested(k - 1);
    }
  }

  /** An array inside sixty-four others comes back, inside sixty-five it does not. */
  lemma DeepDoesNotComeBack(k: nat)
    ensures Parse(ToJson(Nested(k))) == if k <= 64 then Some(Nested(k)) else None
  {
    NestedFits(k, 0);
    RoundTrip(Nested(k));
    FiniteIsClean(Nested(k));
  }

  // ---------------------------------------------------------------- what parses is within the cap

  lemma {:induction false} DigitsAreDigits(s: string)
    ensures AllDigits(Digits(s))
  {
    if s != [] && IsDigit(s[0]) { DigitsAreDigits(s[1..]); }
  }

  lemma ExponentIsSound(s: string)
    requires ExponentPart(s).value.Exponent? ==> ExponentPart(s).value.digits != []
    ensures IsExponent(ExponentPart(s).value)
  {
    if Starts(s, 'e') || Starts(s, 'E') {
      var sign := ExponentSign(s[1..]);
      DigitsAreDigits(s[1..][|sign|..]);
      assert sign == "" || sign == "+" || sign == "-";
    }
  }

  lemma UnsignedIsSound(s: string, negative: bool)
    requires Accepted(Unsigned(s, negative).value) && (negative || (s != [] && IsDigit(s[0])))
    ensures IsNumeral(Unsigned(s, negative).value)
  {
    var f := Fraction(AfterDigits(s));
    DigitsAreDigits(s);
    if Starts(AfterDigits(s), '.') { DigitsAreDigits(AfterDigits(s)[1..]); }
    ExponentIsSound(f.rest);
  }

  lemma NumberIsSound(s: string)
    requires Number(s).Got? && s != [] && (s[0] == '-' || IsDigit(s[0]))
    ensures IsNumeral(Number(s).value.n)
  {
    if Starts(s, '-') { UnsignedIsSound(s[1..], true); } else { UnsignedIsSound(s, false); }
  }

  predicate Sound(v: JVal, depth: nat) { WellFormed(v) && Fits(v, depth) }

  lemma ScalarIsSound(s: string, depth: nat)
    requires s != [] && Scalar(s).Got? && depth <= MAX_DEPTH
    ensures Sound(Scalar(s).value, depth)
  {
    if s[0] == '-' || IsDigit(s[0]) { NumberIsSound(s); }
  }

  lemma {:induction false} ValueIsSound(s: string, depth: nat)
    requires Value(s, depth).Got?
    ensures Sound(Value(s, depth).value, depth)
    decreases |s|, 2
  {
    var t := SkipWs(s);
    if t[0] == '{' {
      if !Starts(SkipWs(t[1..]), '}') { MembersAreSound(t[1..], depth); }
    } else if t[0] == '[' {
      if !Starts(SkipWs(t[1..]), ']') { ItemsAreSound(t[1..], depth); }
    } else {
      ScalarIsSound(t, depth);
    }
  }

  lemma {:induction false} MembersAreSound(s: string, depth: nat)
    requires depth <= MAX_DEPTH && Members(s, depth).Got?
    ensures var ps := Members(s, depth).value; forall i :: 0 <= i < |ps| ==> Sound(ps[i].1, depth + 1)
    decreases |s|, 1
  {
    var q := Member(s, depth).rest;
    MemberIsSound(s, depth);
    if Starts(SkipWs(q), ',') { MembersAreSound(SkipWs(q)[1..], depth); }
  }

  lemma {:induction false} MemberIsSound(s: string, depth: nat)
    requires depth <= MAX_DEPTH && Member(s, depth).Got?
    ensures Sound(Member(s, depth).value.1, depth + 1)
    decreases |s|, 0
  {
    var c := SkipWs(StringBody(SkipWs(s)[1..]).rest);
    ValueIsSound(c[1..], depth + 1);
  }

  lemma {:induction false} ItemsAreSound(s: string, depth: nat)
    requires depth <= MAX_DEPTH && Items(s, depth).Got?
    ensures var vs := Items(s, depth).value; forall i :: 0 <= i < |vs| ==> Sound(vs[i], depth + 1)
    decreases |s|, 3
  {
    var q := Value(s, depth + 1).rest;
    ValueIsSound(s, depth + 1);
    if Starts(SkipWs(q), ',') { ItemsAreSound(SkipWs(q)[1..], depth); }
  }

  /** Of the values that parsing can yield, exactly those without an overflowing number come back. */
  lemma ParsedRoundTrip(s: string)
    requires Parse(s).Some?
    ensures Parse(ToJson(Parse(s).value)) == Some(Clean(Parse(s).value))
    ensures Parse(ToJson(Parse(s).value)) == Parse(s) <==> AllFinite(Parse(s).value)
  {
    ValueIsSound(s, 0);
    RoundTrip(Parse(s).value);
  }

  // ---------------------------------------------------------------- what may follow a value

  /** After a complete object or array only white space may follow: anything else refuses the text. */
  lemma TrailingDataIsRejected(v: JVal, t: string)
    requires Spelled(v) && (v.Obj? || v.Arr?) && Fits(v, 0)
    ensures Parse(Write(v) + t) == if SkipWs(t) == [] then Some(v) else None
  {
    ContainerIsReadWhole(v, t);
  }

  lemma ContainerIsReadWhole(v: JVal, t: string)
    requires Spelled(v) && (v.Obj? || v.Arr?) && Fits(v, 0)
    ensures Value(Write(v) + t, 0) == Got(v, t)
  {
    ValueReads(v, 0, []);
    assert Write(v) + [] == Write(v);
    ValueExtends(Write(v), 0, t);
    assert [] + t == t;
  }

  // ---------------------------------------------------------------- characters by their code

  function Hex4Text(n: nat): string
    requires n < 0x10000
  {
    [HexChar(n / 4096), HexChar(n / 256 % 16), HexChar(n / 16 % 16), HexChar(n % 16)]
  }

  lemma Hex4Reads(n: nat, u: string)
    requires n < 0x10000
    ensures Hex4(Hex4Text(n) + u) == Got(n, u)
  {
    var a, b, c, d := n / 4096, n / 256 % 16, n / 16 % 16, n % 16;
    HexCharReads(a);
    HexCharReads(b);
    HexCharReads(c);
    HexCharReads(d);
    assert (Hex4Text(n) + u)[4..] == u;
    HexDigits(n);
  }

  lemma HexDigits(n: nat)
    requires n < 0x10000
    ensures 4096 * (n / 4096) + 256 * (n / 256 % 16) + 16 * (n / 16 % 16) + n % 16 == n
  {
    var q := n / 16;
    var p := q / 16;
    assert n / 256 == p && n / 4096 == p / 16;
    assert n == 16 * q + n % 16 && q == 16 * p + q % 16 && p == 16 * (p / 16) + p % 16;
  }

  /** A code unit as an escape. */
  function Escaped(n: nat): string
    requires n < 0x10000
  {
    "\\u" + Hex4Text(n)
  }

  function HighOf(n: int): nat
    requires 0x10000 <= n < 0x110000
  {
    0xD800 + (n - 0x10000) / 0x400
  }

  function LowOf(n: int): nat
    requires 0x10000 <= n < 0x110000
  {
    0xDC00 + (n - 0x10000) % 0x400
  }

  /** The code units of a character, each as an escape. */
  function ByCode(c: char): string {
    if c as int < 0x10000 then Escaped(c as int) else Escaped(HighOf(c as int)) + Escaped(LowOf(c as int))
  }

  function AllByCode(s: string): string { if s == [] then [] else ByCode(s[0]) + AllByCode(s[1..]) }

  lemma UnicodeStep(c: char, x: string, u: string)
    requires Unicode(x) == Got(c, u)
    ensures StringBody("\\u" + x) == Cons(c, StringBody(u))
  {
    var s := "\\u" + x;
    assert s[0] == '\\' && s[1..][0] == 'u' && s[1..][1..] == x;
  }

  lemma UnitReads(n: nat, u: string)
    requires n < 0x10000 && !IsHigh(n) && !IsLow(n)
    ensures StringBody(Escaped(n) + u) == Cons(n as char, StringBody(u))
  {
    Hex4Reads(n, u);
    UnicodeStep(n as char, Hex4Text(n) + u, u);
    assert Escaped(n) + u == "\\u" + (Hex4Text(n) + u);
  }

  lemma PairReads(hi: nat, lo: nat, u: string)
    requires IsHigh(hi) && IsLow(lo)
    ensures Unicode(Hex4Text(hi) + (Escaped(lo) + u)) == Got(Pair(hi, lo), u)
  {
    var r := Escaped(lo) + u;
    Hex4Reads(hi, r);
    Hex4Reads(lo, u);
    assert r[..2] == "\\u" && r[2..] == Hex4Text(lo) + u;
  }

  lemma PairEscapeReads(hi: nat, lo: nat, u: string)
    requires IsHigh(hi) && IsLow(lo)
    ensures StringBody(Escaped(hi) + Escaped(lo) + u) == Cons(Pair(hi, lo), StringBody(u))
  {
    PairReads(hi, lo, u);
    UnicodeStep(Pair(hi, lo), Hex4Text(hi) + (Escaped(lo) + u), u);
    assert Escaped(hi) + Escaped(lo) + u == "\\u" + (Hex4Text(hi) + (Escaped(lo) + u));
  }

  lemma UnitsOfChar(n: int)
    requires 0x10000 <= n < 0x110000
    ensures IsHigh(HighOf(n)) && IsLow(LowOf(n)) && Pair(HighOf(n), LowOf(n)) == n as char
  {
    var k := n - 0x10000;
    assert k == k / 0x400 * 0x400 + k % 0x400;
  }

  lemma ByCodeReads(c: char, u: string)
    ensures StringBody(ByCode(c) + u) == Cons(c, StringBody(u))
  {
    if c as int < 0x10000 {
      UnitReads(c as int, u);
    } else {
      UnitsOfChar(c as int);
      PairEscapeReads(HighOf(c as int), LowOf(c as int), u);
    }
  }

  /** Any string comes back from a form that spells every character by its code, surrogate pairs included. */
  lemma {:induction false} CodesRead(s: string, t: string)
    ensures StringBody(AllByCode(s) + "\"" + t) == Got(s, t)
  {
    if s == [] {
      assert AllByCode(s) + "\"" + t == "\"" + t;
      assert ("\"" + t)[1..] == t;
    } else {
      var u := AllByCode(s[1..]) + "\"" + t;
      assert AllByCode(s) + "\"" + t == ByCode(s[0]) + u;
      ByCodeReads(s[0], u);
      CodesRead(s[1..], t);
      assert [s[0]] + s[1..] == s;
    }
  }

  /** A lone surrogate reads as the replacement character, and so does a high one paired with anything but a low one. */
  lemma LoneSurrogateReads(n: nat, m: nat, u: string)
    requires 0xD800 <= n < 0xE000 && m < 0x10000
    ensures !StartsWith(u, "\\u") ==> Unicode(Hex4Text(n) + u) == Got('\U{FFFD}', u)
    ensures n < 0xDC00 && !(0xDC00 <= m < 0xE000) ==>
              Unicode(Hex4Text(n) + ("\\u" + (Hex4Text(m) + u))) == Got('\U{FFFD}', u)
  {
    Hex4Reads(n, u);
    Hex4Reads(m, u);
    var r := "\\u" + (Hex4Text(m) + u);
    Hex4Reads(n, r);
    assert r[..2] == "\\u" && r[2..] == Hex4Text(m) + u;
  }

  /** The short escapes that the writer never emits, and what no string may hold raw. */
  lemma OtherEscapesRead(u: string, c: char)
    ensures StringBody("\\b" + u) == Cons('\U{08}', StringBody(u))
    ensures StringBody("\\f" + u) == Cons('\U{0C}', StringBody(u))
    ensures StringBody("\\/" + u) == Cons('/', StringBody(u))
    ensures c < ' ' ==> StringBody([c] + u) == Fail
  {
    SimpleReads('\U{08}', 'b', u);
    SimpleReads('\U{0C}', 'f', u);
    SimpleReads('/', '/', u);
    Head(c, u);
  }
}
