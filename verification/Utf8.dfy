/** UTF-8: how text reaches the disk and how it is read back, strictly. */
module Utf8 {
  import opened Common

  type Byte = b: int | 0 <= b < 256

  type Bytes = seq<Byte>

  /** Six bits per continuation byte, the rest in the lead byte. */
  function EncodeChar(c: char): (r: Bytes)
    ensures 1 <= |r| <= 4
  {
    var n := c as int;
    var q := n / 64;
    var p := q / 64;
    if n < 0x80 then [n]
    else if n < 0x800 then [0xC0 + q, 0x80 + n % 64]
    else if n < 0x10000 then [0xE0 + p, 0x80 + q % 64, 0x80 + n % 64]
    else [0xF0 + p / 64, 0x80 + p % 64, 0x80 + q % 64, 0x80 + n % 64]
  }

  function Encode(s: string): Bytes {
    if s == [] then [] else EncodeChar(s[0]) + Encode(s[1..])
  }

  predicate IsContinuation(b: Byte) { 0x80 <= b < 0xC0 }

  predicate IsScalar(n: int) { 0 <= n < 0xD800 || 0xE000 <= n < 0x110000 }

  datatype Step = Invalid | Char(c: char, size: nat)

  function Checked(n: int, least: int, size: nat): Step {
    if least <= n && IsScalar(n) then Char(n as char, size) else Invalid
  }

  /** The bits gathered so far and six more. */
  function Shift(n: int, b: int): int { 64 * n + (b - 0x80) }

  /** The first character; overlong forms, surrogates and truncated sequences are invalid. */
  function DecodeChar(b: Bytes): (r: Step)
    ensures r.Char? ==> 1 <= r.size <= |b|
  {
    if b == [] then Invalid
    else if b[0] < 0x80 then Checked(b[0], 0, 1)
    else if 0xC0 <= b[0] < 0xE0 then
      if |b| < 2 || !IsContinuation(b[1]) then Invalid
      else Checked(Shift(b[0] - 0xC0, b[1]), 0x80, 2)
    else if 0xE0 <= b[0] < 0xF0 then
      if |b| < 3 || !IsContinuation(b[1]) || !IsContinuation(b[2]) then Invalid
      else Checked(Shift(Shift(b[0] - 0xE0, b[1]), b[2]), 0x800, 3)
    else if 0xF0 <= b[0] < 0xF8 then
      if |b| < 4 || !IsContinuation(b[1]) || !IsContinuation(b[2]) || !IsContinuation(b[3]) then Invalid
      else Checked(Shift(Shift(Shift(b[0] - 0xF0, b[1]), b[2]), b[3]), 0x10000, 4)
    else Invalid
  }

  /** Reading a file as text fails on the first invalid byte. */
  function Decode(b: Bytes): Option<string>
    decreases |b|
  {
    if b == [] then Some([])
    else
      var first := DecodeChar(b);
      if first.Invalid? then None
      else
        var rest := Decode(b[first.size..]);
        if rest.None? then None else Some([first.c] + rest.value)
  }

  // ---------------------------------------------------------------- reading back

  lemma CharDecodes(c: char, rest: Bytes)
    ensures DecodeChar(EncodeChar(c) + rest) == Char(c, |EncodeChar(c)|)
  {
    var n, b := c as int, EncodeChar(c) + rest;
    var q := n / 64;
    assert n == 64 * q + n % 64 && q == 64 * (q / 64) + q % 64;
    assert b[0] == EncodeChar(c)[0];
    if n >= 0x80 { assert b[1] == EncodeChar(c)[1]; }
    if n >= 0x800 { assert b[2] == EncodeChar(c)[2]; }
    if n >= 0x10000 { assert b[3] == EncodeChar(c)[3]; }
  }

  /** The payload of a byte with this marker. */
  function Bits(b: int, marker: int): int { b - marker }

  /** The standard layout: the lead byte tells the length, and the payload bits in order are the character. */
  lemma CharLayout(c: char)
    ensures var n, b := c as int, EncodeChar(c);
            && (forall i :: 0 < i < |b| ==> 0x80 <= b[i] < 0xC0)
            && match |b|
               case 1 => n < 0x80 && b[0] == n
               case 2 =>
                 && 0x80 <= n < 0x800 && 0xC0 <= b[0] < 0xE0
                 && n == Bits(b[0], 0xC0) * 64 + Bits(b[1], 0x80)
               case 3 =>
                 && 0x800 <= n < 0x10000 && 0xE0 <= b[0] < 0xF0
                 && n == Bits(b[0], 0xE0) * 4096 + Bits(b[1], 0x80) * 64 + Bits(b[2], 0x80)
               case _ =>
                 && 0x10000 <= n && 0xF0 <= b[0] < 0xF8
                 && n == Bits(b[0], 0xF0) * 262144 + Bits(b[1], 0x80) * 4096 + Bits(b[2], 0x80) * 64 + Bits(b[3], 0x80)
  {
    var n := c as int;
    var q := n / 64;
    assert n == 64 * q + n % 64 && q == 64 * (q / 64) + q % 64;
  }

  lemma PieceOfCharIsInvalid(c: char, m: nat)
    requires 0 < m < |EncodeChar(c)|
    ensures DecodeChar(EncodeChar(c)[..m]).Invalid?
  {
  }

  /** The first m bytes of the encoding end between two characters. */
  predicate Boundary(s: string, m: nat) {
    m == 0 || (s != [] && m >= |EncodeChar(s[0])| && Boundary(s[1..], m - |EncodeChar(s[0])|))
  }

  /** How many characters lie wholly within the first m bytes. */
  function WholeChars(s: string, m: nat): (n: nat)
    ensures n <= |s|
  {
    if s == [] || m < |EncodeChar(s[0])| then 0 else 1 + WholeChars(s[1..], m - |EncodeChar(s[0])|)
  }

  lemma DecodeCons(c: char, tail: Bytes)
    ensures Decode(EncodeChar(c) + tail) == var r := Decode(tail); if r.None? then None else Some([c] + r.value)
  {
    CharDecodes(c, tail);
    assert (EncodeChar(c) + tail)[|EncodeChar(c)|..] == tail;
  }

  /** A prefix of an encoding: a piece of the first character, or that character and a prefix of the rest. */
  lemma PrefixOfCons(e: Bytes, rest: Bytes, m: nat)
    requires m <= |e + rest|
    ensures m < |e| ==> (e + rest)[..m] == e[..m]
    ensures m >= |e| ==> (e + rest)[..m] == e + rest[..m - |e|]
  {
  }

  lemma TakeCons(s: string, n: nat)
    requires s != [] && n <= |s[1..]|
    ensures s[..n + 1] == [s[0]] + s[1..][..n]
  {
  }

  /** Reading a prefix of one character and the rest: nothing inside the character, else it and a prefix of the rest. */
  lemma PrefixStep(c: char, rest: Bytes, m: nat)
    requires 0 < m <= |EncodeChar(c) + rest|
    ensures var n := |EncodeChar(c)|;
            Decode((EncodeChar(c) + rest)[..m])
              == if m < n then None else var r := Decode(rest[..m - n]); if r.None? then None else Some([c] + r.value)
  {
    PrefixOfCons(EncodeChar(c), rest, m);
    if m < |EncodeChar(c)| {
      PieceOfCharIsInvalid(c, m);
    } else {
      DecodeCons(c, rest[..m - |EncodeChar(c)|]);
    }
  }

  /** A prefix of an encoded text reads back as a prefix of the text exactly when it ends between two characters. */
  lemma {:induction false} PrefixDecodes(s: string, m: nat)
    requires m <= |Encode(s)|
    ensures Decode(Encode(s)[..m]) == if Boundary(s, m) then Some(s[..WholeChars(s, m)]) else None
  {
    if m == 0 {
      assert s[..0] == [];
    } else {
      var n := |EncodeChar(s[0])|;
      PrefixStep(s[0], Encode(s[1..]), m);
      if m >= n {
        PrefixDecodes(s[1..], m - n);
        TakeCons(s, WholeChars(s[1..], m - n));
      }
    }
  }

  lemma {:induction false} BoundaryAtEnd(s: string)
    ensures Boundary(s, |Encode(s)|) && WholeChars(s, |Encode(s)|) == |s|
  {
    if s != [] { BoundaryAtEnd(s[1..]); }
  }

  /** Encoding and reading back is the identity. */
  lemma DecodeEncode(s: string)
    ensures Decode(Encode(s)) == Some(s)
  {
    BoundaryAtEnd(s);
    PrefixDecodes(s, |Encode(s)|);
    assert Encode(s)[..|Encode(s)|] == Encode(s) && s[..|s|] == s;
  }

  lemma Associates(x: Bytes, y: Bytes, z: Bytes)
    ensures (x + y) + z == x + (y + z)
  {
  }

  lemma {:induction false} EncodeSplits(a: string, b: string)
    ensures Encode(a + b) == Encode(a) + Encode(b)
  {
    if a == [] {
      assert a + b == b;
    } else {
      EncodeSplits(a[1..], b);
      assert (a + b)[1..] == a[1..] + b;
      Associates(EncodeChar(a[0]), Encode(a[1..]), Encode(b));
    }
  }

  /** A longer prefix holds at least as many whole characters: those of any text encoded within it. */
  lemma {:induction false} WholeCharsCover(a: string, b: string, m: nat)
    requires m >= |Encode(a)|
    ensures WholeChars(a + b, m) >= |a|
  {
    if a != [] {
      assert (a + b)[1..] == a[1..] + b;
      WholeCharsCover(a[1..], b, m - |EncodeChar(a[0])|);
    }
  }

  /** Cutting one byte into any character outside ASCII leaves a file that cannot be read as text at all. */
  lemma {:induction false} CutInsideCharacter(a: string, c: char, b: string)
    requires |EncodeChar(c)| > 1
    ensures !Boundary(a + [c] + b, |Encode(a)| + 1)
  {
    var s := a + [c] + b;
    if a == [] {
      assert s[0] == c;
    } else {
      assert s[0] == a[0] && s[1..] == a[1..] + [c] + b;
      CutInsideCharacter(a[1..], c, b);
    }
  }
}
