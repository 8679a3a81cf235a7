/** The text operations recovery relies on: lines, trimming and joining. */
module Text {
  /** The Unicode White_Space property. */
  predicate IsWhite(c: char) {
    || '\U{9}' <= c <= '\U{D}' || c == ' ' || c == '\U{85}' || c == '\U{A0}' || c == '\U{1680}'
    || '\U{2000}' <= c <= '\U{200A}' || c == '\U{2028}' || c == '\U{2029}' || c == '\U{202F}'
    || c == '\U{205F}' || c == '\U{3000}'
  }

  function TrimEnd(s: string): string {
    if s != [] && IsWhite(s[|s| - 1]) then TrimEnd(s[..|s| - 1]) else s
  }

  function TrimStart(s: string): string {
    if s != [] && IsWhite(s[0]) then TrimStart(s[1..]) else s
  }

  function Trim(s: string): string { TrimStart(TrimEnd(s)) }

  /** The position of the first newline, or the length. */
  function Eol(s: string): (k: nat)
    ensures k <= |s| && (k < |s| ==> s[k] == '\n') && forall i :: 0 <= i < k ==> s[i] != '\n'
  {
    if s == [] || s[0] == '\n' then 0 else 1 + Eol(s[1..])
  }

  function StripCr(s: string): string {
    if s != [] && s[|s| - 1] == '\r' then s[..|s| - 1] else s
  }

  /** Lines end at newlines, a carriage return before one included; an unterminated last line counts. */
  function Lines(s: string): seq<string>
    decreases |s|
  {
    if s == [] then []
    else if Eol(s) == |s| then [s]
    else [StripCr(s[..Eol(s)])] + Lines(s[Eol(s) + 1..])
  }

  function Join(lines: seq<string>): string {
    if lines == [] then [] else if |lines| == 1 then lines[0] else lines[0] + "\n" + Join(lines[1..])
  }

  /** Every line with its newline: what a log of these lines holds. */
  function Unlines(lines: seq<string>): string {
    if lines == [] then [] else lines[0] + "\n" + Unlines(lines[1..])
  }

  predicate OneLine(s: string) { '\n' !in s }

  // ---------------------------------------------------------------- trimming

  lemma TrimIgnoresCr(s: string)
    ensures Trim(StripCr(s)) == Trim(s)
  {
  }

  lemma TrimKeepsSolid(s: string)
    requires s != [] && !IsWhite(s[0]) && !IsWhite(s[|s| - 1])
    ensures Trim(s) == s
  {
  }

  /** Trimming a text that starts with ink leaves a non-empty prefix of it. */
  lemma {:induction false} TrimIsPrefix(s: string)
    requires s != [] && !IsWhite(s[0])
    ensures 0 < |Trim(s)| <= |s| && Trim(s) == s[..|Trim(s)|]
    decreases |s|
  {
    if IsWhite(s[|s| - 1]) {
      TrimIsPrefix(s[..|s| - 1]);
      assert Trim(s) == Trim(s[..|s| - 1]);
    } else {
      assert Trim(s) == s;
    }
  }

  // ---------------------------------------------------------------- lines

  lemma {:induction false} EolOfLine(l: string, rest: string)
    requires OneLine(l)
    ensures Eol(l + "\n" + rest) == |l|
  {
    var s := l + "\n" + rest;
    assert s[|l|] == '\n';
    assert forall i :: 0 <= i < |l| ==> s[i] == l[i];
  }

  lemma FirstLine(l: string, rest: string)
    requires OneLine(l)
    ensures Lines(l + "\n" + rest) == [StripCr(l)] + Lines(rest)
  {
    var s := l + "\n" + rest;
    EolOfLine(l, rest);
    assert s[..|l|] == l && s[|l| + 1..] == rest;
  }

  function Stripped(lines: seq<string>): (r: seq<string>)
    ensures |r| == |lines| && forall i :: 0 <= i < |r| ==> r[i] == StripCr(lines[i])
  {
    if lines == [] then [] else [StripCr(lines[0])] + Stripped(lines[1..])
  }

  function Tail(tail: string): seq<string> { if tail == [] then [] else [tail] }

  /** Whole lines followed by an unterminated tail are read back as those lines and that tail. */
  lemma {:induction false} LinesOfLog(lines: seq<string>, tail: string)
    requires OneLine(tail) && forall i :: 0 <= i < |lines| ==> OneLine(lines[i])
    ensures Lines(Unlines(lines) + tail) == Stripped(lines) + Tail(tail)
  {
    if lines == [] {
      assert Unlines(lines) + tail == tail;
      if tail != [] { NoEol(tail); }
      assert Stripped(lines) + Tail(tail) == Tail(tail);
    } else {
      var rest := Unlines(lines[1..]) + tail;
      assert Unlines(lines) + tail == lines[0] + "\n" + rest;
      FirstLine(lines[0], rest);
      LinesOfLog(lines[1..], tail);
      assert Stripped(lines) + Tail(tail) == [StripCr(lines[0])] + (Stripped(lines[1..]) + Tail(tail));
    }
  }

  lemma NoEol(s: string)
    requires OneLine(s)
    ensures Eol(s) == |s|
  {
  }

  lemma {:induction false} LinesAreOneLine(s: string)
    ensures forall i :: 0 <= i < |Lines(s)| ==> OneLine(Lines(s)[i])
    decreases |s|
  {
    if s != [] && Eol(s) < |s| { LinesAreOneLine(s[Eol(s) + 1..]); }
  }

  lemma {:induction false} JoinIsUnlines(lines: seq<string>)
    requires lines != []
    ensures Join(lines) + "\n" == Unlines(lines)
  {
    if |lines| > 1 {
      JoinIsUnlines(lines[1..]);
      assert Join(lines) + "\n" == lines[0] + "\n" + (Join(lines[1..]) + "\n");
    } else {
      assert Unlines(lines) == lines[0] + "\n" + [];
    }
  }

  lemma {:induction false} UnlinesSplits(a: seq<string>, b: seq<string>)
    ensures Unlines(a + b) == Unlines(a) + Unlines(b)
  {
    if a == [] {
      assert a + b == b;
    } else {
      UnlinesSplits(a[1..], b);
      assert (a + b)[1..] == a[1..] + b;
      assert Unlines(a + b) == a[0] + "\n" + (Unlines(a[1..]) + Unlines(b));
    }
  }

  // ---------------------------------------------------------------- a log cut short

  /** How many lines have their whole text within the first n characters of the log. */
  function Complete(lines: seq<string>, n: nat): (k: nat)
    ensures k <= |lines|
  {
    if lines == [] || n < |lines[0]| then 0
    else if n == |lines[0]| then 1
    else 1 + Complete(lines[1..], n - |lines[0]| - 1)
  }

  /** The first n characters of a log: its complete lines, and then nothing or a torn piece of the next line. */
  lemma {:induction false} CutShape(lines: seq<string>, n: nat) returns (whole: nat, tail: string)
    requires n <= |Unlines(lines)|
    ensures whole <= |lines| && Unlines(lines)[..n] == Unlines(lines[..whole]) + tail
    ensures var k := Complete(lines, n);
            || (whole == k && tail == [])
            || (whole + 1 == k && tail == lines[whole])
            || (whole == k < |lines| && 0 < |tail| < |lines[k]| && tail == lines[k][..|tail|])
  {
    var log := Unlines(lines);
    if lines == [] {
      whole, tail := 0, [];
      assert log[..n] == [];
    } else if n <= |lines[0]| {
      whole, tail := 0, lines[0][..n];
      assert log[..n] == tail;
      assert lines[..0] == [];
    } else {
      var rest := Unlines(lines[1..]);
      var w, t := CutShape(lines[1..], n - |lines[0]| - 1);
      whole, tail := w + 1, t;
      assert log[..n] == lines[0] + "\n" + rest[..n - |lines[0]| - 1];
      assert lines[..whole][1..] == lines[1..][..w];
      assert Unlines(lines[..whole]) == lines[0] + "\n" + Unlines(lines[1..][..w]);
    }
  }

  predicate Plain(l: string) { l != [] && OneLine(l) && StripCr(l) == l }

  lemma StrippedPlain(lines: seq<string>)
    requires forall i :: 0 <= i < |lines| ==> Plain(lines[i])
    ensures Stripped(lines) == lines
  {
  }

  /** The lines of a cut log are its complete lines and, if the cut is inside one, a piece of length m of it. */
  lemma LinesOfCut(lines: seq<string>, n: nat) returns (m: nat)
    requires n <= |Unlines(lines)| && forall i :: 0 <= i < |lines| ==> Plain(lines[i])
    ensures var k := Complete(lines, n);
            && (m > 0 ==> k < |lines| && m < |lines[k]|)
            && Lines(Unlines(lines)[..n]) == lines[..k] + (if m == 0 then [] else [lines[k][..m]])
  {
    var k := Complete(lines, n);
    var whole, tail := CutShape(lines, n);
    m := if whole == k then |tail| else 0;
    StrippedPlain(lines[..whole]);
    LinesOfLog(lines[..whole], tail);
    if whole < k { assert lines[..k] == lines[..whole] + [tail]; }
  }
}
