/** What the bracket searches of `cpplint.py` find in the lines of a file without '<' and '>'. */
module NestedText {
  import opened Sequences
  import opened Brackets

  /** Text to which the treatment of template brackets does not apply. */
  predicate NoAngles(line: string) {
    '<' !in line && '>' !in line
  }

  predicate NoAnglesIn(lines: seq<string>) {
    forall i | 0 <= i < |lines| :: NoAngles(lines[i])
  }

  // ---- Lines as one text.

  function Join(lines: seq<string>): string {
    if lines == [] then "" else lines[0] + Join(lines[1..])
  }

  /** Position in the joined text of the first character of line `l`. */
  function LineStart(lines: seq<string>, l: nat): nat
    requires l <= |lines|
  {
    |Join(lines[..l])|
  }

  predicate IsPosition(lines: seq<string>, l: int, p: int) {
    0 <= l < |lines| && 0 <= p < |lines[l]|
  }

  function Flat(lines: seq<string>, l: nat, p: nat): nat
    requires IsPosition(lines, l, p)
  {
    LineStart(lines, l) + p
  }

  lemma {:induction false} JoinConcat(a: seq<string>, b: seq<string>)
    ensures Join(a + b) == Join(a) + Join(b)
    decreases |a|
  {
    if a == [] {
      LeftUnit(b);
    } else {
      assert (a + b)[0] == a[0] && (a + b)[1..] == a[1..] + b;
      JoinConcat(a[1..], b);
      Assoc(a[0], Join(a[1..]), Join(b));
    }
  }

  /** The joined text, cut before and after line `l`. */
  lemma JoinAround(lines: seq<string>, l: nat)
    requires l < |lines|
    ensures Join(lines) == Join(lines[..l]) + (lines[l] + Join(lines[l + 1..]))
    ensures Join(lines[..l + 1]) == Join(lines[..l]) + lines[l]
    ensures Join(lines[l..]) == lines[l] + Join(lines[l + 1..])
  {
    assert lines == lines[..l] + lines[l..];
    JoinConcat(lines[..l], lines[l..]);
    assert lines[l..][1..] == lines[l + 1..];
    assert lines[..l + 1] == lines[..l] + [lines[l]];
    JoinConcat(lines[..l], [lines[l]]);
    assert Join([lines[l]]) == lines[l] + Join([]);
    RightUnit(lines[l]);
  }

  /** From a position on, the joined text is the rest of the line and then the lines after it. */
  lemma RestOfLines(lines: seq<string>, l: nat, p: nat)
    requires IsPosition(lines, l, p)
    ensures Flat(lines, l, p) <= |Join(lines)| && Flat(lines, l, p) + |lines[l]| - p == LineStart(lines, l + 1)
    ensures Join(lines)[Flat(lines, l, p)..] == lines[l][p..] + Join(lines[l + 1..])
  {
    JoinAround(lines, l);
    hide Join;
    SuffixOfMiddle(Join(lines[..l]), lines[l], Join(lines[l + 1..]), p);
  }

  lemma SuffixOfMiddle(a: string, b: string, c: string, p: nat)
    requires p <= |b|
    ensures (a + (b + c))[|a| + p..] == b[p..] + c
  {
  }

  /** Line and column of a position in the joined text. */
  function Locate(lines: seq<string>, k: nat): (r: (nat, nat))
    requires k < |Join(lines)|
    ensures IsPosition(lines, r.0, r.1)
  {
    if k < |lines[0]| then (0, k) else
    var (l, p) := Locate(lines[1..], k - |lines[0]|);
    (l + 1, p)
  }

  lemma {:induction false} LocateIsInverse(lines: seq<string>, l: nat, p: nat)
    requires IsPosition(lines, l, p)
    ensures Flat(lines, l, p) < |Join(lines)|
    ensures Join(lines)[Flat(lines, l, p)] == lines[l][p]
    ensures Locate(lines, Flat(lines, l, p)) == (l, p)
    decreases l
  {
    JoinAround(lines, l);
    if l > 0 {
      assert lines[..l][0] == lines[0] && lines[..l][1..] == lines[1..][..l - 1];
      LocateIsInverse(lines[1..], l - 1, p);
    }
  }

  lemma {:induction false} FlatIsInverse(lines: seq<string>, k: nat)
    requires k < |Join(lines)|
    ensures var (l, p) := Locate(lines, k); Flat(lines, l, p) == k
    decreases lines
  {
    if k >= |lines[0]| {
      FlatIsInverse(lines[1..], k - |lines[0]|);
      var (l, p) := Locate(lines, k);
      assert lines[..l][1..] == lines[1..][..l - 1];
    }
  }

  /** So a position is located exactly where it lies flat. */
  lemma LocatedExactly(lines: seq<string>, k: nat, l: nat, p: nat)
    requires k < |Join(lines)| && IsPosition(lines, l, p)
    ensures Locate(lines, k) == (l, p) <==> k == Flat(lines, l, p)
  {
    FlatIsInverse(lines, k);
    LocateIsInverse(lines, l, p);
  }

  // ---- What the two functions return.

  /** Line number and column just past the closing bracket, or (number of lines, -1). */
  function CloseOf(lines: seq<string>, l: nat, p: nat): (int, int)
    requires IsPosition(lines, l, p)
  {
    LocateIsInverse(lines, l, p);
    var start := Flat(lines, l, p);
    if !Opener(lines[l][p]) then (|lines|, -1) else
    match ScanForward(Join(lines)[start..], [])
    case Found(n) => var (endLine, end) := Locate(lines, start + n - 1); (endLine, end + 1)
    case _ => (|lines|, -1)
  }

  /** Line number and column of the opening bracket, or (0, -1). */
  function ReverseCloseOf(lines: seq<string>, l: nat, p: nat): (int, int)
    requires IsPosition(lines, l, p)
  {
    LocateIsInverse(lines, l, p);
    var end := Flat(lines, l, p) + 1;
    var failed: (int, int) := (0, -1);
    if !Closer(lines[l][p]) then failed else
    match ScanBackward(Join(lines)[..end], [])
    case Found(n) => var (startLine, start) := Locate(lines, end - n); (startLine, start)
    case _ => failed
  }

  /** The text from one character position to another, both included. */
  function TextBetween(lines: seq<string>, l: nat, p: nat, m: nat, q: nat): string
    requires IsPosition(lines, l, p) && IsPosition(lines, m, q)
  {
    LocateIsInverse(lines, l, p);
    LocateIsInverse(lines, m, q);
    var from, to := Flat(lines, l, p), Flat(lines, m, q) + 1;
    if from < to then Join(lines)[from..to] else ""
  }

  lemma NestedEnds(u: string)
    ensures Nested(u) ==> |u| >= 2 && Opener(u[0]) && Closer(u[|u| - 1])
  {
  }

  predicate FoundAfter(r: Scan, n: int) {
    r.Found? && r.count == n
  }

  /** The forward search ends past (m, q) exactly when the scanner finds the bracket there. */
  lemma CloseIsFound(lines: seq<string>, l: nat, p: nat, m: nat, q: nat)
    requires IsPosition(lines, l, p) && IsPosition(lines, m, q) && Opener(lines[l][p])
    ensures Flat(lines, l, p) <= |Join(lines)|
    ensures CloseOf(lines, l, p) == (m, q + 1)
       <==> FoundAfter(ScanForward(Join(lines)[Flat(lines, l, p)..], []), Flat(lines, m, q) + 1 - Flat(lines, l, p))
  {
    LocateIsInverse(lines, l, p);
    hide Join, Locate, Flat, ScanForward, Opener;
    var start := Flat(lines, l, p);
    var found := ScanForward(Join(lines)[start..], []);
    if found.Found? {
      LocatedExactly(lines, start + found.count - 1, m, q);
    }
  }

  lemma ReverseIsFound(lines: seq<string>, l: nat, p: nat, m: nat, q: nat)
    requires IsPosition(lines, l, p) && IsPosition(lines, m, q) && Closer(lines[m][q])
    ensures Flat(lines, m, q) + 1 <= |Join(lines)|
    ensures ReverseCloseOf(lines, m, q) == (l, p)
       <==> FoundAfter(ScanBackward(Join(lines)[..Flat(lines, m, q) + 1], []),
                       Flat(lines, m, q) + 1 - Flat(lines, l, p))
  {
    LocateIsInverse(lines, m, q);
    hide Join, Locate, Flat, ScanBackward, Closer;
    var end := Flat(lines, m, q) + 1;
    var found := ScanBackward(Join(lines)[..end], []);
    if found.Found? {
      LocatedExactly(lines, end - found.count, l, p);
    }
  }

  /** The forward search ends past (m, q) exactly when the text from the start to (m, q) is nested. */
  lemma CloseFindsNested(lines: seq<string>, l: nat, p: nat, m: nat, q: nat)
    requires IsPosition(lines, l, p) && IsPosition(lines, m, q)
    ensures CloseOf(lines, l, p) == (m, q + 1) <==> Nested(TextBetween(lines, l, p, m, q))
  {
    LocateIsInverse(lines, l, p);
    LocateIsInverse(lines, m, q);
    NestedEnds(TextBetween(lines, l, p, m, q));
    hide Join, Locate, Flat, ScanForward, Nested;
    var start, end := Flat(lines, l, p), Flat(lines, m, q) + 1;
    var t := Join(lines)[start..];
    if Opener(lines[l][p]) {
      CloseIsFound(lines, l, p, m, q);
      if start < end {
        Slice(Join(lines), start, end);
        ForwardFindsNested(t, end - start);
      }
    }
  }

  lemma ReverseFindsNested(lines: seq<string>, l: nat, p: nat, m: nat, q: nat)
    requires IsPosition(lines, l, p) && IsPosition(lines, m, q)
    ensures ReverseCloseOf(lines, m, q) == (l, p) <==> Nested(TextBetween(lines, l, p, m, q))
  {
    LocateIsInverse(lines, l, p);
    LocateIsInverse(lines, m, q);
    NestedEnds(TextBetween(lines, l, p, m, q));
    hide Join, Locate, Flat, ScanBackward, Nested;
    var start, end := Flat(lines, l, p), Flat(lines, m, q) + 1;
    var t := Join(lines)[..end];
    if Closer(lines[m][q]) {
      ReverseIsFound(lines, l, p, m, q);
      if start < end {
        Slice(Join(lines), start, end);
        BackwardFindsNested(t, end - start);
      }
    }
  }

  /** Each search undoes the other, over any number of lines. */
  lemma SearchesAreInverse(lines: seq<string>, l: nat, p: nat, m: nat, q: nat)
    requires IsPosition(lines, l, p) && IsPosition(lines, m, q)
    ensures CloseOf(lines, l, p) == (m, q + 1) <==> ReverseCloseOf(lines, m, q) == (l, p)
  {
    CloseFindsNested(lines, l, p, m, q);
    ReverseFindsNested(lines, l, p, m, q);
  }

  /** The forward search fails exactly when no nested text starts at the position. */
  lemma CloseFails(lines: seq<string>, l: nat, p: nat)
    requires IsPosition(lines, l, p)
    ensures CloseOf(lines, l, p) == (|lines|, -1)
       <==> forall m, q | IsPosition(lines, m, q) :: !Nested(TextBetween(lines, l, p, m, q))
  {
    forall m: nat, q: nat | IsPosition(lines, m, q)
      ensures CloseOf(lines, l, p) == (m, q + 1) <==> Nested(TextBetween(lines, l, p, m, q))
    {
      CloseFindsNested(lines, l, p, m, q);
    }
    var (endLine, end) := CloseOf(lines, l, p);
    if end != -1 {
      assert IsPosition(lines, endLine, end - 1);
    }
  }

  /** The backward search fails exactly when no nested text ends at the position. */
  lemma ReverseCloseFails(lines: seq<string>, m: nat, q: nat)
    requires IsPosition(lines, m, q)
    ensures ReverseCloseOf(lines, m, q) == (0, -1)
       <==> forall l, p | IsPosition(lines, l, p) :: !Nested(TextBetween(lines, l, p, m, q))
  {
    forall l: nat, p: nat | IsPosition(lines, l, p)
      ensures ReverseCloseOf(lines, m, q) == (l, p) <==> Nested(TextBetween(lines, l, p, m, q))
    {
      ReverseFindsNested(lines, l, p, m, q);
    }
    var (startLine, start) := ReverseCloseOf(lines, m, q);
    if start != -1 {
      assert IsPosition(lines, startLine, start);
    }
  }

  // ---- Scanning a text piece by piece.

  /** An open stack is never empty. */
  lemma {:induction false} ForwardStaysOpen(t: string, stack: seq<char>)
    requires stack != [] || (t != "" && Opener(t[0]))
    ensures ScanForward(t, stack).Open? ==> ScanForward(t, stack).stack != []
    decreases t
  {
    if t != "" {
      if Opener(t[0]) {
        ForwardStaysOpen(t[1..], stack + [t[0]]);
      } else if Closer(t[0]) {
        if |stack| > 1 {
          ForwardStaysOpen(t[1..], stack[..|stack| - 1]);
        }
      } else {
        ForwardStaysOpen(t[1..], stack);
      }
    }
  }

  lemma {:induction false} BackwardStaysOpen(t: string, stack: seq<char>)
    requires stack != [] || (t != "" && Closer(t[|t| - 1]))
    ensures ScanBackward(t, stack).Open? ==> ScanBackward(t, stack).stack != []
    decreases t
  {
    if t != "" {
      var c, rest := t[|t| - 1], t[..|t| - 1];
      if Closer(c) {
        BackwardStaysOpen(rest, stack + [c]);
      } else if Opener(c) {
        if |stack| > 1 {
          BackwardStaysOpen(rest, stack[..|stack| - 1]);
        }
      } else {
        BackwardStaysOpen(rest, stack);
      }
    }
  }

  lemma {:induction false} ForwardConcat(a: string, b: string, stack: seq<char>)
    ensures ScanForward(a + b, stack)
         == match ScanForward(a, stack) case Open(s) => Later(|a|, ScanForward(b, s)) case r => r
    decreases |a|
  {
    if a == "" {
      LeftUnit(b);
    } else {
      assert (a + b)[0] == a[0] && (a + b)[1..] == a[1..] + b;
      if Opener(a[0]) {
        ForwardConcat(a[1..], b, stack + [a[0]]);
      } else if Closer(a[0]) {
        if |stack| > 1 {
          ForwardConcat(a[1..], b, stack[..|stack| - 1]);
        }
      } else {
        ForwardConcat(a[1..], b, stack);
      }
    }
  }

  lemma {:induction false} BackwardConcat(a: string, b: string, stack: seq<char>)
    ensures ScanBackward(a + b, stack)
         == match ScanBackward(b, stack) case Open(s) => Later(|b|, ScanBackward(a, s)) case r => r
    decreases |b|
  {
    if b == "" {
      RightUnit(a);
    } else {
      var c, rest := b[|b| - 1], b[..|b| - 1];
      assert (a + b)[|a + b| - 1] == c && (a + b)[..|a + b| - 1] == a + rest;
      if Closer(c) {
        BackwardConcat(a, rest, stack + [c]);
      } else if Opener(c) {
        if |stack| > 1 {
          BackwardConcat(a, rest, stack[..|stack| - 1]);
        }
      } else {
        BackwardConcat(a, rest, stack);
      }
    }
  }

  lemma NothingLeft(stack: seq<char>)
    ensures ScanForward(Join([]), stack) == Open(stack)
    ensures ScanBackward(Join([]), stack) == Open(stack)
  {
  }
}
