/** With '<' and '>' in the lines: what the two searches of `cpplint.py` find, against the grammar of templates. */
module TemplateSearch {
  import opened Wrappers
  import opened Sequences
  import opened Characters
  import opened Brackets
  import opened NestedText
  import opened TemplateText
  import opened ExpressionSearch

  // ---- The regular expressions on text.

  /** The word `operator` at the end, with white space after it and no word character before it. */
  predicate OperatorAfter(s: string, a: string, b: string) {
    && s == a + "operator" + b
    && (forall k | 0 <= k < |b| :: IsSpace(b[k]))
    && (a == "" || !IsWordChar(a[|a| - 1]))
  }

  lemma OperatorExactly(s: string)
    ensures EndsWithOperator(s) <==> exists a, b :: OperatorAfter(s, a, b)
  {
    if EndsWithOperator(s) {
      var n := OperatorPlace(s);
      OperatorSplits(s, n);
    }
    if a, b :| OperatorAfter(s, a, b) {
      OperatorIsFound(s, a, b);
    }
  }

  lemma OperatorSplits(s: string, n: nat)
    requires OperatorAt(s, n)
    ensures OperatorAfter(s, s[..n - 8], s[n..])
  {
    hide IsSpace, IsWordChar;
    SplitAround(s, n - 8, n, "operator");
  }

  lemma SplitAround(s: string, k: nat, n: nat, word: string)
    requires k <= n <= |s| && s[k..n] == word
    ensures s == s[..k] + word + s[n..]
    ensures forall i | n <= i < |s| :: s[n..][i - n] == s[i]
  {
  }

  lemma OperatorIsFound(s: string, a: string, b: string)
    requires OperatorAfter(s, a, b)
    ensures EndsWithOperator(s)
  {
    var kept := a + "operator";
    assert kept[|kept| - 8..] == "operator";
    assert kept[|kept| - 1] == 'r';
    assert a != "" ==> kept[|kept| - 9] == a[|a| - 1];
    TrimRightOf(kept, b);
    hide TrimRight;
  }

  /** White space, `>=`, white space at the beginning. */
  predicate ComparisonBefore(s: string, a: char, b: char, rest: string) {
    s == [a] + ">=" + [b] + rest && IsSpace(a) && IsSpace(b)
  }

  lemma ComparisonExactly(s: string)
    ensures StartsWithGreaterOrEqual(s) <==> exists a, b, rest :: ComparisonBefore(s, a, b, rest)
  {
    hide IsSpace;
    if StartsWithGreaterOrEqual(s) {
      assert s == [s[0]] + ">=" + [s[3]] + s[4..];
      assert ComparisonBefore(s, s[0], s[3], s[4..]);
    }
  }

  // ---- Forward: which characters count on a line.

  /** A '<' after `operator` and a '>' of an arrow are blanked out; the second '<' of `<<` becomes '!'. */
  function MaskAt(line: string, i: nat): char
    requires i < |line|
  {
    var c := line[i];
    if c == '<' then
      if i > 0 && line[i - 1] == '<' then '!' else if i > 0 && EndsWithOperator(line[..i]) then ' ' else '<'
    else if c == '>' then
      if i > 0 && (line[i - 1] == '-' || EndsWithOperator(line[..i - 1])) then ' ' else '>'
    else if Opener(c) || Closer(c) || c == ';' then c
    else ' '
  }

  function Mask(line: string): (m: string)
    ensures |m| == |line|
  {
    seq(|line|, i requires 0 <= i < |line| => MaskAt(line, i))
  }

  function Masks(lines: seq<string>): (ms: seq<string>)
    ensures |ms| == |lines| && forall l | 0 <= l < |lines| :: ms[l] == Mask(lines[l])
  {
    seq(|lines|, l requires 0 <= l < |lines| => Mask(lines[l]))
  }

  /** The search of one line is the scan of its mask. */
  lemma {:induction false} EndIsScan(line: string, i: nat, stack: seq<char>)
    requires i <= |line|
    ensures EndInLine(line, i, stack) == Ahead(ScanAngles(Mask(line)[i..], stack), i)
    decreases |line| - i
  {
    hide EndsWithOperator, PopAll;
    if i < |line| {
      var t := Mask(line)[i..];
      assert t[0] == MaskAt(line, i) && t[1..] == Mask(line)[i + 1..];
      StepIsScan(line, i, stack, t);
      match ForwardStep(line, i, stack) {
        case Stop(_) =>
        case Go(st, _) => EndIsScan(line, i + 1, st);
      }
    }
  }

  lemma StepIsScan(line: string, i: nat, stack: seq<char>, t: string)
    requires i < |line| && t != "" && t[0] == MaskAt(line, i)
    ensures match ForwardStep(line, i, stack)
            case Stop(o) => o == Ahead(ScanAngles(t, stack), i)
            case Go(st, _) => ScanAngles(t, stack) == Later(1, ScanAngles(t[1..], st))
  {
    hide EndsWithOperator, PopAll;
  }

  // ---- Scanning piece by piece.

  lemma {:induction false} ScanConcat(a: string, b: string, stack: seq<char>)
    ensures ScanAngles(a + b, stack)
         == match ScanAngles(a, stack) case Open(s) => Later(|a|, ScanAngles(b, s)) case r => r
    decreases |a|
  {
    hide PopAll;
    if a == "" {
      LeftUnit(b);
    } else {
      TailOfConcat(a, b);
      var c, st := a[0], PopAll(stack, '<');
      if Opener(c) || c == '<' {
        ScanConcat(a[1..], b, stack + [c]);
      } else if Closer(c) {
        if |st| > 1 {
          ScanConcat(a[1..], b, st[..|st| - 1]);
        }
      } else if (c == '>' || c == '!') && Angle(stack) {
        ScanConcat(a[1..], b, stack[..|stack| - 1]);
      } else {
        ScanConcat(a[1..], b, if c == ';' then st else stack);
      }
    }
  }

  /** An open stack is never empty. */
  lemma {:induction false} ScanStaysOpen(t: string, stack: seq<char>)
    requires stack != [] || (t != "" && (Opener(t[0]) || t[0] == '<'))
    ensures ScanAngles(t, stack).Open? ==> ScanAngles(t, stack).stack != []
    decreases t
  {
    hide PopAll;
    if t != "" {
      var c, st := t[0], PopAll(stack, '<');
      if Opener(c) || c == '<' {
        ScanStaysOpen(t[1..], stack + [c]);
      } else if Closer(c) {
        if |st| > 1 {
          ScanStaysOpen(t[1..], st[..|st| - 1]);
        }
      } else if (c == '>' || c == '!') && Angle(stack) {
        if |stack| > 1 {
          ScanStaysOpen(t[1..], stack[..|stack| - 1]);
        }
      } else if c != ';' || st != [] {
        ScanStaysOpen(t[1..], if c == ';' then st else stack);
      }
    }
  }

  // ---- Forward over lines.

  /** Carrying the stack to the next lines is scanning on in the joined masks. */
  lemma {:induction false} ForwardOverLines(lines: seq<string>, start: nat, l: nat, stack: seq<char>, r: Scan)
    requires stack != [] && l < |lines| && start <= LineStart(Masks(lines), l + 1)
    requires r == Later(LineStart(Masks(lines), l + 1) - start, ScanAngles(Join(Masks(lines)[l + 1..]), stack))
    ensures Agrees(Masks(lines), start, r, OnForward(lines, l, Pending(stack)))
    decreases |lines| - l
  {
    hide Join, Locate, ScanAngles, EndInLine, Mask, Masks;
    var ms := Masks(lines);
    if l == |lines| - 1 {
      assert ms[l + 1..] == [];
      NothingScanned(stack);
    } else {
      var line := ms[l + 1];
      JoinAround(ms, l + 1);
      ScanConcat(line, Join(ms[l + 2..]), stack);
      ScanStaysOpen(line, stack);
      assert line[0..] == line;
      EndIsScan(lines[l + 1], 0, stack);
      match ScanAngles(line, stack) {
        case Found(n) => LocateIsInverse(ms, l + 1, n - 1);
        case Failed =>
        case Open(st) => ForwardOverLines(lines, start, l + 1, st, r);
      }
    }
  }

  lemma NothingScanned(stack: seq<char>)
    ensures Join([]) == "" && ScanAngles("", stack) == Open(stack)
  {
  }

  lemma FirstMask(lines: seq<string>, l: nat, p: nat)
    requires IsPosition(lines, l, p) && Begins(lines[l], p)
    ensures var ms := Masks(lines);
            && Flat(ms, l, p) <= |Join(ms)|
            && Agrees(ms, Flat(ms, l, p), ScanAngles(Join(ms)[Flat(ms, l, p)..], []), ClosePosition(lines, l, p))
  {
    var ms := Masks(lines);
    BeginIsMasked(lines[l], p);
    hide Join, Locate, ScanAngles, EndInLine, Mask, Masks, OnForward, Begins, Agrees, Flat, LineStart;
    RestOfLines(ms, l, p);
    var first := ScanAngles(ms[l][p..], []);
    ScanConcat(ms[l][p..], Join(ms[l + 1..]), []);
    ScanStaysOpen(ms[l][p..], []);
    EndIsScan(lines[l], p, []);
    var r := ScanAngles(Join(ms)[Flat(ms, l, p)..], []);
    var start := Flat(ms, l, p);
    match first {
      case Found(n) =>
        FoundOnLine(ms, l, p, n);
        ForwardStops(lines, l, p + n);
      case Failed =>
        FoundNowhere(ms, start);
        ForwardStops(lines, l, 0);
      case Open(st) => ForwardOverLines(lines, start, l, st, r);
    }
  }

  lemma FoundOnLine(ms: seq<string>, l: nat, p: nat, n: nat)
    requires IsPosition(ms, l, p) && 1 <= n <= |ms[l]| - p
    ensures Agrees(ms, Flat(ms, l, p), Found(n), (l, p + n))
  {
    hide Join, Locate;
    LocateIsInverse(ms, l, p + n - 1);
  }

  lemma FoundNowhere(ms: seq<string>, start: nat)
    ensures Agrees(ms, start, Failed, (|ms|, -1))
  {
  }

  lemma ForwardStops(lines: seq<string>, l: nat, pos: nat)
    requires l < |lines|
    ensures OnForward(lines, l, Done(pos)) == (l, pos) && OnForward(lines, l, Dead) == (|lines|, -1)
  {
  }

  /** The search starts at a bracket: not at `<<` or `<=`, the end of a shift, or after `operator`. */
  predicate Begins(line: string, p: nat)
    requires p < |line|
  {
    || Opener(line[p])
    || (&& line[p] == '<'
        && (p + 1 == |line| || (line[p + 1] != '<' && line[p + 1] != '='))
        && (p == 0 || (line[p - 1] != '<' && !EndsWithOperator(line[..p]))))
  }

  lemma BeginIsMasked(line: string, p: nat)
    requires p < |line| && Begins(line, p)
    ensures Opens(line, p)
    ensures Mask(line)[p..][0] == line[p] && (Opener(line[p]) || line[p] == '<')
  {
    hide EndsWithOperator;
  }

  /**
    From the start of a bracket, the search ends just past (m, q) exactly when the masked text up to there
    is a group of the grammar: over any number of lines, with any '<' and '>' in them.
   */
  lemma CloseFindsGroup(lines: seq<string>, l: nat, p: nat, m: nat, q: nat)
    requires IsPosition(lines, l, p) && IsPosition(lines, m, q) && Begins(lines[l], p)
    ensures ClosePosition(lines, l, p) == (m, q + 1) <==> Group(TextBetween(Masks(lines), l, p, m, q))
  {
    var ms := Masks(lines);
    FirstMask(lines, l, p);
    BeginIsMasked(lines[l], p);
    hide Begins, Masks, Mask, ClosePosition;
    GroupIsFound(ms, l, p, m, q, ClosePosition(lines, l, p));
  }

  lemma GroupIsFound(ms: seq<string>, l: nat, p: nat, m: nat, q: nat, found: (int, int))
    requires IsPosition(ms, l, p) && IsPosition(ms, m, q) && (Opener(ms[l][p]) || ms[l][p] == '<')
    requires Flat(ms, l, p) <= |Join(ms)|
    requires Agrees(ms, Flat(ms, l, p), ScanAngles(Join(ms)[Flat(ms, l, p)..], []), found)
    ensures found == (m, q + 1) <==> Group(TextBetween(ms, l, p, m, q))
  {
    hide Join, Locate, Flat, ScanAngles, Group;
    LocateIsInverse(ms, l, p);
    LocateIsInverse(ms, m, q);
    var start, end := Flat(ms, l, p), Flat(ms, m, q) + 1;
    var t := Join(ms)[start..];
    var r := ScanAngles(t, []);
    if r.Found? {
      LocatedExactly(ms, start + r.count - 1, m, q);
    }
    if start < end {
      Slice(Join(ms), start, end);
      ScanFindsGroup(t, end - start);
    } else {
      NoGroup();
    }
  }

  lemma NoGroup()
    ensures !Group("")
  {
  }

  /** So it fails exactly when no group starts there. */
  lemma CloseFindsNoGroup(lines: seq<string>, l: nat, p: nat)
    requires IsPosition(lines, l, p) && Begins(lines[l], p)
    ensures ClosePosition(lines, l, p) == (|lines|, -1)
       <==> forall m, q | IsPosition(lines, m, q) :: !Group(TextBetween(Masks(lines), l, p, m, q))
  {
    FirstMask(lines, l, p);
    hide Begins, Masks, Mask, ClosePosition, Group;
    forall m: nat, q: nat | IsPosition(lines, m, q)
      ensures ClosePosition(lines, l, p) == (m, q + 1) <==> Group(TextBetween(Masks(lines), l, p, m, q))
    {
      CloseFindsGroup(lines, l, p, m, q);
    }
    var (endLine, end) := ClosePosition(lines, l, p);
    if end != -1 {
      assert IsPosition(lines, endLine, end - 1);
    }
  }

  /** At any other '<' or character there is nothing to close, unless an ignored '<' is taken for a start. */
  lemma NothingBegins(lines: seq<string>, l: nat, p: nat)
    requires IsPosition(lines, l, p) && !Opener(lines[l][p])
    requires lines[l][p] == '<' ==> p + 1 < |lines[l]| && (lines[l][p + 1] == '<' || lines[l][p + 1] == '=')
    ensures ClosePosition(lines, l, p) == (|lines|, -1)
  {
  }

  // ---- Backward.

  /** The line up to `i` for the search backwards: a '>' that is passed over takes the character before it along. */
  function BackMask(line: string, i: int): (m: string)
    requires -1 <= i < |line|
    ensures |m| == i + 1
    decreases i
  {
    if i < 0 then "" else
    var c := line[i];
    if && i > 0 && c == '>'
       && (line[i - 1] == '-' || StartsWithGreaterOrEqual(line[i - 1..]) || EndsWithOperator(line[..i]))
    then BackMask(line, i - 2) + "  "
    else if i > 0 && c == '<' && line[i - 1] == '<' then BackMask(line, i - 2) + "  "
    else BackMask(line, i - 1) + [if Opener(c) || Closer(c) || c == '<' || c == '>' || c == ';' then c else ' ']
  }

  /** The lines before line `l`, and that line up to `p`. */
  function BackMasks(lines: seq<string>, l: nat, p: nat): (ms: seq<string>)
    requires IsPosition(lines, l, p)
    ensures |ms| == l + 1
    ensures forall k | 0 <= k <= l :: ms[k] == BackMask(lines[k], if k < l then |lines[k]| - 1 else p)
  {
    seq(l + 1, k requires 0 <= k <= l => BackMask(lines[k], if k < l then |lines[k]| - 1 else p))
  }

  /** The text read from its end, every bracket turned round. */
  function Flip(u: string): (v: string)
    ensures |v| == |u|
  {
    seq(|u|, i requires 0 <= i < |u| => Partner(u[|u| - 1 - i]))
  }

  function FlipEach(stack: seq<char>): (r: seq<char>)
    ensures |r| == |stack|
  {
    seq(|stack|, i requires 0 <= i < |stack| => Partner(stack[i]))
  }

  lemma FlipConcat(a: string, b: string)
    ensures Flip(a + b) == Flip(b) + Flip(a)
  {
  }

  lemma FlipSnoc(a: string, c: char)
    ensures Flip(a + [c]) == [Partner(c)] + Flip(a)
  {
    FlipConcat(a, [c]);
    assert Flip([c]) == [Partner(c)];
  }

  lemma {:induction false} FlipPops(stack: seq<char>)
    ensures FlipEach(PopAll(stack, '>')) == PopAll(FlipEach(stack), '<')
    decreases |stack|
  {
    if stack != [] && stack[|stack| - 1] == '>' {
      FlipFront(stack);
      FlipPops(stack[..|stack| - 1]);
    } else if stack != [] {
      PartnerExact(stack[|stack| - 1]);
    }
  }

  lemma FlipFront(stack: seq<char>)
    requires stack != []
    ensures FlipEach(stack)[..|stack| - 1] == FlipEach(stack[..|stack| - 1])
    ensures FlipEach(stack)[|stack| - 1] == Partner(stack[|stack| - 1])
  {
  }

  lemma FlipPush(stack: seq<char>, c: char)
    ensures FlipEach(stack + [c]) == FlipEach(stack) + [Partner(c)]
  {
  }

  lemma PartnerExact(c: char)
    ensures Partner(Partner(c)) == c && (Partner(c) == '<' <==> c == '>') && (Partner(c) == '>' <==> c == '<')
    ensures (Opener(Partner(c)) <==> Closer(c)) && (Closer(Partner(c)) <==> Opener(c))
    ensures (Partner(c) == ';' <==> c == ';') && Partner(' ') == ' ' && (Partner(c) == '!' <==> c == '!')
  {
    SwapTwice(c);
  }

  function Flipped(r: Scan): Scan {
    if r.Open? then Open(FlipEach(r.stack)) else r
  }

  /** A step of the search backwards is a step of the scan of the flipped text. */
  lemma BackStepIsScan(line: string, i: nat, stack: seq<char>, t: string)
    requires i < |line| && !(line[i] == '>' && NoTemplateEnd(line, i))
    requires !(i > 0 && line[i] == '<' && line[i - 1] == '<')
    requires t != "" && t[0] == Partner(if Opener(line[i]) || Closer(line[i]) || line[i] in "<>;" then line[i] else ' ')
    ensures match BackwardStep(line, i, stack)
            case Stop(Done(pos)) => pos == i && ScanAngles(t, FlipEach(stack)) == Found(1)
            case Stop(_) => ScanAngles(t, FlipEach(stack)) == Failed
            case Go(st, skip) => !skip && ScanAngles(t, FlipEach(stack)) == Later(1, ScanAngles(t[1..], FlipEach(st)))
  {
    hide NoTemplateEnd, PopAll, FlipEach, Partner;
    var c, st := line[i], PopAll(stack, '>');
    PartnerExact(c);
    PartnerExact(' ');
    FlipPops(stack);
    FlipPush(stack, c);
    if stack != [] {
      FlipFront(stack);
      PartnerExact(stack[|stack| - 1]);
    }
    if st != [] {
      FlipFront(st);
      PartnerExact(st[|st| - 1]);
      if Opener(c) {
        PartnerSwap(c, st[|st| - 1]);
      }
    }
  }

  lemma PartnerSwap(c: char, d: char)
    requires Opener(c)
    ensures d == Swap(c) <==> Partner(d) == Swap(Partner(c))
  {
  }

  lemma {:induction false} StartIsScan(line: string, i: int, stack: seq<char>)
    requires -1 <= i < |line|
    ensures StartInLine(line, i, stack)
         == match ScanAngles(Flip(BackMask(line, i)), FlipEach(stack))
            case Found(n) => Done(i + 1 - n)
            case Failed => Dead
            case Open(st) => Pending(FlipEach(st))
    decreases i
  {
    hide Partner, FlipEach, Flip, ScanAngles, PopAll, StartsWithGreaterOrEqual, EndsWithOperator;
    if i < 0 {
      NothingFlipped(stack);
    } else {
      var c := line[i];
      if (c == '>' && NoTemplateEnd(line, i)) || (c == '<' && i > 0 && line[i - 1] == '<') {
        TwoBlanks(BackMask(line, i - 2), FlipEach(stack));
        StartIsScan(line, i - 2, stack);
      } else {
        var d := if Opener(c) || Closer(c) || c in "<>;" then c else ' ';
        var t := Flip(BackMask(line, i));
        FlipSnoc(BackMask(line, i - 1), d);
        BackStepIsScan(line, i, stack, t);
        match BackwardStep(line, i, stack) {
          case Stop(_) =>
          case Go(st, _) => StartIsScan(line, i - 1, st);
        }
      }
    }
  }

  lemma NothingFlipped(stack: seq<char>)
    ensures Flip("") == "" && ScanAngles("", FlipEach(stack)) == Open(FlipEach(stack))
    ensures FlipEach(FlipEach(stack)) == stack
  {
    forall i | 0 <= i < |stack| ensures FlipEach(FlipEach(stack))[i] == stack[i] {
      PartnerExact(stack[i]);
    }
  }

  lemma TwoBlanks(u: string, stack: seq<char>)
    ensures ScanAngles(Flip(u + "  "), stack) == Later(2, ScanAngles(Flip(u), stack))
  {
    var v := Flip(u);
    FlipConcat(u, "  ");
    PartnerExact(' ');
    assert Flip("  ")[0] == ' ' && Flip("  ")[1] == ' ';
    assert ("  " + v)[1..] == " " + v && (" " + v)[1..] == v;
    assert ScanAngles(" " + v, stack) == Later(1, ScanAngles(v, stack));
  }

  /** Carrying the stack to the lines before is scanning on in the flipped text. */
  lemma {:induction false} BackwardOverLines(
      lines: seq<string>, ms: seq<string>, end: nat, l: nat, stack: seq<char>, r: Scan)
    requires stack != [] && l < |lines| && l < |ms| && LineStart(ms, l) <= end
    requires forall k | 0 <= k < l :: ms[k] == BackMask(lines[k], |lines[k]| - 1)
    requires r == Later(end - LineStart(ms, l), ScanAngles(Flip(Join(ms[..l])), FlipEach(stack)))
    ensures AgreesBack(ms, end, r, OnBackward(lines, l, Pending(stack)))
    decreases l
  {
    hide Join, Locate, ScanAngles, StartInLine, BackMask, Flip, FlipEach;
    if l == 0 {
      assert ms[..0] == [];
      NothingScanned(FlipEach(stack));
      NothingFlipped(stack);
    } else {
      var line := ms[l - 1];
      JoinAround(ms, l - 1);
      FlipConcat(Join(ms[..l - 1]), line);
      ScanConcat(Flip(line), Flip(Join(ms[..l - 1])), FlipEach(stack));
      ScanStaysOpen(Flip(line), FlipEach(stack));
      StartIsScan(lines[l - 1], |line| - 1, stack);
      match ScanAngles(Flip(line), FlipEach(stack)) {
        case Found(n) => LocateIsInverse(ms, l - 1, |line| - n);
        case Failed =>
        case Open(st) =>
          NothingFlipped(st);
          BackwardOverLines(lines, ms, end, l - 1, FlipEach(st), r);
      }
    }
  }

  /** The search backwards starts at a bracket: not at the '>' of an arrow, a comparison or an operator. */
  predicate Ends(line: string, p: nat)
    requires p < |line|
  {
    || Closer(line[p])
    || (&& line[p] == '>'
        && (p == 0 || (line[p - 1] != '-' && !EndsWithOperator(line[..p]) && !StartsWithGreaterOrEqual(line[p - 1..]))))
  }

  lemma EndIsFlipped(line: string, p: nat)
    requires p < |line| && Ends(line, p)
    ensures var u := Flip(BackMask(line, p)); u != "" && (Opener(u[0]) || u[0] == '<')
    ensures Closer(line[p]) || line[p] == '>'
  {
    hide EndsWithOperator, StartsWithGreaterOrEqual, Partner;
    PartnerExact(line[p]);
    FlipSnoc(BackMask(line, p - 1), line[p]);
  }

  lemma LastMask(lines: seq<string>, l: nat, p: nat)
    requires IsPosition(lines, l, p) && Ends(lines[l], p)
    ensures var ms := BackMasks(lines, l, p);
            AgreesBack(ms, |Join(ms)|, ScanAngles(Flip(Join(ms)), []), OpenPosition(lines, l, p))
  {
    hide Join, Locate, ScanAngles, StartInLine, BackMask, Flip, FlipEach, OnBackward, Ends;
    var ms := BackMasks(lines, l, p);
    EndIsFlipped(lines[l], p);
    assert ms[..l + 1] == ms && ms[l + 1..] == [];
    JoinAround(ms, l);
    FlipConcat(Join(ms[..l]), ms[l]);
    ScanConcat(Flip(ms[l]), Flip(Join(ms[..l])), []);
    ScanStaysOpen(Flip(ms[l]), []);
    NoStack();
    StartIsScan(lines[l], p, []);
    LastOutcome(lines, ms, l, p, ScanAngles(Flip(ms[l]), []), ScanAngles(Flip(Join(ms)), []));
  }

  lemma NoStack()
    ensures FlipEach([]) == []
  {
  }

  lemma LastOutcome(lines: seq<string>, ms: seq<string>, l: nat, p: nat, first: Scan, r: Scan)
    requires IsPosition(lines, l, p) && ms == BackMasks(lines, l, p)
    requires |Join(ms)| == LineStart(ms, l) + p + 1
    requires first.Open? ==> first.stack != []
    requires first.Found? ==> 1 <= first.count <= p + 1
    requires r == match first
                  case Open(st) => Later(p + 1, ScanAngles(Flip(Join(ms[..l])), st))
                  case other => other
    ensures AgreesBack(ms, |Join(ms)|, r, OnBackward(lines, l,
              match first
              case Found(n) => Done(p + 1 - n)
              case Failed => Dead
              case Open(st) => Pending(FlipEach(st))))
  {
    hide Join, Locate, ScanAngles, StartInLine, BackMask, Flip, FlipEach;
    match first {
      case Found(n) => LocateIsInverse(ms, l, p + 1 - n);
      case Failed =>
      case Open(st) =>
        NothingFlipped(st);
        BackwardOverLines(lines, ms, |Join(ms)|, l, FlipEach(st), r);
    }
  }

  /** The masked text from (m, q) to the end of the search. */
  function TextFrom(ms: seq<string>, m: nat, q: nat): string
    requires IsPosition(ms, m, q)
  {
    LocateIsInverse(ms, m, q);
    Join(ms)[Flat(ms, m, q)..]
  }

  /**
    The same backwards: the search from the end of a bracket starts at (m, q) exactly when the masked text
    from there is, read backwards, a group of the grammar.
   */
  lemma ReverseFindsGroup(lines: seq<string>, l: nat, p: nat, m: nat, q: nat)
    requires IsPosition(lines, l, p) && Ends(lines[l], p)
    ensures OpenPosition(lines, l, p) == (m, q)
       <==> var ms := BackMasks(lines, l, p); IsPosition(ms, m, q) && Group(Flip(TextFrom(ms, m, q)))
  {
    var ms := BackMasks(lines, l, p);
    LastMask(lines, l, p);
    EndIsFlipped(lines[l], p);
    hide Ends, BackMask, BackMasks, OpenPosition, Join, Locate, Flat, ScanAngles, Group, Flip, AgreesBack;
    LastCharacter(ms, l);
    GroupIsFoundBack(ms, m, q, OpenPosition(lines, l, p));
  }

  lemma GroupIsFoundBack(ms: seq<string>, m: nat, q: nat, found: (int, int))
    requires var u := Flip(Join(ms)); u != "" && (Opener(u[0]) || u[0] == '<')
    requires AgreesBack(ms, |Join(ms)|, ScanAngles(Flip(Join(ms)), []), found)
    ensures found == (m, q) <==> IsPosition(ms, m, q) && Group(Flip(TextFrom(ms, m, q)))
  {
    hide Join, Locate, Flat, ScanAngles, Group, Flip;
    var r, end := ScanAngles(Flip(Join(ms)), []), |Join(ms)|;
    if IsPosition(ms, m, q) {
      LocateIsInverse(ms, m, q);
      if r.Found? {
        LocatedExactly(ms, end - r.count, m, q);
      }
      FlipPrefix(Join(ms), Flat(ms, m, q));
      ScanFindsGroup(Flip(Join(ms)), end - Flat(ms, m, q));
    }
  }

  /** So it fails exactly when no such group ends there. */
  lemma ReverseFindsNoGroup(lines: seq<string>, l: nat, p: nat)
    requires IsPosition(lines, l, p) && Ends(lines[l], p)
    ensures OpenPosition(lines, l, p) == (0, -1)
       <==> forall m, q | IsPosition(BackMasks(lines, l, p), m, q) ::
              !Group(Flip(TextFrom(BackMasks(lines, l, p), m, q)))
  {
    hide Ends, BackMask, BackMasks, OpenPosition, TextFrom, Group, Flip, AgreesBack;
    var ms := BackMasks(lines, l, p);
    LastMask(lines, l, p);
    OutcomeIsPosition(ms, ScanAngles(Flip(Join(ms)), []), OpenPosition(lines, l, p));
    forall m: nat, q: nat | IsPosition(ms, m, q)
      ensures OpenPosition(lines, l, p) == (m, q) <==> Group(Flip(TextFrom(ms, m, q)))
    {
      ReverseFindsGroup(lines, l, p, m, q);
    }
  }

  lemma OutcomeIsPosition(ms: seq<string>, r: Scan, found: (int, int))
    requires AgreesBack(ms, |Join(ms)|, r, found)
    ensures found == (0, -1) || IsPosition(ms, found.0, found.1)
  {
    hide Join, Locate;
  }

  lemma FlipPrefix(u: string, k: nat)
    requires k <= |u|
    ensures Flip(u)[..|u| - k] == Flip(u[k..])
  {
  }

  lemma LastCharacter(ms: seq<string>, l: nat)
    requires |ms| == l + 1 && ms[l] != "" && (Opener(Flip(ms[l])[0]) || Flip(ms[l])[0] == '<')
    ensures var u := Flip(Join(ms)); u != "" && (Opener(u[0]) || u[0] == '<')
  {
    assert ms[..l + 1] == ms && ms[l + 1..] == [];
    JoinAround(ms, l);
    FlipConcat(Join(ms[..l]), ms[l]);
    hide Flip, Join;
  }
}
