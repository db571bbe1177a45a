/**
  `CloseExpression` and `ReverseCloseExpression` of `cpplint.py` on any lines, with the guesses about '<'
  and '>': template brackets, shift and comparison operators, `->` and `operator`.
 */
module ExpressionSearch {
  import opened Wrappers
  import opened Sequences
  import opened Characters
  import opened Brackets
  import opened NestedText

  // ---- The regular expressions.

  function TrimRight(s: string): (t: string)
    ensures |t| <= |s|
  {
    if s != "" && IsSpace(s[|s| - 1]) then TrimRight(s[..|s| - 1]) else s
  }

  /** `\boperator\s*$` */
  predicate EndsWithOperator(s: string) {
    var t := TrimRight(s);
    && |t| >= 8
    && t[|t| - 8..] == "operator"
    && (|t| == 8 || !IsWordChar(t[|t| - 9]))
  }

  /** `\s>=\s` at the beginning. */
  predicate StartsWithGreaterOrEqual(s: string) {
    |s| >= 4 && IsSpace(s[0]) && s[1] == '>' && s[2] == '=' && IsSpace(s[3])
  }

  // ---- One line.

  /** How the scan of a line ends: at a position, hopelessly, or with brackets still open. */
  datatype Outcome = Done(pos: int) | Dead | Pending(stack: seq<char>)

  /** What one character does; `skip` also passes over the one before, on the way back. */
  datatype Step = Stop(outcome: Outcome) | Go(stack: seq<char>, skip: bool)

  /** Takes `c` off the top, where it must be; the last one off ends the scan. */
  function Close(stack: seq<char>, pos: int): Step
    requires stack != []
  {
    if |stack| == 1 then Stop(Done(pos)) else Go(stack[..|stack| - 1], false)
  }

  /** The '<' at `i` is not taken for a bracket: it ends a shift operator, or belongs to `operator`. */
  predicate NoTemplate(line: string, i: nat)
    requires i < |line|
  {
    i > 0 && (line[i - 1] == '<' || EndsWithOperator(line[..i]))
  }

  function ForwardStep(line: string, i: nat, stack: seq<char>): Step
    requires i < |line|
  {
    var c := line[i];
    if Opener(c) then Go(stack + [c], false)
    else if c == '<' then
      if i > 0 && line[i - 1] == '<' then
        if stack != [] && stack[|stack| - 1] == '<' then
          if |stack| == 1 then Stop(Dead) else Go(stack[..|stack| - 1], false)
        else Go(stack, false)
      else if NoTemplate(line, i) then Go(stack, false)
      else Go(stack + ['<'], false)
    else if Closer(c) then
      var st := PopAll(stack, '<');
      if st == [] || st[|st| - 1] != Swap(c) then Stop(Dead) else Close(st, i + 1)
    else if c == '>' then
      if i > 0 && (line[i - 1] == '-' || EndsWithOperator(line[..i - 1])) then Go(stack, false)
      else if stack != [] && stack[|stack| - 1] == '<' then Close(stack, i + 1)
      else Go(stack, false)
    else if c == ';' then
      var st := PopAll(stack, '<');
      if st == [] then Stop(Dead) else Go(st, false)
    else Go(stack, false)
  }

  function EndInLine(line: string, i: nat, stack: seq<char>): Outcome
    decreases |line| - i
  {
    if i >= |line| then Pending(stack) else
    match ForwardStep(line, i, stack)
    case Stop(o) => o
    case Go(st, _) => EndInLine(line, i + 1, st)
  }

  /** The '>' at `i` is not taken for a bracket on the way back. */
  predicate NoTemplateEnd(line: string, i: nat)
    requires i < |line|
  {
    i > 0 && (line[i - 1] == '-' || StartsWithGreaterOrEqual(line[i - 1..]) || EndsWithOperator(line[..i]))
  }

  function BackwardStep(line: string, i: nat, stack: seq<char>): Step
    requires i < |line|
  {
    var c := line[i];
    if Closer(c) then Go(stack + [c], false)
    else if c == '>' then
      if NoTemplateEnd(line, i) then Go(stack, true) else Go(stack + ['>'], false)
    else if c == '<' then
      if i > 0 && line[i - 1] == '<' then Go(stack, true)
      else if stack != [] && stack[|stack| - 1] == '>' then Close(stack, i)
      else Go(stack, false)
    else if Opener(c) then
      var st := PopAll(stack, '>');
      if st == [] || st[|st| - 1] != Swap(c) then Stop(Dead) else Close(st, i)
    else if c == ';' then
      var st := PopAll(stack, '>');
      if st == [] then Stop(Dead) else Go(st, false)
    else Go(stack, false)
  }

  function StartInLine(line: string, i: int, stack: seq<char>): Outcome
    requires i < |line|
    decreases i
  {
    if i < 0 then Pending(stack) else
    match BackwardStep(line, i, stack)
    case Stop(o) => o
    case Go(st, skip) => StartInLine(line, if skip then i - 2 else i - 1, st)
  }

  /** How an outcome is reported: a position or -1, and the stack if the search goes on. */
  function Reported(o: Outcome): (int, Option<seq<char>>) {
    match o
    case Done(pos) => (pos, None)
    case Dead => (-1, None)
    case Pending(stack) => (-1, Some(stack))
  }

  method FindEndOfExpressionInLine(line: string, startpos: nat, stack: seq<char>)
    returns (endPos: int, left: Option<seq<char>>)
    ensures (endPos, left) == Reported(EndInLine(line, startpos, stack))
  {
    hide EndsWithOperator, PopAll;
    var st := stack;
    var i := startpos;
    while i < |line|
      invariant EndInLine(line, startpos, stack) == EndInLine(line, i, st)
    {
      var c := line[i];
      if c == '(' || c == '[' || c == '{' {
        st := st + [c];
      } else if c == '<' {
        if i > 0 && line[i - 1] == '<' {
          if st != [] && st[|st| - 1] == '<' {
            st := st[..|st| - 1];
            if st == [] {
              return -1, None;
            }
          }
        } else if i > 0 && EndsWithOperator(line[..i]) {
        } else {
          st := st + ['<'];
        }
      } else if c == ')' || c == ']' || c == '}' {
        st := PopWhile(st, '<');
        if st == [] {
          return -1, None;
        }
        var top := st[|st| - 1];
        if (top == '(' && c == ')') || (top == '[' && c == ']') || (top == '{' && c == '}') {
          st := st[..|st| - 1];
          if st == [] {
            return i + 1, None;
          }
        } else {
          return -1, None;
        }
      } else if c == '>' {
        if i > 0 && (line[i - 1] == '-' || EndsWithOperator(line[..i - 1])) {
        } else if st != [] && st[|st| - 1] == '<' {
          st := st[..|st| - 1];
          if st == [] {
            return i + 1, None;
          }
        }
      } else if c == ';' {
        st := PopWhile(st, '<');
        if st == [] {
          return -1, None;
        }
      }
      i := i + 1;
    }
    return -1, Some(st);
  }

  /** `while stack and stack[-1] == c: stack.pop()` */
  method PopWhile(stack: seq<char>, c: char) returns (r: seq<char>)
    ensures r == PopAll(stack, c)
  {
    r := stack;
    while r != [] && r[|r| - 1] == c
      invariant PopAll(r, c) == PopAll(stack, c)
      decreases |r|
    {
      r := r[..|r| - 1];
    }
  }

  method FindStartOfExpressionInLine(line: string, endpos: int, stack: seq<char>)
    returns (startPos: int, left: Option<seq<char>>)
    requires endpos < |line|
    ensures (startPos, left) == Reported(StartInLine(line, endpos, stack))
  {
    hide EndsWithOperator, StartsWithGreaterOrEqual, PopAll;
    var st := stack;
    var i := endpos;
    while i >= 0
      invariant i <= endpos
      invariant StartInLine(line, endpos, stack) == StartInLine(line, i, st)
    {
      var c := line[i];
      if c == ')' || c == ']' || c == '}' {
        st := st + [c];
      } else if c == '>' {
        if i > 0
           && (line[i - 1] == '-' || StartsWithGreaterOrEqual(line[i - 1..]) || EndsWithOperator(line[..i])) {
          i := i - 1;
        } else {
          st := st + ['>'];
        }
      } else if c == '<' {
        if i > 0 && line[i - 1] == '<' {
          i := i - 1;
        } else if st != [] && st[|st| - 1] == '>' {
          st := st[..|st| - 1];
          if st == [] {
            return i, None;
          }
        }
      } else if c == '(' || c == '[' || c == '{' {
        st := PopWhile(st, '>');
        if st == [] {
          return -1, None;
        }
        var top := st[|st| - 1];
        if (c == '(' && top == ')') || (c == '[' && top == ']') || (c == '{' && top == '}') {
          st := st[..|st| - 1];
          if st == [] {
            return i, None;
          }
        } else {
          return -1, None;
        }
      } else if c == ';' {
        st := PopWhile(st, '>');
        if st == [] {
          return -1, None;
        }
      }
      i := i - 1;
    }
    return -1, Some(st);
  }

  // ---- From line to line.

  /** The position a forward search reports after line `l` has come to `o`. */
  function OnForward(lines: seq<string>, l: nat, o: Outcome): (int, int)
    requires l < |lines|
    decreases |lines| - l
  {
    match o
    case Done(pos) => (l, pos)
    case Dead => (|lines|, -1)
    case Pending(st) =>
      if st == [] || l == |lines| - 1 then (|lines|, -1)
      else OnForward(lines, l + 1, EndInLine(lines[l + 1], 0, st))
  }

  /** '(', '[', '{', or a '<' that does not begin `<<` or `<=`. */
  predicate Opens(line: string, p: nat)
    requires p < |line|
  {
    Opener(line[p]) || (line[p] == '<' && !(p + 1 < |line| && (line[p + 1] == '<' || line[p + 1] == '=')))
  }

  function ClosePosition(lines: seq<string>, l: nat, p: nat): (int, int)
    requires IsPosition(lines, l, p)
  {
    if Opens(lines[l], p) then OnForward(lines, l, EndInLine(lines[l], p, [])) else (|lines|, -1)
  }

  function OnBackward(lines: seq<string>, l: nat, o: Outcome): (int, int)
    requires l < |lines|
    decreases l
  {
    match o
    case Done(pos) => (l, pos)
    case Dead => (0, -1)
    case Pending(st) =>
      if st == [] || l == 0 then (0, -1)
      else OnBackward(lines, l - 1, StartInLine(lines[l - 1], |lines[l - 1]| - 1, st))
  }

  function OpenPosition(lines: seq<string>, l: nat, p: nat): (int, int)
    requires IsPosition(lines, l, p)
  {
    if Closer(lines[l][p]) || lines[l][p] == '>' then OnBackward(lines, l, StartInLine(lines[l], p, [])) else (0, -1)
  }

  method CloseExpression(lines: seq<string>, l: nat, p: nat) returns (line: string, endLine: int, endPos: int)
    requires IsPosition(lines, l, p)
    ensures (endLine, endPos) == ClosePosition(lines, l, p)
    ensures endPos != -1 ==> 0 <= endLine < |lines| && line == lines[endLine]
  {
    hide EndInLine, EndsWithOperator;
    line := lines[l];
    if !Opens(line, p) {
      return line, |lines|, -1;
    }
    EndIsPositive(line, p, []);
    var stack;
    endPos, stack := FindEndOfExpressionInLine(line, p, []);
    if endPos > -1 {
      return line, l, endPos;
    }
    var linenum := l;
    while stack != None && stack.value != [] && linenum < |lines| - 1
      invariant l <= linenum < |lines|
      invariant ClosePosition(lines, l, p)
             == OnForward(lines, linenum, if stack.Some? then Pending(stack.value) else Dead)
      decreases |lines| - linenum
    {
      linenum := linenum + 1;
      line := lines[linenum];
      EndIsPositive(line, 0, stack.value);
      endPos, stack := FindEndOfExpressionInLine(line, 0, stack.value);
      if endPos > -1 {
        return line, linenum, endPos;
      }
    }
    return line, |lines|, -1;
  }

  method ReverseCloseExpression(lines: seq<string>, l: nat, p: nat)
    returns (line: string, startLine: int, startPos: int)
    requires IsPosition(lines, l, p)
    ensures (startLine, startPos) == OpenPosition(lines, l, p)
    ensures startPos != -1 ==> 0 <= startLine < |lines| && line == lines[startLine]
  {
    hide StartInLine;
    line := lines[l];
    if !Closer(line[p]) && line[p] != '>' {
      return line, 0, -1;
    }
    StartIsInLine(line, p, []);
    var stack;
    startPos, stack := FindStartOfExpressionInLine(line, p, []);
    if startPos > -1 {
      return line, l, startPos;
    }
    var linenum := l;
    while stack != None && stack.value != [] && linenum > 0
      invariant 0 <= linenum <= l
      invariant OpenPosition(lines, l, p)
             == OnBackward(lines, linenum, if stack.Some? then Pending(stack.value) else Dead)
      decreases linenum
    {
      linenum := linenum - 1;
      line := lines[linenum];
      StartIsInLine(line, |line| - 1, stack.value);
      startPos, stack := FindStartOfExpressionInLine(line, |line| - 1, stack.value);
      if startPos > -1 {
        return line, linenum, startPos;
      }
    }
    return line, 0, -1;
  }

  lemma {:induction false} EndIsPositive(line: string, i: nat, stack: seq<char>)
    ensures EndInLine(line, i, stack).Done? ==> i < EndInLine(line, i, stack).pos <= |line|
    decreases |line| - i
  {
    hide EndsWithOperator;
    if i < |line| {
      match ForwardStep(line, i, stack) {
        case Stop(_) =>
        case Go(st, _) => EndIsPositive(line, i + 1, st);
      }
    }
  }

  lemma {:induction false} StartIsInLine(line: string, i: int, stack: seq<char>)
    requires i < |line|
    ensures StartInLine(line, i, stack).Done? ==> 0 <= StartInLine(line, i, stack).pos <= i
    decreases i
  {
    hide EndsWithOperator, StartsWithGreaterOrEqual;
    if i >= 0 {
      match BackwardStep(line, i, stack) {
        case Stop(_) =>
        case Go(st, skip) => StartIsInLine(line, if skip then i - 2 else i - 1, st);
      }
    }
  }

  // ---- Without angle brackets the searches are those for nested text.

  predicate Plain(stack: seq<char>) {
    '<' !in stack && '>' !in stack
  }

  lemma PlainTail(stack: seq<char>, c: char)
    requires Plain(stack)
    ensures stack != [] ==> Plain(stack[..|stack| - 1])
    ensures Opener(c) || Closer(c) ==> Plain(stack + [c])
    ensures PopAll(stack, '<') == stack && PopAll(stack, '>') == stack
  {
  }

  function Ahead(r: Scan, i: int): Outcome {
    match r
    case Found(n) => Done(i + n)
    case Failed => Dead
    case Open(st) => Pending(st)
  }

  function Behind(r: Scan, i: int): Outcome {
    match r
    case Found(n) => Done(i - n)
    case Failed => Dead
    case Open(st) => Pending(st)
  }

  lemma {:induction false} EndInPlainLine(line: string, i: nat, stack: seq<char>)
    requires NoAngles(line) && Plain(stack) && i <= |line|
    ensures EndInLine(line, i, stack) == Ahead(ScanForward(line[i..], stack), i)
    ensures ScanForward(line[i..], stack).Open? ==> Plain(ScanForward(line[i..], stack).stack)
    decreases |line| - i
  {
    hide EndsWithOperator, PopAll, Plain;
    if i < |line| {
      PlainTail(stack, line[i]);
      assert line[i] in line && line[i..][1..] == line[i + 1..];
      match ForwardStep(line, i, stack) {
        case Stop(_) =>
        case Go(st, _) => EndInPlainLine(line, i + 1, st);
      }
    }
  }

  lemma {:induction false} StartInPlainLine(line: string, i: int, stack: seq<char>)
    requires NoAngles(line) && Plain(stack) && -1 <= i < |line|
    ensures StartInLine(line, i, stack) == Behind(ScanBackward(line[..i + 1], stack), i + 1)
    ensures ScanBackward(line[..i + 1], stack).Open? ==> Plain(ScanBackward(line[..i + 1], stack).stack)
    decreases i
  {
    hide NoTemplateEnd, PopAll, Plain, Swap;
    if i >= 0 {
      PlainTail(stack, line[i]);
      assert line[i] in line;
      assert line[..i + 1][..i] == line[..i];
      match BackwardStep(line, i, stack) {
        case Stop(_) =>
        case Go(st, skip) => StartInPlainLine(line, i - 1, st);
      }
    }
  }

  /** What the search that started at `start` finds in the joined text. */
  ghost predicate Agrees(lines: seq<string>, start: nat, r: Scan, found: (int, int)) {
    match r
    case Found(n) =>
      0 <= start + n - 1 < |Join(lines)|
      && found == (Locate(lines, start + n - 1).0, Locate(lines, start + n - 1).1 + 1)
    case _ => found == (|lines|, -1)
  }

  /** Carrying the stack to the next lines is scanning on in the joined text. */
  lemma {:induction false} ForwardOverPlainLines(lines: seq<string>, start: nat, l: nat, stack: seq<char>, r: Scan)
    requires NoAnglesIn(lines) && Plain(stack) && stack != [] && l < |lines|
    requires start <= LineStart(lines, l + 1)
    requires r == Later(LineStart(lines, l + 1) - start, ScanForward(Join(lines[l + 1..]), stack))
    ensures Agrees(lines, start, r, OnForward(lines, l, Pending(stack)))
    decreases |lines| - l
  {
    hide Join, Locate, ScanForward, EndInLine, Plain;
    if l == |lines| - 1 {
      assert lines[l + 1..] == [];
      NothingLeft(stack);
    } else {
      var line := lines[l + 1];
      JoinAround(lines, l + 1);
      ForwardConcat(line, Join(lines[l + 2..]), stack);
      ForwardStaysOpen(line, stack);
      assert line[0..] == line;
      EndInPlainLine(line, 0, stack);
      match ScanForward(line, stack) {
        case Found(n) => LocateIsInverse(lines, l + 1, n - 1);
        case Failed =>
        case Open(st) => ForwardOverPlainLines(lines, start, l + 1, st, r);
      }
    }
  }

  lemma CloseOfAgrees(lines: seq<string>, l: nat, p: nat)
    requires IsPosition(lines, l, p) && Opener(lines[l][p])
    ensures Flat(lines, l, p) <= |Join(lines)|
    ensures Agrees(lines, Flat(lines, l, p), ScanForward(Join(lines)[Flat(lines, l, p)..], []), CloseOf(lines, l, p))
  {
    LocateIsInverse(lines, l, p);
    hide Join, Locate, ScanForward, Flat;
  }

  /** The rest of the joined text is scanned as the rest of the line and then the lines after it. */
  lemma ScanSplits(lines: seq<string>, l: nat, p: nat)
    requires IsPosition(lines, l, p) && Flat(lines, l, p) <= |Join(lines)| && Opener(lines[l][p])
    ensures ScanForward(Join(lines)[Flat(lines, l, p)..], [])
         == match ScanForward(lines[l][p..], [])
            case Open(st) => Later(|lines[l]| - p, ScanForward(Join(lines[l + 1..]), st))
            case other => other
    ensures ScanForward(lines[l][p..], []).Open? ==> ScanForward(lines[l][p..], []).stack != []
  {
    var rest, more := lines[l][p..], Join(lines[l + 1..]);
    hide Join, ScanForward, Flat, LineStart;
    RestOfLines(lines, l, p);
    ForwardConcat(rest, more, []);
    ForwardStaysOpen(rest, []);
  }

  /** On lines without '<' and '>' the forward search is the search for nested text. */
  lemma CloseWithoutAngles(lines: seq<string>, l: nat, p: nat)
    requires IsPosition(lines, l, p) && NoAnglesIn(lines)
    ensures ClosePosition(lines, l, p) == CloseOf(lines, l, p)
  {
    assert lines[l][p] in lines[l];
    if Opener(lines[l][p]) {
      CloseOfAgrees(lines, l, p);
      ScanSplits(lines, l, p);
      EndInPlainLine(lines[l], p, []);
      hide Join, Locate, ScanForward, Flat, EndInLine, OnForward, CloseOf, Plain;
      FirstLine(lines, l, p, ScanForward(lines[l][p..], []), ScanForward(Join(lines)[Flat(lines, l, p)..], []));
    }
  }

  lemma FirstLine(lines: seq<string>, l: nat, p: nat, first: Scan, r: Scan)
    requires IsPosition(lines, l, p) && NoAnglesIn(lines)
    requires first.Open? ==> Plain(first.stack) && first.stack != []
    requires first.Found? ==> 1 <= first.count <= |lines[l]| - p
    requires r == match first
                  case Open(st) => Later(|lines[l]| - p, ScanForward(Join(lines[l + 1..]), st))
                  case other => other
    ensures Agrees(lines, Flat(lines, l, p), r, OnForward(lines, l, Ahead(first, p)))
  {
    hide Join, Locate, ScanForward, EndInLine, Plain;
    JoinAround(lines, l);
    match first {
      case Found(n) => LocateIsInverse(lines, l, p + n - 1);
      case Failed =>
      case Open(st) => ForwardOverPlainLines(lines, Flat(lines, l, p), l, st, r);
    }
  }

  /** The same for a search backwards, which reports the position of the bracket itself. */
  ghost predicate AgreesBack(lines: seq<string>, end: nat, r: Scan, found: (int, int)) {
    match r
    case Found(n) =>
      0 <= end - n < |Join(lines)|
      && found == (Locate(lines, end - n).0, Locate(lines, end - n).1)
    case _ => found == (0, -1)
  }

  lemma {:induction false} BackwardOverPlainLines(lines: seq<string>, end: nat, l: nat, stack: seq<char>, r: Scan)
    requires NoAnglesIn(lines) && Plain(stack) && stack != [] && l < |lines|
    requires LineStart(lines, l) <= end
    requires r == Later(end - LineStart(lines, l), ScanBackward(Join(lines[..l]), stack))
    ensures AgreesBack(lines, end, r, OnBackward(lines, l, Pending(stack)))
    decreases l
  {
    hide Join, Locate, ScanBackward, StartInLine, Plain;
    if l == 0 {
      assert lines[..0] == [];
      NothingLeft(stack);
    } else {
      var line := lines[l - 1];
      JoinAround(lines, l - 1);
      BackwardConcat(Join(lines[..l - 1]), line, stack);
      BackwardStaysOpen(line, stack);
      assert line[..|line|] == line;
      StartInPlainLine(line, |line| - 1, stack);
      match ScanBackward(line, stack) {
        case Found(n) => LocateIsInverse(lines, l - 1, |line| - n);
        case Failed =>
        case Open(st) => BackwardOverPlainLines(lines, end, l - 1, st, r);
      }
    }
  }

  lemma OpenOfAgrees(lines: seq<string>, l: nat, p: nat)
    requires IsPosition(lines, l, p) && Closer(lines[l][p])
    ensures var end := Flat(lines, l, p) + 1;
            end <= |Join(lines)|
            && AgreesBack(lines, end, ScanBackward(Join(lines)[..end], []), ReverseCloseOf(lines, l, p))
  {
    LocateIsInverse(lines, l, p);
    hide Join, Locate, ScanBackward, Flat;
  }

  lemma ScanSplitsBack(lines: seq<string>, l: nat, p: nat)
    requires IsPosition(lines, l, p) && Flat(lines, l, p) + 1 <= |Join(lines)| && Closer(lines[l][p])
    ensures ScanBackward(Join(lines)[..Flat(lines, l, p) + 1], [])
         == match ScanBackward(lines[l][..p + 1], [])
            case Open(st) => Later(p + 1, ScanBackward(Join(lines[..l]), st))
            case other => other
    ensures ScanBackward(lines[l][..p + 1], []).Open? ==> ScanBackward(lines[l][..p + 1], []).stack != []
  {
    var rest, before := lines[l][..p + 1], Join(lines[..l]);
    JoinAround(lines, l);
    hide Join, ScanBackward;
    assert Join(lines)[..Flat(lines, l, p) + 1] == before + rest;
    BackwardConcat(before, rest, []);
    BackwardStaysOpen(rest, []);
  }

  lemma LastLine(lines: seq<string>, l: nat, p: nat, first: Scan, r: Scan)
    requires IsPosition(lines, l, p) && NoAnglesIn(lines)
    requires first.Open? ==> Plain(first.stack) && first.stack != []
    requires first.Found? ==> 1 <= first.count <= p + 1
    requires r == match first
                  case Open(st) => Later(p + 1, ScanBackward(Join(lines[..l]), st))
                  case other => other
    ensures AgreesBack(lines, Flat(lines, l, p) + 1, r, OnBackward(lines, l, Behind(first, p + 1)))
  {
    hide Join, Locate, ScanBackward, StartInLine, Plain;
    match first {
      case Found(n) => LocateIsInverse(lines, l, p + 1 - n);
      case Failed =>
      case Open(st) => BackwardOverPlainLines(lines, Flat(lines, l, p) + 1, l, st, r);
    }
  }

  /** On lines without '<' and '>' the backward search is the search for nested text. */
  lemma ReverseCloseWithoutAngles(lines: seq<string>, l: nat, p: nat)
    requires IsPosition(lines, l, p) && NoAnglesIn(lines)
    ensures OpenPosition(lines, l, p) == ReverseCloseOf(lines, l, p)
  {
    assert lines[l][p] in lines[l];
    if Closer(lines[l][p]) {
      OpenOfAgrees(lines, l, p);
      ScanSplitsBack(lines, l, p);
      StartInPlainLine(lines[l], p, []);
      hide Join, Locate, ScanBackward, Flat, StartInLine, OnBackward, ReverseCloseOf, Plain;
      LastLine(lines, l, p, ScanBackward(lines[l][..p + 1], []),
               ScanBackward(Join(lines)[..Flat(lines, l, p) + 1], []));
    }
  }

  /** There the two functions undo each other. */
  lemma ExpressionSearchesAreInverse(lines: seq<string>, l: nat, p: nat, m: nat, q: nat)
    requires IsPosition(lines, l, p) && IsPosition(lines, m, q) && NoAnglesIn(lines)
    ensures ClosePosition(lines, l, p) == (m, q + 1) <==> OpenPosition(lines, m, q) == (l, p)
  {
    CloseWithoutAngles(lines, l, p);
    ReverseCloseWithoutAngles(lines, m, q);
    SearchesAreInverse(lines, l, p, m, q);
  }

  // ---- With them a search still ends at a partner.

  function Partner(c: char): char {
    if c == '<' then '>' else if c == '>' then '<' else Swap(c)
  }

  /** What a stack has at its bottom stays there until the scan ends at its partner. */
  lemma {:induction false} EndPairs(line: string, i: nat, stack: seq<char>)
    requires stack != []
    ensures var o := EndInLine(line, i, stack);
            && (o.Done? ==> i < o.pos <= |line| && line[o.pos - 1] == Partner(stack[0]))
            && (o.Pending? ==> o.stack != [] && o.stack[0] == stack[0])
    decreases |line| - i
  {
    hide EndsWithOperator;
    if i < |line| {
      SwapTwice(line[i]);
      match ForwardStep(line, i, stack) {
        case Stop(_) =>
        case Go(st, _) => EndPairs(line, i + 1, st);
      }
    }
  }

  lemma {:induction false} StartPairs(line: string, i: int, stack: seq<char>)
    requires stack != [] && i < |line|
    ensures var o := StartInLine(line, i, stack);
            && (o.Done? ==> 0 <= o.pos <= i && line[o.pos] == Partner(stack[0]))
            && (o.Pending? ==> o.stack != [] && o.stack[0] == stack[0])
    decreases i
  {
    hide EndsWithOperator, StartsWithGreaterOrEqual;
    if i >= 0 {
      SwapTwice(line[i]);
      match BackwardStep(line, i, stack) {
        case Stop(_) =>
        case Go(st, skip) => StartPairs(line, if skip then i - 2 else i - 1, st);
      }
    }
  }

  lemma {:induction false} ForwardPairs(lines: seq<string>, l: nat, stack: seq<char>)
    requires stack != [] && l < |lines|
    ensures var (m, e) := OnForward(lines, l, Pending(stack));
            e != -1 ==> m > l && IsPosition(lines, m, e - 1) && lines[m][e - 1] == Partner(stack[0])
    decreases |lines| - l
  {
    hide EndInLine;
    if l < |lines| - 1 {
      EndPairs(lines[l + 1], 0, stack);
      var o := EndInLine(lines[l + 1], 0, stack);
      if o.Pending? {
        ForwardPairs(lines, l + 1, o.stack);
      }
    }
  }

  lemma {:induction false} BackwardPairs(lines: seq<string>, l: nat, stack: seq<char>)
    requires stack != [] && l < |lines|
    ensures var (m, q) := OnBackward(lines, l, Pending(stack));
            q != -1 ==> m < l && IsPosition(lines, m, q) && lines[m][q] == Partner(stack[0])
    decreases l
  {
    hide StartInLine;
    if l > 0 {
      StartPairs(lines[l - 1], |lines[l - 1]| - 1, stack);
      var o := StartInLine(lines[l - 1], |lines[l - 1]| - 1, stack);
      if o.Pending? {
        BackwardPairs(lines, l - 1, o.stack);
      }
    }
  }

  /** If the forward search from a bracket succeeds, it ends just past a later bracket of the other kind. */
  predicate EndsAtPartner(lines: seq<string>, l: nat, p: nat)
    requires IsPosition(lines, l, p)
  {
    var (m, e) := ClosePosition(lines, l, p);
    e != -1 ==>
      && IsPosition(lines, m, e - 1) && lines[m][e - 1] == Partner(lines[l][p])
      && (m > l || (m == l && e - 1 > p))
  }

  /** On any text, that holds from every bracket that the scan takes for one. */
  lemma CloseFindsPartner(lines: seq<string>, l: nat, p: nat)
    requires IsPosition(lines, l, p)
    requires lines[l][p] == '<' ==> !NoTemplate(lines[l], p)
    ensures EndsAtPartner(lines, l, p)
  {
    hide EndsWithOperator;
    var line := lines[l];
    if Opens(line, p) {
      assert [] + [line[p]] == [line[p]];
      assert EndInLine(line, p, []) == EndInLine(line, p + 1, [line[p]]);
      EndPairs(line, p + 1, [line[p]]);
      hide EndInLine;
      var o := EndInLine(line, p + 1, [line[p]]);
      if o.Pending? {
        ForwardPairs(lines, l, o.stack);
      }
    }
  }

  /** If the backward search from a bracket succeeds, it ends at an earlier bracket of the other kind. */
  predicate StartsAtPartner(lines: seq<string>, l: nat, p: nat)
    requires IsPosition(lines, l, p)
  {
    var (m, q) := OpenPosition(lines, l, p);
    q != -1 ==>
      && IsPosition(lines, m, q) && lines[m][q] == Partner(lines[l][p])
      && (m < l || (m == l && q < p))
  }

  lemma ReverseCloseFindsPartner(lines: seq<string>, l: nat, p: nat)
    requires IsPosition(lines, l, p)
    requires lines[l][p] == '>' ==> !NoTemplateEnd(lines[l], p)
    ensures StartsAtPartner(lines, l, p)
  {
    hide EndsWithOperator, StartsWithGreaterOrEqual;
    var line := lines[l];
    if Closer(line[p]) || line[p] == '>' {
      assert [] + [line[p]] == [line[p]];
      assert StartInLine(line, p, []) == StartInLine(line, p - 1, [line[p]]);
      StartPairs(line, p - 1, [line[p]]);
      hide StartInLine;
      var o := StartInLine(line, p - 1, [line[p]]);
      if o.Pending? {
        BackwardPairs(lines, l, o.stack);
      }
    }
  }

  /** A '<' or '>' that is not taken for a bracket is passed over, and the search goes on with nothing open. */
  lemma IgnoredBracketDoesNotCount(lines: seq<string>, l: nat, p: nat)
    requires IsPosition(lines, l, p)
    ensures lines[l][p] == '<' && Opens(lines[l], p) && NoTemplate(lines[l], p) ==>
              ClosePosition(lines, l, p) == OnForward(lines, l, EndInLine(lines[l], p + 1, []))
    ensures lines[l][p] == '>' && NoTemplateEnd(lines[l], p) ==>
              OpenPosition(lines, l, p) == OnBackward(lines, l, StartInLine(lines[l], p - 2, []))
  {
    hide EndsWithOperator, StartsWithGreaterOrEqual, OnForward, OnBackward;
  }

  lemma GroupAhead(line: string, i: nat)
    requires i + 1 < |line| && line[i] == '(' && line[i + 1] == ')'
    ensures EndInLine(line, i, []) == Done(i + 2)
  {
    hide EndsWithOperator, PopAll;
    assert [] + ['('] == ['('];
    NothingOnTop(['(']);
    assert ForwardStep(line, i, []) == Go(['('], false);
    assert ForwardStep(line, i + 1, ['(']) == Stop(Done(i + 2));
    hide ForwardStep;
    assert EndInLine(line, i + 1, ['(']) == Done(i + 2);
  }

  lemma GroupBehind(line: string, i: nat)
    requires 0 < i < |line| && line[i] == ')' && line[i - 1] == '('
    ensures StartInLine(line, i, []) == Done(i - 1)
  {
    hide NoTemplateEnd, PopAll;
    assert [] + [')'] == [')'];
    NothingOnTop([')']);
    assert BackwardStep(line, i, []) == Go([')'], false);
    assert BackwardStep(line, i - 1, [')']) == Stop(Done(i - 1));
    hide BackwardStep;
    assert StartInLine(line, i - 1, [')']) == Done(i - 1);
  }

  /**
    The guard is exact: whatever stands before a '<', the search from it ends at a partner on every
    continuation of the line, with any other lines, if and only if the scan takes it for a bracket.
   */
  lemma PartnerExactly(before: string)
    requires before != "" && before[|before| - 1] == '<'
    ensures (forall lines: seq<string>, l: nat | l < |lines| && before <= lines[l] ::
               EndsAtPartner(lines, l, |before| - 1))
       <==> !NoTemplate(before, |before| - 1)
  {
    var p := |before| - 1;
    if NoTemplate(before, p) {
      ShiftFails(before);
    } else {
      forall lines: seq<string>, l: nat | l < |lines| && before <= lines[l]
        ensures EndsAtPartner(lines, l, p)
      {
        assert lines[l][..p] == before[..p];
        CloseFindsPartner(lines, l, p);
      }
    }
  }

  lemma ShiftFails(before: string)
    requires before != "" && before[|before| - 1] == '<' && NoTemplate(before, |before| - 1)
    ensures var lines := [before + "()"];
            before <= lines[0] && !EndsAtPartner(lines, 0, |before| - 1)
  {
    var p, line := |before| - 1, before + "()";
    assert line[..p] == before[..p];
    assert NoTemplate(line, p);
    IgnoredBracketDoesNotCount([line], 0, p);
    GroupAhead(line, p + 1);
    assert ClosePosition([line], 0, p) == (0, p + 3);
  }

  /** A character that a backward scan with nothing open passes over. */
  predicate QuietChar(c: char) {
    !Opener(c) && !Closer(c) && c != '<' && c != '>' && c != ';'
  }

  predicate Quiet(s: string) {
    forall k | 0 <= k < |s| :: QuietChar(s[k])
  }

  lemma {:induction false} QuietIsPassed(line: string, low: nat, i: nat)
    requires low <= i < |line| && forall k | low < k <= i :: QuietChar(line[k])
    ensures StartInLine(line, i, []) == StartInLine(line, low, [])
    decreases i
  {
    hide NoTemplateEnd, PopAll;
    if low < i {
      assert BackwardStep(line, i, []) == Go([], false);
      QuietIsPassed(line, low, i - 1);
    }
  }

  /** `w` is the tail of the line, and its character `i` is the one at `p`. */
  predicate TailAt(line: string, p: nat, w: string, i: nat) {
    i <= p < |line| && line[p - i..] == w
  }

  /** No line that ends in `w` keeps the scan from taking the '>' at `i` of `w` for a bracket. */
  ghost predicate AlwaysBracket(w: string, i: nat) {
    forall line: string, p: nat | TailAt(line, p, w, i) :: !NoTemplateEnd(line, p)
  }

  /** On every line that ends in `w`, with any other lines, the search from that '>' starts at a partner. */
  ghost predicate AlwaysStartsAtPartner(w: string, i: nat) {
    forall lines: seq<string>, l: nat, p: nat | l < |lines| && TailAt(lines[l], p, w, i) ::
      StartsAtPartner(lines, l, p)
  }

  /**
    The guard is exact on the way back too: for a '>' with nothing but quiet text before it in the tail `w`
    of a line, the search from it starts at a partner on every line that ends in `w`, with any other lines,
    if and only if no such line keeps the scan from taking it for a bracket. (Brackets or a ';' before it
    in `w` can make the search fail instead, which is no wrong partner.)
   */
  lemma ReversePartnerExactly(w: string, i: nat)
    requires i < |w| && w[i] == '>' && Quiet(w[..i])
    ensures AlwaysStartsAtPartner(w, i) <==> AlwaysBracket(w, i)
  {
    hide NoTemplateEnd, StartsAtPartner;
    if AlwaysBracket(w, i) {
      forall lines: seq<string>, l: nat, p: nat | l < |lines| && TailAt(lines[l], p, w, i)
        ensures StartsAtPartner(lines, l, p)
      {
        TailHas(lines[l], p, w, i);
        ReverseCloseFindsPartner(lines, l, p);
      }
    } else {
      var line: string, p: nat :| TailAt(line, p, w, i) && NoTemplateEnd(line, p);
      var fill := FailingText(line, p, w, i);
      GroupIsReported(fill, w, i);
      assert [Grouped(fill, w)][0] == Grouped(fill, w);
    }
  }

  lemma TailHas(line: string, p: nat, w: string, i: nat)
    requires i < |w| && TailAt(line, p, w, i)
    ensures line[p] == w[i]
  {
  }

  /** A group and some text before `w`. */
  function Grouped(fill: string, w: string): string {
    "()" + fill + w
  }

  /** If the text is quiet and the '>' passed over, the search from it ends at the group. */
  lemma GroupIsReported(fill: string, w: string, i: nat)
    requires i < |w| && w[i] == '>' && Quiet(w[..i]) && Quiet(fill) && |fill| + i > 0
    requires NoTemplateEnd(Grouped(fill, w), 2 + |fill| + i)
    ensures TailAt(Grouped(fill, w), 2 + |fill| + i, w, i)
    ensures !StartsAtPartner([Grouped(fill, w)], 0, 2 + |fill| + i)
  {
    var line, q := Grouped(fill, w), 2 + |fill| + i;
    forall k | 1 < k <= q - 2 ensures QuietChar(line[k]) {
      assert line[k] == if k < 2 + |fill| then fill[k - 2] else w[..i][k - 2 - |fill|];
    }
    assert line[0] == '(' && line[1] == ')' && line[q] == '>';
    hide NoTemplateEnd, StartInLine, Grouped, Quiet, QuietChar;
    IgnoredBracketDoesNotCount([line], 0, q);
    QuietIsPassed(line, 1, q - 2);
    GroupBehind(line, 1);
    assert OpenPosition([line], 0, q) == (0, 0);
  }

  /** If any text before the tail has the '>' passed over, then so has some quiet text after a group. */
  lemma FailingText(line: string, p: nat, w: string, i: nat) returns (fill: string)
    requires i < |w| && TailAt(line, p, w, i) && NoTemplateEnd(line, p)
    ensures Quiet(fill) && |fill| + i > 0
    ensures NoTemplateEnd(Grouped(fill, w), 2 + |fill| + i)
  {
    hide EndsWithOperator, StartsWithGreaterOrEqual;
    if i == 0 {
      fill := "-";
    } else if w[i - 1] == '-' || StartsWithGreaterOrEqual(w[i - 1..]) {
      fill := "";
      assert Grouped(fill, w)[i + 1..] == w[i - 1..];
    } else {
      assert line[p - 1..] == w[i - 1..];
      assert line[..p] == line[..p - i] + w[..i];
      fill := OperatorText(line[..p - i], w[..i]);
      assert Grouped(fill, w)[..2 + |fill| + i] == Grouped(fill, w[..i]);
    }
  }

  lemma OperatorText(before: string, x: string) returns (fill: string)
    requires EndsWithOperator(before + x)
    ensures Quiet(fill) && EndsWithOperator(Grouped(fill, x))
  {
    hide EndsWithOperator, OperatorAt, QuietChar;
    var u := before + x;
    var n := OperatorPlace(u);
    OperatorIsQuiet(u, n);
    var k := if n - 8 < |before| then n - 8 else |before|;
    fill := before[k..];
    assert Quiet(fill) by {
      assert forall j | 0 <= j < |fill| :: fill[j] == u[k + j];
    }
    OperatorAfterGroup(u, n, k);
    assert u[k..] == fill + x;
    Assoc("()", fill, x);
  }

  lemma OperatorPlace(u: string) returns (n: nat)
    requires EndsWithOperator(u)
    ensures OperatorAt(u, n)
  {
    var t := TrimRight(u);
    n := |t|;
    TrimRightSplits(u);
    hide TrimRight, IsSpace, IsWordChar;
    TailOfPrefix(u, t, n - 8);
  }

  lemma TailOfPrefix(u: string, t: string, k: nat)
    requires k <= |t| <= |u| && t == u[..|t|]
    ensures u[k..|t|] == t[k..]
    ensures k > 0 ==> u[k - 1] == t[k - 1]
  {
  }

  /** `u` ends in the word "operator" and, from `n` on, spaces. */
  predicate OperatorAt(u: string, n: int) {
    && 8 <= n <= |u| && u[n - 8..n] == "operator" && (n > 8 ==> !IsWordChar(u[n - 9]))
    && forall k | n <= k < |u| :: IsSpace(u[k])
  }

  lemma OperatorIsQuiet(u: string, n: nat)
    requires OperatorAt(u, n)
    ensures 8 <= n <= |u| && forall j | n - 8 <= j < |u| :: QuietChar(u[j])
  {
    LettersAreQuiet();
    QuietWord(u, n - 8, n, "operator");
    hide QuietChar;
    forall j | n - 8 <= j < |u| ensures QuietChar(u[j]) {
      if j >= n {
        SpaceIsQuiet(u[j]);
      }
    }
  }

  lemma LettersAreQuiet()
    ensures Quiet("operator")
  {
  }

  lemma SpaceIsQuiet(c: char)
    requires IsSpace(c)
    ensures QuietChar(c)
  {
  }

  lemma QuietWord(u: string, low: nat, high: nat, word: string)
    requires low <= high <= |u| && u[low..high] == word && Quiet(word)
    ensures forall j | low <= j < high :: QuietChar(u[j])
  {
    hide QuietChar;
    forall j | low <= j < high ensures QuietChar(u[j]) {
      assert u[j] == word[j - low];
    }
  }

  lemma OperatorAfterGroup(u: string, n: nat, k: nat)
    requires OperatorAt(u, n) && k <= n - 8
    ensures EndsWithOperator("()" + u[k..])
  {
    var kept, spaces := "()" + u[k..n], u[n..];
    assert "()" + u[k..] == kept + spaces;
    assert kept[|kept| - 8..] == u[n - 8..n];
    assert kept[|kept| - 1] == u[n - 8..n][7];
    assert kept[|kept| - 9] == if k < n - 8 then u[n - 9] else ')';
    hide OperatorAt;
    TrimRightOf(kept, spaces);
  }

  lemma {:induction false} TrimRightSplits(s: string)
    ensures TrimRight(s) == s[..|TrimRight(s)|]
    ensures forall k | |TrimRight(s)| <= k < |s| :: IsSpace(s[k])
    decreases |s|
  {
    if s != "" && IsSpace(s[|s| - 1]) {
      TrimRightSplits(s[..|s| - 1]);
    }
  }

  lemma {:induction false} TrimRightOf(s: string, spaces: string)
    requires s != "" && !IsSpace(s[|s| - 1])
    requires forall k | 0 <= k < |spaces| :: IsSpace(spaces[k])
    ensures TrimRight(s + spaces) == s
    decreases |spaces|
  {
    if spaces == "" {
      RightUnit(s);
    } else {
      assert (s + spaces)[..|s + spaces| - 1] == s + spaces[..|spaces| - 1];
      TrimRightOf(s, spaces[..|spaces| - 1]);
    }
  }

  /** So it may end at the end of some other group. */
  lemma ShiftExample()
    ensures ClosePosition(["<<(a)"], 0, 1) == (0, 5)
  {
    hide EndsWithOperator, PopAll;
    var line := "<<(a)";
    assert [] + ['('] == ['('];
    NothingOnTop(['(']);
    assert ForwardStep(line, 4, ['(']) == Stop(Done(5));
    assert ForwardStep(line, 3, ['(']) == Go(['('], false);
    assert ForwardStep(line, 2, []) == Go(['('], false);
    assert ForwardStep(line, 1, []) == Go([], false);
    hide ForwardStep;
    assert EndInLine(line, 4, ['(']) == Done(5);
    assert EndInLine(line, 2, []) == EndInLine(line, 3, ['(']) == EndInLine(line, 4, ['(']);
    assert EndInLine(line, 1, []) == EndInLine(line, 2, []);
  }

  lemma ArrowExample()
    ensures OpenPosition(["(a)->"], 0, 4) == (0, 0)
  {
    hide EndsWithOperator, StartsWithGreaterOrEqual, PopAll;
    var line := "(a)->";
    assert [] + [')'] == [')'];
    NothingOnTop([')']);
    assert BackwardStep(line, 0, [')']) == Stop(Done(0));
    assert BackwardStep(line, 1, [')']) == Go([')'], false);
    assert BackwardStep(line, 2, []) == Go([')'], false);
    assert BackwardStep(line, 4, []) == Go([], true);
    hide BackwardStep;
    assert StartInLine(line, 0, [')']) == Done(0);
    assert StartInLine(line, 2, []) == StartInLine(line, 1, [')']) == StartInLine(line, 0, [')']);
    assert StartInLine(line, 4, []) == StartInLine(line, 2, []);
  }

  lemma NothingOnTop(stack: seq<char>)
    requires stack != [] && (Opener(stack[|stack| - 1]) || Closer(stack[|stack| - 1]))
    ensures PopAll(stack, '<') == stack && PopAll(stack, '>') == stack
  {
  }
}
