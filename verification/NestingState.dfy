/** The preprocessor stack of `cpplint.py`'s `NestingState`. */
module NestingState {
  import opened Characters
  import opened Sequences
  import opened Wrappers

  /** A line of a file and where it stands: lines with the same text may act differently. */
  datatype Line = Line(text: string, number: nat)

  datatype Directive = If | Else | Endif | Other

  function SkipSpaces(s: string): string {
    if s != "" && IsSpace(s[0]) then SkipSpaces(s[1..]) else s
  }

  function FirstWord(s: string): string {
    if s != "" && IsWordChar(s[0]) then [s[0]] + FirstWord(s[1..]) else ""
  }

  /** The regular expressions `^\s*#\s*(...)\b` of `UpdatePreprocessor`. */
  function DirectiveOf(line: Line): Directive {
    var r := SkipSpaces(line.text);
    if r == "" || r[0] != '#' then Other else
    var word := FirstWord(SkipSpaces(r[1..]));
    if word == "if" || word == "ifdef" || word == "ifndef" then If
    else if word == "else" || word == "elif" then Else
    else if word == "endif" then Endif
    else Other
  }

  // ---- Directives as text.

  predicate Spaces(s: string) {
    forall i | 0 <= i < |s| :: IsSpace(s[i])
  }

  predicate IsWord(s: string) {
    forall i | 0 <= i < |s| :: IsWordChar(s[i])
  }

  /** The line is `a`, '#', `b`, the word `w` and a rest, with `a` and `b` white space and `w` as long as can be. */
  predicate Spelled(text: string, a: string, b: string, w: string, rest: string) {
    && text == a + ['#'] + b + w + rest
    && Spaces(a) && Spaces(b) && IsWord(w)
    && (rest != "" ==> !IsWordChar(rest[0]) && (w == "" ==> !IsSpace(rest[0])))
  }

  lemma {:induction false} SkipsSpaces(a: string, rest: string)
    requires Spaces(a) && (rest != "" ==> !IsSpace(rest[0]))
    ensures SkipSpaces(a + rest) == rest
    decreases a
  {
    if a == "" {
      LeftUnit(rest);
    } else {
      TailOfConcat(a, rest);
      SkipsSpaces(a[1..], rest);
    }
  }

  lemma {:induction false} TakesWord(w: string, rest: string)
    requires IsWord(w) && (rest != "" ==> !IsWordChar(rest[0]))
    ensures FirstWord(w + rest) == w
    decreases w
  {
    if w == "" {
      LeftUnit(rest);
    } else {
      TailOfConcat(w, rest);
      TakesWord(w[1..], rest);
      HeadTail(w);
    }
  }

  lemma SpacesEndAt(b: string, w: string, rest: string)
    requires Spaces(b) && IsWord(w) && (rest != "" && w == "" ==> !IsSpace(rest[0]))
    ensures SkipSpaces(b + (w + rest)) == w + rest
  {
    LeftUnit(rest);
    SkipsSpaces(b, w + rest);
  }

  /** The word after '#' decides, and nothing else on the line. */
  lemma DirectiveOnText(line: Line, a: string, b: string, w: string, rest: string)
    requires Spelled(line.text, a, b, w, rest)
    ensures DirectiveOf(line) == If <==> w == "if" || w == "ifdef" || w == "ifndef"
    ensures DirectiveOf(line) == Else <==> w == "else" || w == "elif"
    ensures DirectiveOf(line) == Endif <==> w == "endif"
  {
    var r := ['#'] + (b + (w + rest));
    Regroup(a, b, w, rest);
    SkipsSpaces(a, r);
    TailOfConcat(['#'], b + (w + rest));
    SpacesEndAt(b, w, rest);
    TakesWord(w, rest);
    hide Spelled, SkipSpaces, FirstWord;
    assert r[1..] == b + (w + rest);
  }

  lemma Regroup(a: string, b: string, w: string, rest: string)
    ensures a + ['#'] + b + w + rest == a + (['#'] + (b + (w + rest)))
  {
  }

  /** Lines that are not spelled so are no directives: the first character that is not blank is not '#'. */
  lemma NoDirectiveOnText(line: Line, a: string, rest: string)
    requires line.text == a + rest && Spaces(a) && (rest != "" ==> !IsSpace(rest[0]) && rest[0] != '#')
    ensures DirectiveOf(line) == Other
  {
    SkipsSpaces(a, rest);
  }

  lemma {:induction false} SplitSpaces(s: string) returns (a: string, rest: string)
    ensures s == a + rest && Spaces(a) && (rest != "" ==> !IsSpace(rest[0]))
    decreases s
  {
    if s == "" || !IsSpace(s[0]) {
      a, rest := "", s;
    } else {
      var a1;
      a1, rest := SplitSpaces(s[1..]);
      a := [s[0]] + a1;
      HeadTail(s);
      Assoc([s[0]], a1, rest);
    }
  }

  lemma {:induction false} SplitWord(s: string) returns (w: string, rest: string)
    ensures s == w + rest && IsWord(w) && (rest != "" ==> !IsWordChar(rest[0]))
    ensures s != "" && !IsSpace(s[0]) && w == "" ==> rest != "" && !IsSpace(rest[0])
    decreases s
  {
    if s == "" || !IsWordChar(s[0]) {
      w, rest := "", s;
    } else {
      var w1;
      w1, rest := SplitWord(s[1..]);
      w := [s[0]] + w1;
      HeadTail(s);
      Assoc([s[0]], w1, rest);
    }
  }

  /** Every line is of one of the two kinds, so the two lemmas above decide every line. */
  lemma EveryLineIsSpelled(text: string)
    ensures (exists a, b, w, rest :: Spelled(text, a, b, w, rest))
         || (exists a, rest :: text == a + rest && Spaces(a) && (rest != "" ==> !IsSpace(rest[0]) && rest[0] != '#'))
  {
    var a, r := SplitSpaces(text);
    if r != "" && r[0] == '#' {
      var b, t := SplitSpaces(r[1..]);
      var w, rest := SplitWord(t);
      HeadTail(r);
      Regroup(a, b, w, rest);
      assert Spelled(text, a, b, w, rest);
    }
  }

  /** `_PreprocessorInfo`; the stacks are deep copies, hence values. */
  datatype PreprocessorInfo<B> = PreprocessorInfo(beforeIf: seq<B>, beforeElse: seq<B>, seenElse: bool)

  datatype State<B> = State(stack: seq<B>, pp: seq<PreprocessorInfo<B>>)

  /**
    What each line of a file does to the brace stack, whatever the rest of `Update` makes of it. Such a
    function belongs to one file and may look at any line of it.
   */
  type Braces<!B> = (Line, seq<B>) -> seq<B>

  function Preprocess<B>(line: Line, s: State<B>): State<B> {
    match DirectiveOf(line)
    case If =>
      s.(pp := s.pp + [PreprocessorInfo(s.stack, [], false)])
    case Else =>
      if s.pp == [] then s else
      var top := s.pp[|s.pp| - 1];
      var marked := if top.seenElse then top else top.(seenElse := true, beforeElse := s.stack);
      State(top.beforeIf, s.pp[|s.pp| - 1 := marked])
    case Endif =>
      if s.pp == [] then s else
      var top := s.pp[|s.pp| - 1];
      State(if top.seenElse then top.beforeElse else s.stack, s.pp[..|s.pp| - 1])
    case Other => s
  }

  function UpdateState<B>(braces: Braces<B>, line: Line, s: State<B>): State<B> {
    var t := Preprocess(line, s);
    t.(stack := braces(line, t.stack))
  }

  class NestingState<B> {
    var stack: seq<B>
    var pp: seq<PreprocessorInfo<B>>

    ghost function Abstract(): State<B>
      reads this
    {
      State(stack, pp)
    }

    constructor ()
      ensures Abstract() == State([], [])
    {
      stack, pp := [], [];
    }

    method UpdatePreprocessor(line: Line)
      modifies this
      ensures Abstract() == Preprocess(line, old(Abstract()))
    {
      var directive := DirectiveOf(line);
      if directive == If {
        pp := pp + [PreprocessorInfo(stack, [], false)];
      } else if directive == Else {
        if pp != [] {
          var last := |pp| - 1;
          if !pp[last].seenElse {
            pp := pp[last := pp[last].(seenElse := true)];
            pp := pp[last := pp[last].(beforeElse := stack)];
          }
          stack := pp[last].beforeIf;
        }
      } else if directive == Endif {
        if pp != [] {
          var last := |pp| - 1;
          if pp[last].seenElse {
            stack := pp[last].beforeElse;
          }
          pp := pp[..last];
        }
      }
    }

    method Update(line: Line, braces: Braces<B>)
      modifies this
      ensures Abstract() == UpdateState(braces, line, old(Abstract()))
    {
      UpdatePreprocessor(line);
      stack := braces(line, stack);
    }

    /** Processes the lines of a file in turn. */
    method UpdateAll(lines: seq<Line>, braces: Braces<B>)
      modifies this
      ensures Abstract() == Run(braces, lines, old(Abstract()))
    {
      for i := 0 to |lines|
        invariant Run(braces, lines[i..], Abstract()) == Run(braces, lines, old(Abstract()))
      {
        assert lines[i..][1..] == lines[i + 1..];
        Update(lines[i], braces);
      }
    }
  }

  function Run<B>(braces: Braces<B>, lines: seq<Line>, s: State<B>): State<B> {
    if lines == [] then s else Run(braces, lines[1..], UpdateState(braces, lines[0], s))
  }

  // ---- Erasing every #else and #elif branch.

  /** For each open #if, innermost last, whether one of its #else or #elif lines has been passed. */
  function Seen(line: Line, seen: seq<bool>): seq<bool> {
    match DirectiveOf(line)
    case If => seen + [false]
    case Else => if seen == [] then seen else seen[|seen| - 1 := true]
    case Endif => if seen == [] then seen else seen[..|seen| - 1]
    case Other => seen
  }

  function SeenAfter(lines: seq<Line>, seen: seq<bool>): seq<bool> {
    if lines == [] then seen else SeenAfter(lines[1..], Seen(lines[0], seen))
  }

  /** Outside every #else and #elif branch. */
  predicate Live(seen: seq<bool>) {
    forall i | 0 <= i < |seen| :: !seen[i]
  }

  /** The program without its #else and #elif branches. */
  function Erased(lines: seq<Line>, seen: seq<bool>): seq<Line> {
    if lines == [] then [] else
    var now := Seen(lines[0], seen);
    (if Live(now) then [lines[0]] else []) + Erased(lines[1..], now)
  }

  /** The stack after the given lines when directives are ignored. */
  function Fold<B>(braces: Braces<B>, lines: seq<Line>, stack: seq<B>): seq<B> {
    if lines == [] then stack else Fold(braces, lines[1..], braces(lines[0], stack))
  }

  /** `kept` is the stack of the erased program: the current one, or the one saved at the first #else. */
  ghost predicate Tracks<B>(s: State<B>, seen: seq<bool>, kept: seq<B>) {
    && |s.pp| == |seen|
    && (forall i | 0 <= i < |seen| :: s.pp[i].seenElse == seen[i])
    && (Live(seen) ==> s.stack == kept)
    && (forall i | 0 <= i < |seen| && seen[i] && Live(seen[..i]) :: s.pp[i].beforeElse == kept)
  }

  /** `braces` works on the current stack, which is the kept one exactly while it counts. */
  lemma BracesTrack<B>(braces: Braces<B>, line: Line, t: State<B>, now: seq<bool>, kept: seq<B>)
    requires Tracks(t, now, kept)
    ensures Tracks(t.(stack := braces(line, t.stack)), now, if Live(now) then braces(line, kept) else kept)
  {
    if Live(now) {
      assert forall i | 0 <= i < |now| :: !now[i];
    }
  }

  lemma IfTracks<B>(line: Line, s: State<B>, seen: seq<bool>, kept: seq<B>)
    requires Tracks(s, seen, kept) && DirectiveOf(line) == If
    ensures Tracks(Preprocess(line, s), Seen(line, seen), kept)
  {
    hide DirectiveOf;
    var now := Seen(line, seen);
    assert now[..|seen|] == seen;
    assert forall i | 0 <= i <= |seen| :: now[..i] == seen[..i];
  }

  lemma ElseTracks<B>(line: Line, s: State<B>, seen: seq<bool>, kept: seq<B>)
    requires Tracks(s, seen, kept) && DirectiveOf(line) == Else
    ensures Tracks(Preprocess(line, s), Seen(line, seen), kept)
  {
    hide DirectiveOf;
    if seen != [] {
      var now, last := Seen(line, seen), |seen| - 1;
      assert forall i | 0 <= i <= last :: now[..i] == seen[..i];
      assert now[last];
      LiveSnoc(seen);
    }
  }

  lemma EndifTracks<B>(line: Line, s: State<B>, seen: seq<bool>, kept: seq<B>)
    requires Tracks(s, seen, kept) && DirectiveOf(line) == Endif
    ensures Tracks(Preprocess(line, s), Seen(line, seen), kept)
  {
    hide DirectiveOf;
    if seen != [] {
      var now, last := Seen(line, seen), |seen| - 1;
      assert forall i | 0 <= i <= last :: now[..i] == seen[..i];
      LiveSnoc(seen);
    }
  }

  lemma LiveSnoc(seen: seq<bool>)
    requires seen != []
    ensures Live(seen) <==> Live(seen[..|seen| - 1]) && !seen[|seen| - 1]
  {
    assert forall i | 0 <= i < |seen| - 1 :: seen[..|seen| - 1][i] == seen[i];
  }

  lemma StepTracks<B>(braces: Braces<B>, line: Line, s: State<B>, seen: seq<bool>, kept: seq<B>)
    requires Tracks(s, seen, kept)
    ensures var now := Seen(line, seen);
            Tracks(UpdateState(braces, line, s), now, if Live(now) then braces(line, kept) else kept)
  {
    hide DirectiveOf, Tracks, Live;
    match DirectiveOf(line) {
      case If => IfTracks(line, s, seen, kept);
      case Else => ElseTracks(line, s, seen, kept);
      case Endif => EndifTracks(line, s, seen, kept);
      case Other =>
    }
    BracesTrack(braces, line, Preprocess(line, s), Seen(line, seen), kept);
  }

  lemma {:induction false} RunTracks<B>(
      braces: Braces<B>, lines: seq<Line>, s: State<B>, seen: seq<bool>, kept: seq<B>)
    requires Tracks(s, seen, kept)
    ensures Tracks(Run(braces, lines, s), SeenAfter(lines, seen), Fold(braces, Erased(lines, seen), kept))
    decreases lines
  {
    if lines != [] {
      var now := Seen(lines[0], seen);
      StepTracks(braces, lines[0], s, seen, kept);
      RunTracks(braces, lines[1..], UpdateState(braces, lines[0], s), now,
                if Live(now) then braces(lines[0], kept) else kept);
      LeftUnit(Erased(lines[1..], now));
      assert ([lines[0]] + Erased(lines[1..], now))[1..] == Erased(lines[1..], now);
    }
  }

  /**
    Whatever the lines do to the brace stack: once every #else has met its #endif, the stack is that of
    the lines outside the #else and #elif branches.
   */
  lemma ElseBranchesDoNotCount<B>(braces: Braces<B>, lines: seq<Line>)
    requires Live(SeenAfter(lines, []))
    ensures Run(braces, lines, State([], [])).stack == Fold(braces, Erased(lines, []), [])
  {
    RunTracks(braces, lines, State([], []), [], []);
  }

  /** What the erased program has seen: the same open #ifs, up to the first one that is in its #else. */
  ghost predicate SeenErased(seen: seq<bool>, after: seq<bool>) {
    && Live(after)
    && |after| <= |seen|
    && (forall i | 0 <= i < |after| - 1 :: !seen[i])
    && (if Live(seen) then |after| == |seen| else |after| > 0 && seen[|after| - 1])
  }

  lemma {:induction false} ErasedTwice(lines: seq<Line>, seen: seq<bool>, after: seq<bool>)
    requires SeenErased(seen, after)
    ensures Erased(Erased(lines, seen), after) == Erased(lines, seen)
    ensures SeenErased(SeenAfter(lines, seen), SeenAfter(Erased(lines, seen), after))
    decreases lines
  {
    if lines != [] {
      var now := Seen(lines[0], seen);
      var rest := Erased(lines[1..], now);
      if Live(now) {
        SeenErasedLive(lines[0], seen, after);
        ErasedTwice(lines[1..], now, Seen(lines[0], after));
        assert ([lines[0]] + rest)[1..] == rest;
      } else {
        SeenErasedDead(lines[0], seen, after);
        ErasedTwice(lines[1..], now, after);
        LeftUnit(rest);
      }
    }
  }

  lemma OnlyEndifRevives(line: Line, seen: seq<bool>)
    ensures !Live(seen) && DirectiveOf(line) != Endif ==> !Live(Seen(line, seen))
    ensures seen != [] && DirectiveOf(line) == Else ==> !Live(Seen(line, seen))
  {
    var now := Seen(line, seen);
    if !Live(seen) && DirectiveOf(line) != Endif {
      var i :| 0 <= i < |seen| && seen[i];
      assert now[i];
    }
    if seen != [] && DirectiveOf(line) == Else {
      assert now[|seen| - 1];
    }
  }

  lemma SeenErasedLive(line: Line, seen: seq<bool>, after: seq<bool>)
    requires SeenErased(seen, after) && Live(Seen(line, seen))
    ensures SeenErased(Seen(line, seen), Seen(line, after))
  {
    var now, next := Seen(line, seen), Seen(line, after);
    OnlyEndifRevives(line, seen);
    if !Live(seen) {
      // The line is the #endif of the only #if that is in its #else.
      assert forall i | 0 <= i < |seen| - 1 :: !now[i] && now[i] == seen[i];
      assert |after| == |seen|;
    }
  }

  lemma SeenErasedDead(line: Line, seen: seq<bool>, after: seq<bool>)
    requires SeenErased(seen, after) && !Live(Seen(line, seen))
    ensures SeenErased(Seen(line, seen), after)
  {
    var now := Seen(line, seen);
    if Live(seen) {
      assert DirectiveOf(line) == Else;
    } else {
      var i :| 0 <= i < |now| && now[i];
      if DirectiveOf(line) == Endif && |after| == |seen| {
        assert seen[i];
      }
    }
  }

  /** Removing every #else and #elif branch from a file changes neither final stack. */
  lemma ErasingKeepsState<B>(braces: Braces<B>, lines: seq<Line>)
    requires SeenAfter(lines, []) == []
    ensures Run(braces, lines, State([], [])) == Run(braces, Erased(lines, []), State([], []))
    ensures Run(braces, lines, State([], [])).pp == []
  {
    var erased := Erased(lines, []);
    ErasedTwice(lines, [], []);
    RunTracks(braces, lines, State([], []), [], []);
    RunTracks(braces, erased, State([], []), [], []);
  }

  // ---- Inside a conditional.

  /**
    Number of open #ifs after `lines`, starting from `depth` of them; `None` when an #endif would leave
    fewer than `floor`, or an #else has no #if.
   */
  function Depth(lines: seq<Line>, depth: nat, floor: nat): Option<nat> {
    if lines == [] then Some(depth) else
    match DirectiveOf(lines[0])
    case If => Depth(lines[1..], depth + 1, floor)
    case Else => if depth == 0 then None else Depth(lines[1..], depth, floor)
    case Endif => if depth <= floor || depth == 0 then None else Depth(lines[1..], depth - 1, floor)
    case Other => Depth(lines[1..], depth, floor)
  }

  /** Lines that stay inside the innermost `floor` conditionals leave what encloses them alone. */
  lemma {:induction false} Encloses<B>(braces: Braces<B>, lines: seq<Line>, s: State<B>, depth: nat, floor: nat)
    requires floor <= depth <= |s.pp| && Depth(lines, depth, floor).Some?
    ensures var t := Run(braces, lines, s);
            var base := |s.pp| - depth;
            && |t.pp| == base + Depth(lines, depth, floor).value
            && Depth(lines, depth, floor).value >= floor
            && t.pp[..base] == s.pp[..base]
            && forall i | base <= i < base + floor :: t.pp[i].beforeIf == s.pp[i].beforeIf
    decreases lines
  {
    if lines != [] {
      var now := UpdateState(braces, lines[0], s);
      var base := |s.pp| - depth;
      assert now.pp[..base] == s.pp[..base] by {
        assert forall i | 0 <= i < base :: now.pp[i] == s.pp[i];
      }
      Encloses(braces, lines[1..], now, |now.pp| - base, floor);
    }
  }

  /** Balanced lines leave the preprocessor stack as they found it, at any depth. */
  lemma BalancedRestoresPreprocessorStack<B>(braces: Braces<B>, lines: seq<Line>, s: State<B>)
    requires Depth(lines, 0, 0) == Some(0)
    ensures Run(braces, lines, s).pp == s.pp
  {
    Encloses(braces, lines, s, 0, 0);
    assert s.pp[..|s.pp|] == s.pp;
    var t := Run(braces, lines, s);
    assert t.pp[..|t.pp|] == t.pp;
  }

  lemma {:induction false} RunConcat<B>(braces: Braces<B>, a: seq<Line>, b: seq<Line>, s: State<B>)
    ensures Run(braces, a + b, s) == Run(braces, b, Run(braces, a, s))
    decreases a
  {
    if a == [] {
      LeftUnit(b);
    } else {
      assert (a + b)[0] == a[0] && (a + b)[1..] == a[1..] + b;
      RunConcat(braces, a[1..], b, UpdateState(braces, a[0], s));
    }
  }

  /** Every #else or #elif branch starts from the stack that its #if has found. */
  lemma ElseStartsAtIf<B>(braces: Braces<B>, ifLine: Line, body: seq<Line>, elseLine: Line, s: State<B>)
    requires DirectiveOf(ifLine) == If && DirectiveOf(elseLine) == Else
    requires Depth(body, 1, 1) == Some(1)
    ensures Run(braces, [ifLine] + body + [elseLine], s).stack == braces(elseLine, s.stack)
  {
    var s1 := UpdateState(braces, ifLine, s);
    var s2 := Run(braces, body, s1);
    Encloses(braces, body, s1, 1, 1);
    assert s1.pp[|s.pp|].beforeIf == s.stack && |s2.pp| == |s.pp| + 1;
    RunConcat(braces, [ifLine] + body, [elseLine], s);
    RunConcat(braces, [ifLine], body, s);
    assert Run(braces, [ifLine], s) == s1;
    assert Run(braces, [elseLine], s2) == UpdateState(braces, elseLine, s2);
  }
}
