/**
  Text with template brackets: a grammar that does not mention stacks, and a scanner of masked text that is
  proved to recognise it. In masked text every '<' may open a template argument list and every '>' may close
  one; '!' is the second half of `<<`, which takes back an open '<'.
 */
module TemplateText {
  import opened Sequences
  import opened Brackets

  // ---- The grammar.

  /** Characters that change nothing, directly inside of `< >` or not. */
  predicate Neutral(c: char, angle: bool) {
    !Opener(c) && !Closer(c) && c != '<' && (angle ==> c != '>' && c != '!' && c != ';')
  }

  /** Text directly inside of `< >`, or of the other brackets, in which every open '<' is settled. */
  ghost predicate Level(u: string, angle: bool)
    decreases |u|, 1
  {
    || u == ""
    || (Neutral(u[0], angle) && Level(u[1..], angle))
    || (exists k | 0 < k < |u| :: Item(u, k, angle) && Level(u[k + 1..], angle))
  }

  /** A group; or a '<' that is taken back; or, outside of `< >`, signs less-than up to a ';'. */
  ghost predicate Item(u: string, k: nat, angle: bool)
    requires 0 < k < |u|
    decreases |u|, 0
  {
    || GroupTo(u, k)
    || (u[0] == '<' && u[k] == '!' && Level(u[1..k], true))
    || (!angle && u[0] == '<' && u[k] == ';' && Dangling(u[..k]))
  }

  /** `u` starts with a group that ends at `k`: template arguments, or a bracketed text. */
  ghost predicate GroupTo(u: string, k: nat)
    requires 0 < k < |u|
    decreases k, 2
  {
    if u[0] == '<' then u[k] == '>' && Level(u[1..k], true)
    else Opener(u[0]) && u[k] == Swap(u[0]) && Inside(u[1..k])
  }

  /** Text between '(' and ')': at its end there may be signs less-than. */
  ghost predicate Inside(u: string)
    decreases |u|, 3
  {
    exists m | 0 <= m <= |u| :: InsideAt(u, m)
  }

  ghost predicate InsideAt(u: string, m: nat)
    requires m <= |u|
    decreases |u|, 2
  {
    Level(u[..m], false) && Dangling(u[m..])
  }

  /** Every '<' of this text that is not in an item is a sign less-than. */
  ghost predicate Dangling(u: string)
    decreases |u|, 1
  {
    u == "" || (u[0] == '<' && exists k | 1 <= k <= |u| :: DanglingAt(u, k))
  }

  ghost predicate DanglingAt(u: string, k: nat)
    requires 1 <= k <= |u|
    decreases |u|, 0
  {
    Level(u[1..k], true) && Dangling(u[k..])
  }

  /** A whole text that is one group. */
  ghost predicate Group(u: string) {
    |u| >= 2 && GroupTo(u, |u| - 1)
  }

  // ---- The scanner.

  predicate Angle(stack: seq<char>) {
    stack != [] && stack[|stack| - 1] == '<'
  }

  /** From the first character of a masked text, with `stack` open. */
  function ScanAngles(t: string, stack: seq<char>): (r: Scan)
    ensures r.Found? ==> 1 <= r.count <= |t|
    decreases t
  {
    if t == "" then Open(stack) else
    var c := t[0];
    if Opener(c) || c == '<' then Later(1, ScanAngles(t[1..], stack + [c]))
    else if Closer(c) then
      var st := PopAll(stack, '<');
      if st == [] || st[|st| - 1] != Swap(c) then Failed
      else if |st| == 1 then Found(1)
      else Later(1, ScanAngles(t[1..], st[..|st| - 1]))
    else if c == '>' && Angle(stack) then
      if |stack| == 1 then Found(1) else Later(1, ScanAngles(t[1..], stack[..|stack| - 1]))
    else if c == '!' && Angle(stack) then
      if |stack| == 1 then Failed else Later(1, ScanAngles(t[1..], stack[..|stack| - 1]))
    else if c == ';' then
      var st := PopAll(stack, '<');
      if st == [] then Failed else Later(1, ScanAngles(t[1..], st))
    else Later(1, ScanAngles(t[1..], stack))
  }

  // ---- Groups are found.

  predicate EndsAngles(t: string) {
    t != "" && (Closer(t[0]) || t[0] == ';')
  }

  lemma PushScans(c: char, t: string, stack: seq<char>)
    requires Opener(c) || c == '<'
    ensures ScanAngles([c] + t, stack) == Later(1, ScanAngles(t, stack + [c]))
    ensures stack + [c] != [] && (Angle(stack + [c]) <==> c == '<')
  {
    assert ([c] + t)[1..] == t;
  }

  lemma DropsTop(t: string, stack: seq<char>)
    requires EndsAngles(t) && stack != []
    ensures ScanAngles(t, stack + ['<']) == ScanAngles(t, stack)
  {
    assert (stack + ['<'])[..|stack|] == stack;
    assert PopAll(stack + ['<'], '<') == PopAll(stack, '<');
  }

  lemma {:induction false} LevelScans(u: string, angle: bool, t: string, stack: seq<char>)
    requires Level(u, angle) && stack != [] && Angle(stack) == angle
    ensures ScanAngles(u + t, stack) == Later(|u|, ScanAngles(t, stack))
    decreases |u|, 1
  {
    hide Item;
    if u == "" {
      LeftUnit(t);
    } else if Neutral(u[0], angle) && Level(u[1..], angle) {
      TailOfConcat(u, t);
      LevelScans(u[1..], angle, t, stack);
      NeutralScans(u + t, stack);
    } else {
      var k :| 0 < k < |u| && Item(u, k, angle) && Level(u[k + 1..], angle);
      CutAt(u, k, t);
      ItemScans(u, k, angle, u[k + 1..] + t, stack);
      LevelScans(u[k + 1..], angle, t, stack);
    }
  }

  lemma CutAt(u: string, k: nat, t: string)
    requires k < |u|
    ensures u + t == u[..k + 1] + (u[k + 1..] + t)
  {
  }

  lemma NeutralScans(t: string, stack: seq<char>)
    requires t != "" && stack != [] && Neutral(t[0], Angle(stack))
    ensures ScanAngles(t, stack) == Later(1, ScanAngles(t[1..], if t[0] == ';' then PopAll(stack, '<') else stack))
    ensures t[0] == ';' ==> PopAll(stack, '<') == stack
  {
  }

  lemma Ends(u: string, k: nat, t: string)
    requires 0 < k < |u|
    ensures u[..k + 1] + t == [u[0]] + (u[1..k] + ([u[k]] + t))
    ensures u[..k + 1] + t == u[..k] + ([u[k]] + t)
  {
  }

  lemma {:induction false} ItemScans(u: string, k: nat, angle: bool, t: string, stack: seq<char>)
    requires 0 < k < |u| && Item(u, k, angle) && stack != [] && Angle(stack) == angle
    ensures ScanAngles(u[..k + 1] + t, stack) == Later(k + 1, ScanAngles(t, stack))
    decreases |u|, 0
  {
    hide Level, Dangling, Inside;
    var rest := [u[k]] + t;
    assert rest[1..] == t && (stack + [u[0]])[..|stack|] == stack;
    Ends(u, k, t);
    if u[0] == '<' && u[k] == ';' && !angle {
      DanglingScans(u[..k], rest, stack);
      NeutralScans(rest, stack);
    } else {
      PushScans(u[0], u[1..k] + rest, stack);
      if u[0] == '<' {
        LevelScans(u[1..k], true, rest, stack + ['<']);
      } else {
        InsideScans(u[1..k], rest, stack + [u[0]]);
        NothingToPop(stack + [u[0]]);
        SwapTwice(u[0]);
      }
    }
  }

  lemma NothingToPop(stack: seq<char>)
    requires stack != [] && !Angle(stack)
    ensures PopAll(stack, '<') == stack
  {
  }

  lemma {:induction false} InsideScans(u: string, t: string, stack: seq<char>)
    requires Inside(u) && stack != [] && !Angle(stack) && EndsAngles(t)
    ensures ScanAngles(u + t, stack) == Later(|u|, ScanAngles(t, stack))
    decreases |u|, 3
  {
    var m :| 0 <= m <= |u| && InsideAt(u, m);
    hide Level, Dangling, ScanAngles;
    HeadTailAt(u, m);
    Assoc(u[..m], u[m..], t);
    LevelScans(u[..m], false, u[m..] + t, stack);
    DanglingScans(u[m..], t, stack);
  }

  lemma {:induction false} DanglingScans(u: string, t: string, stack: seq<char>)
    requires Dangling(u) && stack != [] && EndsAngles(t)
    ensures ScanAngles(u + t, stack) == Later(|u|, ScanAngles(t, stack))
    decreases |u|, 1
  {
    if u == "" {
      LeftUnit(t);
    } else {
      var k :| 1 <= k <= |u| && DanglingAt(u, k);
      hide Level, Dangling, ScanAngles;
      DanglingCut(u, k, t);
      PushScans('<', u[1..k] + (u[k..] + t), stack);
      LevelScans(u[1..k], true, u[k..] + t, stack + ['<']);
      DanglingScans(u[k..], t, stack + ['<']);
      DropsTop(t, stack);
    }
  }

  lemma DanglingCut(u: string, k: nat, t: string)
    requires 1 <= k <= |u|
    ensures u + t == [u[0]] + (u[1..k] + (u[k..] + t))
  {
  }

  // ---- What is found is a group.

  /** A unit of a level: a neutral character or an item. */
  ghost predicate Unit(v: string, angle: bool) {
    (|v| == 1 && Neutral(v[0], angle)) || (|v| >= 2 && Item(v, |v| - 1, angle))
  }

  lemma ItemOfPrefix(u: string, k: nat, angle: bool)
    requires 0 < k < |u|
    ensures Item(u, k, angle) <==> Item(u[..k + 1], k, angle)
  {
    var v := u[..k + 1];
    assert v[1..k] == u[1..k] && v[..k] == u[..k];
    hide Level, Dangling, Inside;
  }

  lemma UnitThenLevel(v: string, u: string, angle: bool)
    requires Unit(v, angle) && Level(u, angle)
    ensures Level(v + u, angle)
  {
    var w := v + u;
    assert w[..|v|] == v && w[|v|..] == u && w[0] == v[0];
    if |v| >= 2 {
      ItemOfPrefix(w, |v| - 1, angle);
      assert Item(w, |v| - 1, angle);
    }
    hide Item;
  }

  /** `u` settles every bracket of `stack`, the last one first. */
  ghost predicate Closes(u: string, stack: seq<char>)
    requires stack != []
    decreases |stack|, 1
  {
    exists k, m | 0 <= k <= m < |u| :: ClosesAt(u, stack, k, m)
  }

  /** The last one: up to `k` the text of its level, up to `m` signs less-than, and then its end. */
  ghost predicate ClosesAt(u: string, stack: seq<char>, k: nat, m: nat)
    requires stack != [] && k <= m < |u|
    decreases |stack|, 0
  {
    var front := stack[..|stack| - 1];
    && Level(u[..k], Angle(stack))
    && Dangling(u[k..m])
    && if !Angle(stack) then u[m] == Swap(stack[|stack| - 1]) && ClosesRest(u[m + 1..], front)
       else if u[m] == '>' then k == m && ClosesRest(u[m + 1..], front)
       else if u[m] == '!' then k == m && front != [] && Closes(u[m + 1..], front)
       else EndsAngles(u[m..]) && front != [] && Closes(u[m..], front)
  }

  ghost predicate ClosesRest(u: string, front: seq<char>)
    decreases |front|, 2
  {
    if front == [] then u == "" else Closes(u, front)
  }

  predicate AllOpen(stack: seq<char>) {
    forall i | 0 <= i < |stack| :: Opener(stack[i]) || stack[i] == '<'
  }

  lemma NothingIsLevel(angle: bool)
    ensures Level("", angle) && Dangling("")
  {
  }

  lemma LaterSlices(v: string, u: string, k: nat, m: nat)
    requires k <= m < |u|
    ensures var w := v + u;
            && w[..|v| + k] == v + u[..k] && w[|v| + k..|v| + m] == u[k..m] && w[|v| + m] == u[m]
            && w[|v| + m..] == u[m..] && w[|v| + m + 1..] == u[m + 1..]
  {
  }

  /** A unit before a text that settles the stack. */
  lemma UnitBefore(v: string, u: string, stack: seq<char>)
    requires stack != [] && Closes(u, stack) && Unit(v, Angle(stack))
    ensures Closes(v + u, stack)
  {
    var k, m :| 0 <= k <= m < |u| && ClosesAt(u, stack, k, m);
    LaterSlices(v, u, k, m);
    UnitThenLevel(v, u[..k], Angle(stack));
    hide Level, Dangling, Closes;
    assert ClosesAt(v + u, stack, |v| + k, |v| + m);
    SomeClose(v + u, stack, |v| + k, |v| + m);
  }

  lemma SomeClose(u: string, stack: seq<char>, k: nat, m: nat)
    requires stack != [] && k <= m < |u| && ClosesAt(u, stack, k, m)
    ensures Closes(u, stack)
  {
  }

  lemma ItemStarts(u: string, k: nat, angle: bool)
    requires 0 < k < |u| && Item(u, k, angle)
    ensures Opener(u[0]) || u[0] == '<'
  {
    hide Level, Dangling, Inside;
  }

  lemma LevelStarts(u: string, angle: bool)
    requires u != "" && Level(u, angle)
    ensures (Neutral(u[0], angle) && Level(u[1..], angle)) || Opener(u[0]) || u[0] == '<'
  {
    hide Item;
    if !(Neutral(u[0], angle) && Level(u[1..], angle)) {
      var k :| 0 < k < |u| && Item(u, k, angle) && Level(u[k + 1..], angle);
      ItemStarts(u, k, angle);
    }
  }

  /** Text that starts with a closing bracket or ';' is at the end of its `< >` level. */
  lemma EndStartsNothing(u: string, k: nat, angle: bool)
    requires EndsAngles(u) && k <= |u|
    ensures Dangling(u[..k]) ==> k == 0
    ensures Level(u[..k], angle) && k > 0 ==> !angle && u[0] == ';' && Level(u[1..k], angle)
  {
    if k > 0 {
      assert u[..k][0] == u[0] && u[..k][1..] == u[1..k];
      if Level(u[..k], angle) {
        LevelStarts(u[..k], angle);
      }
    }
  }

  /** Signs less-than before a text that ends the `< >` level and settles the stack. */
  lemma DanglingBefore(d: string, u: string, stack: seq<char>)
    requires stack != [] && Dangling(d) && EndsAngles(u) && Closes(u, stack)
    ensures Closes(d + u, stack)
  {
    var k, m :| 0 <= k <= m < |u| && ClosesAt(u, stack, k, m);
    if d == "" {
      LeftUnit(u);
    } else if k == 0 {
      LaterSlices(d, u, 0, m);
      EndStartsNothing(u, m, false);
      NothingIsLevel(Angle(stack));
      assert u[0..m] == u[..m] && (d + u)[0..|d|] == d && u[0..] == u;
      hide Level, Dangling, Closes;
      assert ClosesAt(d + u, stack, 0, |d|);
      SomeClose(d + u, stack, 0, |d|);
    } else {
      EndStartsNothing(u, k, Angle(stack));
      LaterSlices(d, u, k, m);
      var v := d + [';'];
      assert v[..|d|] == d;
      assert Unit(v, false);
      UnitThenLevel(v, u[1..k], false);
      assert d + u[..k] == v + u[1..k];
      hide Level, Dangling, Closes;
      assert ClosesAt(d + u, stack, |d| + k, |d| + m);
      SomeClose(d + u, stack, |d| + k, |d| + m);
    }
  }

  /** What it takes to settle one more bracket. */
  lemma SettlesTop(c: char, u: string, stack: seq<char>, k: nat, m: nat)
    requires k <= m < |u| && ClosesAt(u, stack + [c], k, m)
    ensures Level(u[..k], c == '<') && Dangling(u[k..m])
    ensures c != '<' ==> u[m] == Swap(c) && ClosesRest(u[m + 1..], stack)
    ensures c == '<' && (u[m] == '>' || u[m] == '!') ==> k == m && ClosesRest(u[m + 1..], stack)
    ensures c == '<' && u[m] != '>' && u[m] != '!' ==> EndsAngles(u[m..]) && ClosesRest(u[m..], stack)
    ensures c == '<' && u[m] != '>' ==> stack != []
  {
    var both := stack + [c];
    assert both[..|both| - 1] == stack && both[|both| - 1] == c;
    hide Level, Dangling, Closes;
  }

  /** The bracket, the text that settles it, and its end are an item. */
  lemma SettledIsItem(c: char, u: string, k: nat, m: nat, angle: bool)
    requires (Opener(c) || c == '<') && k <= m < |u| && Level(u[..k], c == '<') && Dangling(u[k..m])
    requires if c == '<' then k == m && (u[m] == '>' || u[m] == '!') else u[m] == Swap(c)
    ensures Item([c] + u[..m + 1], m + 1, angle)
  {
    var v := [c] + u[..m + 1];
    assert v[1..m + 1] == u[..m] && v[m + 1] == u[m];
    hide Level, Dangling;
    if c != '<' {
      assert u[..m][..k] == u[..k] && u[..m][k..] == u[k..m];
      assert InsideAt(v[1..m + 1], k);
    }
    assert GroupTo(v, m + 1) || (c == '<' && u[m] == '!');
  }

  lemma DanglingCons(u: string, k: nat, m: nat)
    requires k <= m < |u| && Level(u[..k], true) && Dangling(u[k..m])
    ensures Dangling(['<'] + u[..m])
  {
    var d := ['<'] + u[..m];
    assert d[1..k + 1] == u[..k] && d[k + 1..] == u[k..m];
    hide Level;
    assert DanglingAt(d, k + 1);
  }

  /** An opening bracket before a text that settles it and then the stack. */
  lemma OpenBefore(c: char, u: string, stack: seq<char>)
    requires stack != [] && (Opener(c) || c == '<') && Closes(u, stack + [c])
    ensures Closes([c] + u, stack)
  {
    var k, m :| 0 <= k <= m < |u| && ClosesAt(u, stack + [c], k, m);
    hide Closes, ClosesAt, Level, Dangling, Item;
    SettlesTop(c, u, stack, k, m);
    if c == '<' && u[m] != '>' && u[m] != '!' {
      DanglingCons(u, k, m);
      HeadTailAt(u, m);
      Assoc([c], u[..m], u[m..]);
      DanglingBefore([c] + u[..m], u[m..], stack);
    } else {
      SettledIsItem(c, u, k, m, Angle(stack));
      HeadTailAt(u, m + 1);
      Assoc([c], u[..m + 1], u[m + 1..]);
      UnitBefore([c] + u[..m + 1], u[m + 1..], stack);
    }
  }

  /** Open '<' on top of the stack are dropped at a closing bracket or ';'. */
  lemma {:induction false} AnglesDropped(u: string, stack: seq<char>)
    requires EndsAngles(u) && PopAll(stack, '<') != [] && Closes(u, PopAll(stack, '<'))
    ensures Closes(u, stack)
    decreases |stack|
  {
    hide Closes;
    if Angle(stack) {
      AnglesDropped(u, stack[..|stack| - 1]);
      NothingIsLevel(true);
      assert u[..0] == "" && u[0..0] == "" && u[0..] == u;
      assert ClosesAt(u, stack, 0, 0);
      SomeClose(u, stack, 0, 0);
    }
  }

  lemma ClosesAtOnce(u: string, stack: seq<char>)
    requires stack != [] && u != "" && ClosesRest(u[1..], stack[..|stack| - 1])
    requires if Angle(stack) then u[0] == '>' || (u[0] == '!' && |stack| > 1) else u[0] == Swap(stack[|stack| - 1])
    ensures Closes(u, stack)
  {
    NothingIsLevel(Angle(stack));
    assert u[..0] == "" && u[0..0] == "";
    hide Level, Dangling;
    assert ClosesAt(u, stack, 0, 0);
  }

  lemma AllOpenPops(stack: seq<char>)
    requires AllOpen(stack)
    ensures AllOpen(PopAll(stack, '<'))
    ensures PopAll(stack, '<') != [] ==> !Angle(PopAll(stack, '<'))
  {
    assert stack != [] && !Angle(stack) ==> PopAll(stack, '<') == stack;
    if Angle(stack) {
      AllOpenPops(stack[..|stack| - 1]);
    }
  }

  lemma {:induction false} FoundCloses(t: string, stack: seq<char>)
    requires stack != [] && AllOpen(stack) && ScanAngles(t, stack).Found?
    ensures Closes(t[..ScanAngles(t, stack).count], stack)
    decreases t
  {
    hide Closes, PopAll;
    var n := ScanAngles(t, stack).count;
    var c, u, after := t[0], t[..n], t[1..][..n - 1];
    Shift(t, n - 1);
    assert u[1..] == after && u == [c] + after;
    AllOpenPops(stack);
    var st := PopAll(stack, '<');
    if Opener(c) || c == '<' {
      FoundCloses(t[1..], stack + [c]);
      OpenBefore(c, after, stack);
    } else if Closer(c) {
      SwapTwice(st[|st| - 1]);
      if |st| > 1 {
        FoundCloses(t[1..], st[..|st| - 1]);
      }
      ClosesAtOnce(u, st);
      AnglesDropped(u, stack);
    } else if (c == '>' || c == '!') && Angle(stack) {
      if |stack| > 1 {
        FoundCloses(t[1..], stack[..|stack| - 1]);
      }
      ClosesAtOnce(u, stack);
    } else if c == ';' {
      FoundCloses(t[1..], st);
      UnitBefore([c], after, st);
      AnglesDropped(u, stack);
    } else {
      FoundCloses(t[1..], stack);
      UnitBefore([c], after, stack);
    }
  }

  // ---- Together.

  /** From the start of a group the scanner stops after exactly that group, and otherwise nowhere. */
  lemma ScanFindsGroup(t: string, n: nat)
    requires t != "" && (Opener(t[0]) || t[0] == '<')
    ensures ScanAngles(t, []) == Found(n) <==> n <= |t| && Group(t[..n])
  {
    assert [] + [t[0]] == [t[0]];
    if ScanAngles(t, []) == Found(n) {
      ScanIsSound(t, n);
    }
    if n <= |t| && Group(t[..n]) {
      ScanIsComplete(t, n);
    }
  }

  lemma ScanIsSound(t: string, n: nat)
    requires t != "" && (Opener(t[0]) || t[0] == '<') && n > 0 && ScanAngles(t[1..], [t[0]]) == Found(n - 1)
    ensures n <= |t| && Group(t[..n])
  {
    hide ScanAngles, Level, Dangling, ClosesAt;
    FoundCloses(t[1..], [t[0]]);
    var c, u := t[0], t[1..][..n - 1];
    LeftUnit([c]);
    var k, m :| 0 <= k <= m < |u| && ClosesAt(u, [] + [c], k, m);
    SettlesTop(c, u, [], k, m);
    assert u[..m + 1] == u;
    assert [c] + u == t[..n] by {
      HeadTailAt(t, 1);
    }
    SettledIsItem(c, u, k, m, true);
    GroupOfItem(t[..n]);
  }

  lemma GroupOfItem(u: string)
    requires |u| >= 2 && Item(u, |u| - 1, true) && u[|u| - 1] != '!'
    ensures Group(u)
  {
    hide Level, Inside;
  }

  lemma ScanIsComplete(t: string, n: nat)
    requires n <= |t| && Group(t[..n])
    ensures ScanAngles(t[1..], [t[0]]) == Found(n - 1)
  {
    var b, v := t[..n][1..n - 1], t[n - 1..];
    Inner(t, n);
    hide Level, Dangling, Inside;
    if t[0] == '<' {
      LevelScans(b, true, v, ['<']);
      assert ScanAngles(v, ['<']) == Found(1);
    } else {
      InsideScans(b, v, [t[0]]);
      NothingToPop([t[0]]);
      SwapTwice(t[0]);
      assert ScanAngles(v, [t[0]]) == Found(1);
    }
  }
}
