/** Properly nested text, and the two bracket scanners of `cpplint.py` as functions on flat text. */
module Brackets {
  import opened Sequences

  predicate Opener(c: char) {
    c == '(' || c == '[' || c == '{'
  }

  predicate Closer(c: char) {
    c == ')' || c == ']' || c == '}'
  }

  /** The bracket that matches `c`; other characters are their own mirror image. */
  function Swap(c: char): (d: char)
    ensures Opener(c) <==> Closer(d)
    ensures Closer(c) <==> Opener(d)
  {
    match c
    case '(' => ')'
    case ')' => '('
    case '[' => ']'
    case ']' => '['
    case '{' => '}'
    case '}' => '{'
    case _ => c
  }

  lemma SwapTwice(c: char)
    ensures Swap(Swap(c)) == c
  {
  }

  /** Text in which every bracket has its partner. */
  ghost predicate Balanced(u: string)
    decreases |u|
  {
    || u == ""
    || (!Opener(u[0]) && !Closer(u[0]) && Balanced(u[1..]))
    || (Opener(u[0]) && exists k | 0 < k < |u| :: IsGroup(u, k))
  }

  /** `u` starts with a bracketed group that ends at `k`. */
  ghost predicate IsGroup(u: string, k: nat)
    requires 0 < k < |u|
    decreases |u|, 0
  {
    u[k] == Swap(u[0]) && Balanced(u[1..k]) && Balanced(u[k + 1..])
  }

  /** An opening bracket, balanced text, and the closing bracket that matches. */
  ghost predicate Nested(u: string) {
    && |u| >= 2
    && Opener(u[0])
    && u[|u| - 1] == Swap(u[0])
    && Balanced(u[1..|u| - 1])
  }

  /** Without the brackets `c` on top. */
  function PopAll(stack: seq<char>, c: char): (r: seq<char>)
    ensures |r| <= |stack| && r == stack[..|r|]
  {
    if stack != [] && stack[|stack| - 1] == c then PopAll(stack[..|stack| - 1], c) else stack
  }

  /** Outcome of scanning a text: matched after `count` characters, hopeless, or still open. */
  datatype Scan = Found(count: nat) | Failed | Open(stack: seq<char>)

  function Later(n: nat, r: Scan): Scan {
    if r.Found? then Found(n + r.count) else r
  }

  /** `FindEndOfExpressionInLine` from the first character of `t`, on text without '<' and '>'. */
  function ScanForward(t: string, stack: seq<char>): (r: Scan)
    ensures r.Found? ==> 1 <= r.count <= |t|
    decreases t
  {
    if t == "" then Open(stack)
    else if Opener(t[0]) then Later(1, ScanForward(t[1..], stack + [t[0]]))
    else if Closer(t[0]) then
      if stack == [] || stack[|stack| - 1] != Swap(t[0]) then Failed
      else if |stack| == 1 then Found(1)
      else Later(1, ScanForward(t[1..], stack[..|stack| - 1]))
    else if t[0] == ';' && stack == [] then Failed
    else Later(1, ScanForward(t[1..], stack))
  }

  /** `FindStartOfExpressionInLine` from the last character of `t` backwards. */
  function ScanBackward(t: string, stack: seq<char>): (r: Scan)
    ensures r.Found? ==> 1 <= r.count <= |t|
    decreases t
  {
    if t == "" then Open(stack) else
    var c, rest := t[|t| - 1], t[..|t| - 1];
    if Closer(c) then Later(1, ScanBackward(rest, stack + [c]))
    else if Opener(c) then
      if stack == [] || stack[|stack| - 1] != Swap(c) then Failed
      else if |stack| == 1 then Found(1)
      else Later(1, ScanBackward(rest, stack[..|stack| - 1]))
    else if c == ';' && stack == [] then Failed
    else Later(1, ScanBackward(rest, stack))
  }

  // ---- The forward scanner recognises nested text.

  /** `u` closes every bracket of `stack`, the last one first, with balanced text between. */
  ghost predicate Closes(u: string, stack: seq<char>)
    requires stack != []
    decreases |stack|
  {
    exists m | 0 <= m < |u| :: ClosesAt(u, stack, m)
  }

  ghost predicate ClosesAt(u: string, stack: seq<char>, m: nat)
    requires stack != [] && m < |u|
    decreases |stack|, 0
  {
    && u[m] == Swap(stack[|stack| - 1])
    && Balanced(u[..m])
    && if |stack| == 1 then m + 1 == |u| else Closes(u[m + 1..], stack[..|stack| - 1])
  }

  predicate AllOpeners(stack: seq<char>) {
    forall i | 0 <= i < |stack| :: Opener(stack[i])
  }

  lemma {:induction false} FoundCloses(t: string, stack: seq<char>)
    requires stack != [] && AllOpeners(stack)
    requires ScanForward(t, stack).Found?
    ensures Closes(t[..ScanForward(t, stack).count], stack)
    decreases t
  {
    var n := ScanForward(t, stack).count;
    if Opener(t[0]) {
      FoundCloses(t[1..], stack + [t[0]]);
      GroupBefore(t[1..][..n - 1], stack, t[0]);
      Shift(t, n - 1);
    } else if Closer(t[0]) {
      if |stack| > 1 {
        FoundCloses(t[1..], stack[..|stack| - 1]);
        assert t[..n][1..] == t[1..][..n - 1];
      }
      assert Swap(stack[|stack| - 1]) == t[0];
      assert ClosesAt(t[..n], stack, 0);
    } else {
      FoundCloses(t[1..], stack);
      NeutralBefore(t[1..][..n - 1], stack, t[0]);
      Shift(t, n - 1);
    }
  }

  lemma NeutralBefore(u: string, stack: seq<char>, c: char)
    requires stack != [] && Closes(u, stack) && !Opener(c) && !Closer(c)
    ensures Closes([c] + u, stack)
  {
    var m :| 0 <= m < |u| && ClosesAt(u, stack, m);
    var v := [c] + u;
    ConsSlice(c, u, m);
    assert ClosesAt(v, stack, m + 1);
  }

  lemma GroupBefore(u: string, stack: seq<char>, c: char)
    requires stack != [] && Opener(c) && Closes(u, stack + [c])
    ensures Closes([c] + u, stack)
  {
    var both := stack + [c];
    var m :| 0 <= m < |u| && ClosesAt(u, both, m);
    assert both[..|both| - 1] == stack;
    var rest := u[m + 1..];
    assert Closes(rest, stack);
    var k :| 0 <= k < |rest| && ClosesAt(rest, stack, k);
    var v := [c] + u;
    ConsSlices(c, u, m, k);
    SwapTwice(c);
    assert IsGroup(v[..m + 2 + k], m + 1);
    assert ClosesAt(v, stack, m + 2 + k);
  }

  /** Scanning balanced text leaves an open stack as it was. */
  lemma {:induction false} BalancedIsNeutral(b: string, v: string, stack: seq<char>)
    requires Balanced(b) && stack != []
    ensures ScanForward(b + v, stack) == Later(|b|, ScanForward(v, stack))
    decreases |b|
  {
    if b == "" {
      assert b + v == v;
    } else if Opener(b[0]) {
      var k :| 0 < k < |b| && IsGroup(b, k);
      var inside, after := b[1..k], b[k + 1..];
      assert (b + v)[1..] == inside + ([b[k]] + (after + v));
      BalancedIsNeutral(inside, [b[k]] + (after + v), stack + [b[0]]);
      assert ([b[k]] + (after + v))[1..] == after + v;
      assert (stack + [b[0]])[..|stack|] == stack;
      BalancedIsNeutral(after, v, stack);
    } else {
      assert (b + v)[1..] == b[1..] + v;
      BalancedIsNeutral(b[1..], v, stack);
    }
  }

  /** From an opening bracket the scanner stops after exactly the nested text that starts there. */
  lemma ForwardFindsNested(t: string, n: nat)
    requires t != "" && Opener(t[0])
    ensures ScanForward(t, []) == Found(n) <==> n <= |t| && Nested(t[..n])
  {
    assert [] + [t[0]] == [t[0]];
    if ScanForward(t, []) == Found(n) {
      ForwardIsSound(t, n);
    }
    if n <= |t| && Nested(t[..n]) {
      ForwardIsComplete(t, n);
    }
  }

  lemma ForwardIsSound(t: string, n: nat)
    requires t != "" && Opener(t[0]) && n > 0 && ScanForward(t[1..], [t[0]]) == Found(n - 1)
    ensures n <= |t| && Nested(t[..n])
  {
    FoundCloses(t[1..], [t[0]]);
    hide ScanForward;
    var u := t[1..][..n - 1];
    var m :| 0 <= m < |u| && ClosesAt(u, [t[0]], m);
    Inner(t, n);
  }

  lemma ForwardIsComplete(t: string, n: nat)
    requires n <= |t| && Nested(t[..n])
    ensures ScanForward(t[1..], [t[0]]) == Found(n - 1)
  {
    var b, v := t[..n][1..n - 1], t[n - 1..];
    Inner(t, n);
    BalancedIsNeutral(b, v, [t[0]]);
    hide Balanced;
    SwapTwice(t[0]);
    assert ScanForward(v, [t[0]]) == Found(1);
  }

  // ---- The backward scanner is the forward scanner on the mirror image.

  function Mirror(u: string): string {
    seq(|u|, i requires 0 <= i < |u| => Swap(u[|u| - 1 - i]))
  }

  lemma MirrorConcat(a: string, b: string)
    ensures Mirror(a + b) == Mirror(b) + Mirror(a)
  {
  }

  lemma MirrorPrefix(t: string, n: nat)
    requires n <= |t|
    ensures Mirror(t)[..n] == Mirror(t[|t| - n..])
  {
  }

  lemma MirrorTwice(u: string)
    ensures Mirror(Mirror(u)) == u
  {
    forall i | 0 <= i < |u| ensures Mirror(Mirror(u))[i] == u[i] {
      SwapTwice(u[i]);
    }
  }

  function SwapAll(s: seq<char>): seq<char> {
    seq(|s|, i requires 0 <= i < |s| => Swap(s[i]))
  }

  lemma MirrorLast(t: string)
    requires t != ""
    ensures Mirror(t) != "" && Mirror(t)[0] == Swap(t[|t| - 1]) && Mirror(t)[1..] == Mirror(t[..|t| - 1])
  {
  }

  lemma SwapPush(stack: seq<char>, c: char)
    ensures SwapAll(stack + [c]) == SwapAll(stack) + [Swap(c)]
  {
  }

  lemma SwapFront(stack: seq<char>)
    requires stack != []
    ensures |SwapAll(stack)| == |stack| && SwapAll(stack)[|stack| - 1] == Swap(stack[|stack| - 1])
    ensures SwapAll(stack)[..|stack| - 1] == SwapAll(stack[..|stack| - 1])
  {
  }

  lemma NoSwaps()
    ensures SwapAll([]) == [] && Mirror("") == ""
  {
  }

  lemma {:induction false} BackwardIsMirrored(t: string, stack: seq<char>)
    ensures ScanForward(Mirror(t), SwapAll(stack))
         == match ScanBackward(t, stack) case Open(s) => Open(SwapAll(s)) case r => r
    decreases t
  {
    hide Mirror, SwapAll;
    NoSwaps();
    if t != "" {
      var c, rest := t[|t| - 1], t[..|t| - 1];
      MirrorLast(t);
      SwapTwice(c);
      if stack != [] {
        SwapFront(stack);
        SwapTwice(stack[|stack| - 1]);
      }
      if Closer(c) {
        BackwardIsMirrored(rest, stack + [c]);
        SwapPush(stack, c);
      } else if Opener(c) {
        if stack != [] && stack[|stack| - 1] == Swap(c) && |stack| > 1 {
          BackwardIsMirrored(rest, stack[..|stack| - 1]);
        }
      } else {
        BackwardIsMirrored(rest, stack);
      }
    }
  }

  lemma {:induction false} BalancedConcat(a: string, b: string)
    requires Balanced(a) && Balanced(b)
    ensures Balanced(a + b)
    decreases |a|
  {
    var u := a + b;
    if a == "" {
      assert u == b;
    } else if Opener(a[0]) {
      var k :| 0 < k < |a| && IsGroup(a, k);
      BalancedConcat(a[k + 1..], b);
      assert u[1..k] == a[1..k] && u[k + 1..] == a[k + 1..] + b;
      assert IsGroup(u, k);
    } else {
      BalancedConcat(a[1..], b);
      assert u[1..] == a[1..] + b;
    }
  }

  /** A bracketed group, on its own, is balanced. */
  lemma GroupIsBalanced(c: char, b: string)
    requires Opener(c) && Balanced(b)
    ensures Balanced([c] + b + [Swap(c)])
  {
    var u := [c] + b + [Swap(c)];
    assert u[1..|b| + 1] == b && u[|b| + 2..] == "";
    assert IsGroup(u, |b| + 1);
  }

  lemma MirrorGroup(u: string, k: nat)
    requires 0 < k < |u| && u[k] == Swap(u[0])
    ensures Mirror(u[..k + 1]) == [u[0]] + Mirror(u[1..k]) + [Swap(u[0])]
  {
    SwapTwice(u[0]);
  }

  lemma {:induction false} MirrorBalanced(u: string)
    requires Balanced(u)
    ensures Balanced(Mirror(u))
    decreases |u|
  {
    if u == "" {
    } else if Opener(u[0]) {
      var k :| 0 < k < |u| && IsGroup(u, k);
      MirrorBalanced(u[1..k]);
      MirrorBalanced(u[k + 1..]);
      var group := [u[0]] + Mirror(u[1..k]) + [Swap(u[0])];
      GroupIsBalanced(u[0], Mirror(u[1..k]));
      BalancedConcat(Mirror(u[k + 1..]), group);
      MirrorConcat(u[..k + 1], u[k + 1..]);
      HeadTailAt(u, k + 1);
      MirrorGroup(u, k);
    } else {
      MirrorBalanced(u[1..]);
      assert Balanced([u[0]]);
      BalancedConcat(Mirror(u[1..]), [u[0]]);
      MirrorConcat([u[0]], u[1..]);
      HeadTail(u);
      assert Swap(u[0]) == u[0];
      assert Mirror([u[0]]) == [Swap(u[0])];
    }
  }

  lemma MirrorNested(u: string)
    ensures Nested(Mirror(u)) <==> Nested(u)
  {
    if |u| >= 2 {
      var b := u[1..|u| - 1];
      var m := Mirror(u);
      assert m[1..|m| - 1] == Mirror(b);
      MirrorTwice(b);
      SwapTwice(u[0]);
      SwapTwice(u[|u| - 1]);
      if Balanced(b) {
        MirrorBalanced(b);
      }
      if Balanced(Mirror(b)) {
        MirrorBalanced(Mirror(b));
      }
    }
  }

  /** From a closing bracket the backward scanner stops at exactly the nested text that ends there. */
  lemma BackwardFindsNested(t: string, n: nat)
    requires t != "" && Closer(t[|t| - 1])
    ensures ScanBackward(t, []) == Found(n) <==> n <= |t| && Nested(t[|t| - n..])
  {
    NoSwaps();
    MirrorLast(t);
    BackwardIsMirrored(t, []);
    hide Mirror, Nested, ScanForward, ScanBackward;
    ForwardFindsNested(Mirror(t), n);
    if n <= |t| {
      MirrorPrefix(t, n);
      MirrorNested(t[|t| - n..]);
    }
  }
}
