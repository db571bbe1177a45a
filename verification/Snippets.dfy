/** Snippet selection of `nnet_language_identifier.cc`. */
module Snippets {
  import opened Arithmetic
  import opened Sequences
  import opened Utf8

  const NUM_SNIPPETS: nat := 5
  const BLANK: Bytes := [0x20]

  /** `num_snippets_` and `snippet_size_` as the constructor sets them. */
  function NumSnippets(maxNumBytes: nat): (n: nat)
    ensures n > 0
  {
    if maxNumBytes <= NUM_SNIPPETS then 1 else NUM_SNIPPETS
  }

  function SnippetSize(maxNumBytes: nat): nat {
    maxNumBytes / NumSnippets(maxNumBytes)
  }

  function NumSkipBytes(maxNumBytes: nat, textSize: nat): nat
    requires textSize > maxNumBytes
  {
    (textSize - maxNumBytes) / (NumSnippets(maxNumBytes) + 1)
  }

  /**
    `SpanInterchangeValid` on the text at hand: from a position, how many of the next bytes to take.
    All that is known of it is that it takes no more than asked for.
   */
  type SpanFunction = (nat, nat) -> nat

  ghost predicate Bounded(span: SpanFunction) {
    forall pos: nat, n: nat :: span(pos, n) <= n
  }

  /** Where the `i`-th snippet ends (0 for none yet), and where the next one begins. */
  function End(span: SpanFunction, skip: nat, size: nat, i: nat): nat
    decreases i, 0
  {
    if i == 0 then 0 else
    var begin := Begin(span, skip, size, i - 1);
    begin + span(begin, size)
  }

  function Begin(span: SpanFunction, skip: nat, size: nat, i: nat): nat
    decreases i, 1
  {
    var end := End(span, skip, size, i);
    end + span(end, skip)
  }

  lemma {:induction false} EndBound(span: SpanFunction, skip: nat, size: nat, i: nat)
    requires Bounded(span)
    ensures End(span, skip, size, i) <= i * (skip + size)
    decreases i
  {
    if i > 0 {
      EndBound(span, skip, size, i - 1);
      Successor(i - 1, skip + size);
    }
  }

  lemma {:induction false} EndsAscend(span: SpanFunction, skip: nat, size: nat, i: nat, j: nat)
    requires i <= j
    ensures End(span, skip, size, i) <= End(span, skip, size, j)
    ensures i < j ==> Begin(span, skip, size, i) <= End(span, skip, size, i + 1) <= End(span, skip, size, j)
    decreases j
  {
    if i < j {
      EndsAscend(span, skip, size, i, j - 1);
    }
  }

  /** The snippets and what is skipped before and after them fit into the text. */
  lemma BudgetFits(maxNumBytes: nat, textSize: nat)
    requires textSize > maxNumBytes
    ensures var n, size := NumSnippets(maxNumBytes), SnippetSize(maxNumBytes);
            var skip := NumSkipBytes(maxNumBytes, textSize);
            n * (skip + size) <= textSize - skip && n * size <= maxNumBytes
  {
    var n, size, skip := NumSnippets(maxNumBytes), SnippetSize(maxNumBytes), NumSkipBytes(maxNumBytes, textSize);
    assert n * size <= maxNumBytes;
    assert (n + 1) * skip <= textSize - maxNumBytes;
    assert n * (skip + size) == n * skip + n * size && (n + 1) * skip == n * skip + skip;
  }

  /** The budget is used up to what a division leaves: one snippet up to five bytes, and five beyond. */
  lemma BudgetExactly(maxNumBytes: nat, textSize: nat)
    requires textSize > maxNumBytes
    ensures var n, size := if maxNumBytes <= 5 then 1 else 5, SnippetSize(maxNumBytes);
            var skip := NumSkipBytes(maxNumBytes, textSize);
            && NumSnippets(maxNumBytes) == n
            && n * size <= maxNumBytes < n * (size + 1)
            && (n + 1) * skip <= textSize - maxNumBytes < (n + 1) * (skip + 1)
  {
  }

  /** Each snippet begins after the one before and ends inside the text, a whole gap before its end. */
  lemma SnippetsInBounds(span: SpanFunction, maxNumBytes: nat, textSize: nat, i: nat)
    requires Bounded(span) && textSize > maxNumBytes && i < NumSnippets(maxNumBytes)
    ensures var size, skip := SnippetSize(maxNumBytes), NumSkipBytes(maxNumBytes, textSize);
            End(span, skip, size, i) <= Begin(span, skip, size, i) <= End(span, skip, size, i + 1)
            && End(span, skip, size, i + 1) <= textSize - skip
  {
    var n, size, skip := NumSnippets(maxNumBytes), SnippetSize(maxNumBytes), NumSkipBytes(maxNumBytes, textSize);
    BudgetFits(maxNumBytes, textSize);
    EndsAscend(span, skip, size, i + 1, n);
    EndsAscend(span, skip, size, i, i + 1);
    EndBound(span, skip, size, n);
  }

  /** When every byte is its own character, the snippets are spread evenly, with equal gaps. */
  lemma {:induction false} SnippetsAreEven(span: SpanFunction, skip: nat, size: nat, i: nat)
    requires forall pos: nat, n: nat :: span(pos, n) == n
    ensures Begin(span, skip, size, i) == i * (skip + size) + skip
    ensures End(span, skip, size, i + 1) == (i + 1) * (skip + size)
    decreases i
  {
    Successor(i, skip + size);
    if i > 0 {
      SnippetsAreEven(span, skip, size, i - 1);
    }
  }

  /** The first `i` snippets of the text, each followed by a space. */
  function Snippets(text: Bytes, span: SpanFunction, skip: nat, size: nat, i: nat): Bytes
    requires End(span, skip, size, i) <= |text|
    decreases i
  {
    if i == 0 then [] else
    EndsAscend(span, skip, size, i - 1, i);
    Snippets(text, span, skip, size, i - 1)
    + text[Begin(span, skip, size, i - 1)..End(span, skip, size, i)] + BLANK
  }

  lemma {:induction false} SnippetsLength(text: Bytes, span: SpanFunction, skip: nat, size: nat, i: nat)
    requires Bounded(span) && End(span, skip, size, i) <= |text|
    ensures |Snippets(text, span, skip, size, i)| <= i * size + i
    decreases i
  {
    if i > 0 {
      EndsAscend(span, skip, size, i - 1, i);
      SnippetsLength(text, span, skip, size, i - 1);
      Successor(i - 1, size);
    }
  }

  /** The text that `SelectTextGivenBeginAndSize` selects. */
  function Selected(text: Bytes, span: SpanFunction, maxNumBytes: nat): Bytes
    requires |text| > maxNumBytes ==>
      End(span, NumSkipBytes(maxNumBytes, |text|), SnippetSize(maxNumBytes), NumSnippets(maxNumBytes)) <= |text|
  {
    if |text| > maxNumBytes then
      Snippets(text, span, NumSkipBytes(maxNumBytes, |text|), SnippetSize(maxNumBytes), NumSnippets(maxNumBytes))
    else text
  }

  lemma SelectedDefined(text: Bytes, span: SpanFunction, maxNumBytes: nat)
    requires Bounded(span)
    ensures |text| > maxNumBytes ==>
      End(span, NumSkipBytes(maxNumBytes, |text|), SnippetSize(maxNumBytes), NumSnippets(maxNumBytes)) <= |text|
  {
    if |text| > maxNumBytes {
      SnippetsInBounds(span, maxNumBytes, |text|, NumSnippets(maxNumBytes) - 1);
    }
  }

  method SelectTextGivenBeginAndSize(text: Bytes, span: SpanFunction, maxNumBytes: nat) returns (output: Bytes)
    requires Bounded(span)
    ensures |text| > maxNumBytes ==>
      End(span, NumSkipBytes(maxNumBytes, |text|), SnippetSize(maxNumBytes), NumSnippets(maxNumBytes)) <= |text|
    ensures output == Selected(text, span, maxNumBytes)
    ensures |text| <= maxNumBytes ==> output == text
    ensures |output| <= maxNumBytes + NumSnippets(maxNumBytes)
  {
    SelectedDefined(text, span, maxNumBytes);
    if |text| > maxNumBytes {
      var numSnippets, size := NumSnippets(maxNumBytes), SnippetSize(maxNumBytes);
      var skip := NumSkipBytes(maxNumBytes, |text|);
      output := AppendSnippets(text, span, skip, size, numSnippets);
      SnippetsLength(text, span, skip, size, numSnippets);
      BudgetFits(maxNumBytes, |text|);
    } else {
      output := text;
    }
  }

  /** One more snippet, in the terms of the loop. */
  lemma SnippetsStep(text: Bytes, span: SpanFunction, skip: nat, size: nat, i: nat)
    requires End(span, skip, size, i + 1) <= |text|
    ensures var begin := End(span, skip, size, i) + span(End(span, skip, size, i), skip);
            && End(span, skip, size, i) <= begin <= begin + span(begin, size) == End(span, skip, size, i + 1)
            && Snippets(text, span, skip, size, i + 1)
            == Snippets(text, span, skip, size, i) + text[begin..begin + span(begin, size)] + BLANK
  {
  }

  lemma NoSnippets(text: Bytes, span: SpanFunction, skip: nat, size: nat)
    ensures End(span, skip, size, 0) == 0 && Snippets(text, span, skip, size, 0) == []
  {
  }

  /** The loop over the snippets. */
  method AppendSnippets(text: Bytes, span: SpanFunction, skip: nat, size: nat, numSnippets: nat)
    returns (output: Bytes)
    requires End(span, skip, size, numSnippets) <= |text|
    ensures output == Snippets(text, span, skip, size, numSnippets)
  {
    hide Snippets, End, Begin;
    output := [];
    var snippetBegin, snippetEnd := 0, 0;
    NoSnippets(text, span, skip, size);
    for i := 0 to numSnippets
      invariant snippetEnd == End(span, skip, size, i) <= |text|
      invariant output == Snippets(text, span, skip, size, i)
    {
      EndsAscend(span, skip, size, i + 1, numSnippets);
      SnippetsStep(text, span, skip, size, i);
      var actualSkip := span(snippetEnd, skip);
      snippetBegin := snippetEnd + actualSkip;
      var actualSize := span(snippetBegin, size);
      snippetEnd := snippetBegin + actualSize;
      output := output + text[snippetBegin..snippetEnd];
      output := output + BLANK;
    }
  }

  // ---- When every byte may be taken.

  /** Place of byte `j` of snippet `i` among snippets of `size` bytes and a space each. */
  function Place(size: nat, i: nat, j: nat): nat {
    i * (size + 1) + j
  }

  lemma PlaceInside(size: nat, i: nat, n: nat, j: nat)
    requires i < n && j <= size
    ensures Place(size, i, j) < n * (size + 1)
    ensures i < n - 1 ==> Place(size, i, j) < (n - 1) * (size + 1)
    ensures i == n - 1 ==> Place(size, i, j) == (n - 1) * (size + 1) + j
  {
    Successor(i, size + 1);
    TimesMonotone(i + 1, n, size + 1);
    TimesMonotone(i + 1, n - 1, size + 1);
  }

  /** Snippet `i` starts after `i + 1` gaps and `i` snippets of the text. */
  function SnippetStart(skip: nat, size: nat, i: nat): nat {
    i * (skip + size) + skip
  }

  lemma StartInside(skip: nat, size: nat, i: nat, n: nat)
    requires i < n
    ensures SnippetStart(skip, size, i) + size <= n * (skip + size)
    ensures (n - 1) * (skip + size) <= n * (skip + size)
  {
    Successor(i, skip + size);
    TimesMonotone(i + 1, n, skip + size);
    TimesMonotone(n - 1, n, skip + size);
  }

  /** Byte `j` of snippet `i` is in its place, and a space after the last. */
  predicate PlacedAt(text: Bytes, output: Bytes, skip: nat, size: nat, i: nat, j: nat) {
    && Place(size, i, j) < |output|
    && SnippetStart(skip, size, i) + size <= |text|
    && output[Place(size, i, j)] == if j < size then text[SnippetStart(skip, size, i) + j] else 0x20
  }

  /** `output` is made of `n` snippets with a space after each. */
  predicate Arranged(text: Bytes, output: Bytes, skip: nat, size: nat, n: nat) {
    && |output| == n * (size + 1)
    && forall i: nat, j: nat | i < n && j <= size :: PlacedAt(text, output, skip, size, i, j)
  }

  lemma {:induction false} SnippetsArranged(text: Bytes, span: SpanFunction, skip: nat, size: nat, n: nat)
    requires (forall pos: nat, k: nat :: span(pos, k) == k) && n * (skip + size) <= |text|
    ensures End(span, skip, size, n) <= |text|
    ensures Arranged(text, Snippets(text, span, skip, size, n), skip, size, n)
    decreases n
  {
    hide Snippets, End, Begin, Place, SnippetStart, Arranged;
    EndAt(span, skip, size, n);
    if n == 0 {
      NoSnippets(text, span, skip, size);
      NothingArranged(text, skip, size);
    } else {
      StartInside(skip, size, n - 1, n);
      SnippetsArranged(text, span, skip, size, n - 1);
      BeginAt(span, skip, size, n - 1);
      var start := SnippetStart(skip, size, n - 1);
      LastSnippet(text, span, skip, size, n, start);
      OneMoreArranged(text, Snippets(text, span, skip, size, n - 1), skip, size, n - 1);
    }
  }

  lemma NothingArranged(text: Bytes, skip: nat, size: nat)
    ensures Arranged(text, [], skip, size, 0)
  {
  }

  lemma OneMoreArranged(text: Bytes, output: Bytes, skip: nat, size: nat, n: nat)
    requires Arranged(text, output, skip, size, n) && SnippetStart(skip, size, n) + size <= |text|
    ensures var start := SnippetStart(skip, size, n);
            Arranged(text, output + text[start..start + size] + [0x20], skip, size, n + 1)
  {
    hide Place, SnippetStart;
    var start := SnippetStart(skip, size, n);
    var part := text[start..start + size];
    var more := output + part + [0x20];
    Successor(n, size + 1);
    assert |more| == (n + 1) * (size + 1);
    forall i: nat, j: nat | i < n + 1 && j <= size ensures PlacedAt(text, more, skip, size, i, j) {
      PlaceInside(size, i, n + 1, j);
      if i < n {
        assert PlacedAt(text, output, skip, size, i, j);
      } else {
        LastPart(output, part, j);
        assert j < size ==> part[j] == text[start + j];
      }
    }
  }

  lemma LastPart(a: Bytes, part: Bytes, j: nat)
    requires j <= |part|
    ensures (a + part + [0x20])[|a| + j] == if j < |part| then part[j] else 0x20
  {
  }

  lemma EndAt(span: SpanFunction, skip: nat, size: nat, i: nat)
    requires forall pos: nat, k: nat :: span(pos, k) == k
    ensures End(span, skip, size, i) == i * (skip + size)
  {
    if i > 0 {
      SnippetsAreEven(span, skip, size, i - 1);
    }
  }

  lemma BeginAt(span: SpanFunction, skip: nat, size: nat, i: nat)
    requires forall pos: nat, k: nat :: span(pos, k) == k
    ensures Begin(span, skip, size, i) == SnippetStart(skip, size, i)
    ensures End(span, skip, size, i + 1) == SnippetStart(skip, size, i) + size
  {
    SnippetsAreEven(span, skip, size, i);
    Successor(i, skip + size);
  }

  lemma LastSnippet(text: Bytes, span: SpanFunction, skip: nat, size: nat, n: nat, start: nat)
    requires n > 0 && start + size <= |text|
    requires Begin(span, skip, size, n - 1) == start
    requires End(span, skip, size, n) == start + size && End(span, skip, size, n - 1) <= |text|
    ensures Snippets(text, span, skip, size, n)
         == Snippets(text, span, skip, size, n - 1) + text[start..start + size] + [0x20]
  {
  }

  lemma SuccessorTimes(n: nat, size: nat)
    ensures n * (size + 1) == n * size + n
  {
  }

  /**
    Then the selection is `n` snippets of the budgeted size, one every `skip + size` bytes of the text, with
    a space after each; it fills the budget, as each snippet lacks less than one byte of its share.
   */
  lemma SelectionFillsBudget(text: Bytes, span: SpanFunction, maxNumBytes: nat)
    requires (forall pos: nat, k: nat :: span(pos, k) == k) && |text| > maxNumBytes
    ensures End(span, NumSkipBytes(maxNumBytes, |text|), SnippetSize(maxNumBytes), NumSnippets(maxNumBytes)) <= |text|
    ensures var n, selected := if maxNumBytes <= 5 then 1 else 5, Selected(text, span, maxNumBytes);
            && Arranged(text, selected, NumSkipBytes(maxNumBytes, |text|), SnippetSize(maxNumBytes), n)
            && |selected| == n * SnippetSize(maxNumBytes) + n > maxNumBytes
  {
    hide NumSkipBytes, SnippetSize, NumSnippets, Snippets, End, Place, SnippetStart;
    var n, size := NumSnippets(maxNumBytes), SnippetSize(maxNumBytes);
    BudgetExactly(maxNumBytes, |text|);
    BudgetFits(maxNumBytes, |text|);
    SnippetsArranged(text, span, NumSkipBytes(maxNumBytes, |text|), size, n);
    SuccessorTimes(n, size);
  }

  // ---- Whole characters.

  /** Byte position of the `k`-th character. */
  function Offset(cs: seq<Bytes>, k: nat): nat
    requires k <= |cs|
  {
    |Flatten(cs[..k])|
  }

  predicate Boundary(cs: seq<Bytes>, pos: nat) {
    exists k | 0 <= k <= |cs| :: Offset(cs, k) == pos
  }

  lemma {:induction false} FlattenConcat(a: seq<Bytes>, b: seq<Bytes>)
    ensures Flatten(a + b) == Flatten(a) + Flatten(b)
    decreases |a|
  {
    if a == [] {
      LeftUnit(b);
      LeftUnit(Flatten(b));
    } else {
      assert (a + b)[0] == a[0] && (a + b)[1..] == a[1..] + b;
      FlattenConcat(a[1..], b);
      Assoc(a[0], Flatten(a[1..]), Flatten(b));
    }
  }

  /** Text between two boundaries is made of the characters between them. */
  lemma BetweenBoundaries(cs: seq<Bytes>, from: nat, to: nat) returns (part: seq<Bytes>)
    requires AllChars(cs) && Boundary(cs, from) && Boundary(cs, to) && from <= to <= |Flatten(cs)|
    ensures AllChars(part) && Flatten(cs)[from..to] == Flatten(part)
  {
    var j :| 0 <= j <= |cs| && Offset(cs, j) == from;
    var k :| 0 <= k <= |cs| && Offset(cs, k) == to;
    if j <= k {
      part := cs[j..k];
      ThreeParts(cs, j, k);
      FlattenConcat(cs[..j], part);
      FlattenConcat(cs[..k], cs[k..]);
      hide Flatten, Offset, IsChar;
      MiddlePart(Flatten(cs[..j]), Flatten(part), Flatten(cs[k..]));
    } else {
      part := [];
      ThreeParts(cs, k, j);
      FlattenConcat(cs[..k], cs[k..j]);
    }
  }

  lemma ThreeParts<T>(cs: seq<T>, j: nat, k: nat)
    requires j <= k <= |cs|
    ensures cs[..k] == cs[..j] + cs[j..k] && cs == cs[..k] + cs[k..]
  {
  }

  lemma MiddlePart<T>(a: seq<T>, b: seq<T>, c: seq<T>)
    ensures (a + b + c)[|a|..|a| + |b|] == b
  {
  }

  /** `span` only ever stops at the end of a character when it starts at one. */
  ghost predicate KeepsBoundaries(span: SpanFunction, cs: seq<Bytes>) {
    forall pos: nat, n: nat :: Boundary(cs, pos) ==> Boundary(cs, pos + span(pos, n))
  }

  lemma {:induction false} EndsAreBoundaries(cs: seq<Bytes>, span: SpanFunction, skip: nat, size: nat, i: nat)
    requires KeepsBoundaries(span, cs)
    ensures Boundary(cs, End(span, skip, size, i)) && Boundary(cs, Begin(span, skip, size, i))
    decreases i
  {
    if i == 0 {
      assert Offset(cs, 0) == 0;
    } else {
      EndsAreBoundaries(cs, span, skip, size, i - 1);
    }
  }

  lemma {:induction false} SnippetsAreWhole(
      text: Bytes, cs: seq<Bytes>, span: SpanFunction, skip: nat, size: nat, i: nat)
    returns (chars: seq<Bytes>)
    requires AllChars(cs) && text == Flatten(cs) && KeepsBoundaries(span, cs)
    requires End(span, skip, size, i) <= |text|
    ensures AllChars(chars) && Snippets(text, span, skip, size, i) == Flatten(chars)
    decreases i
  {
    hide Boundary, KeepsBoundaries, End, Begin;
    if i == 0 {
      chars := [];
    } else {
      EndsAscend(span, skip, size, i - 1, i);
      var before := SnippetsAreWhole(text, cs, span, skip, size, i - 1);
      EndsAreBoundaries(cs, span, skip, size, i - 1);
      EndsAreBoundaries(cs, span, skip, size, i);
      var part := BetweenBoundaries(cs, Begin(span, skip, size, i - 1), End(span, skip, size, i));
      chars := before + part + [BLANK];
      FlattenConcat(before, part);
      FlattenConcat(before + part, [BLANK]);
      assert Flatten([BLANK]) == BLANK + Flatten([]);
    }
  }

  /** If spans end on character boundaries, the selected text consists of whole characters. */
  lemma SelectionIsWhole(text: Bytes, cs: seq<Bytes>, span: SpanFunction, maxNumBytes: nat)
    returns (chars: seq<Bytes>)
    requires AllChars(cs) && text == Flatten(cs) && Bounded(span) && KeepsBoundaries(span, cs)
    ensures |text| > maxNumBytes ==>
      End(span, NumSkipBytes(maxNumBytes, |text|), SnippetSize(maxNumBytes), NumSnippets(maxNumBytes)) <= |text|
    ensures AllChars(chars) && Selected(text, span, maxNumBytes) == Flatten(chars)
  {
    SelectedDefined(text, span, maxNumBytes);
    if |text| > maxNumBytes {
      chars := SnippetsAreWhole(text, cs, span, NumSkipBytes(maxNumBytes, |text|), SnippetSize(maxNumBytes),
                                NumSnippets(maxNumBytes));
    } else {
      chars := cs;
    }
  }
}
