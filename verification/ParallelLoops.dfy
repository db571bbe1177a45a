/** The loops of the four stages, with each thread run to its end where it is spawned, and the filter after them. */
module ParallelLoops {
  import opened Arithmetic
  import opened ParallelMap

  /** The loop of a task over its chunk. */
  method RunTask<T>(task: Task<T>, documents: array<T>, begin: nat, end: nat)
    requires begin <= end <= documents.Length
    modifies documents
    ensures forall j | 0 <= j < documents.Length ::
      documents[j] == if begin <= j < end then task(j, old(documents[j])) else old(documents[j])
  {
    for i := begin to end
      invariant forall j | 0 <= j < documents.Length ::
        documents[j] == if begin <= j < i then task(j, old(documents[j])) else old(documents[j])
    {
      documents[i] := task(i, documents[i]);
    }
  }

  /** The loop that cuts the documents into chunks. */
  method RunThreads<T>(task: Task<T>, documents: array<T>)
    modifies documents
    ensures documents[..] == MapAll(task, old(documents[..]))
  {
    var step := StepSize(documents.Length);
    var start := 0;
    while start < documents.Length
      invariant forall j | 0 <= j < documents.Length ::
        documents[j] == if j < start then task(j, old(documents[j])) else old(documents[j])
      decreases documents.Length - start
    {
      var end := Min(documents.Length, start + step);
      RunTask(task, documents, start, end);
      start := start + step;
    }
  }

  /** The documents that a loop after the joins moves out: those selected, in order. */
  function Keep<T>(selected: T -> bool, docs: seq<T>): seq<T> {
    if docs == [] then []
    else (if selected(docs[0]) then [docs[0]] else []) + Keep(selected, docs[1..])
  }

  /** What is left in place: a document that was moved out is whatever `husk` makes of it. */
  function Husks<T>(selected: T -> bool, husk: T -> T, docs: seq<T>): seq<T> {
    seq(|docs|, i requires 0 <= i < |docs| => if selected(docs[i]) then husk(docs[i]) else docs[i])
  }

  lemma KeepStep<T>(selected: T -> bool, docs: seq<T>, i: nat, kept: seq<T>)
    requires i < |docs|
    ensures kept + Keep(selected, docs[i..])
         == (if selected(docs[i]) then kept + [docs[i]] else kept) + Keep(selected, docs[i + 1..])
  {
    assert docs[i..][1..] == docs[i + 1..];
  }

  lemma KeepNothing<T>(selected: T -> bool, docs: seq<T>)
    ensures Keep(selected, docs[|docs|..]) == []
  {
  }

  method MoveOut<T>(selected: T -> bool, husk: T -> T, documents: array<T>) returns (kept: seq<T>)
    modifies documents
    ensures kept == Keep(selected, old(documents[..]))
    ensures documents[..] == Husks(selected, husk, old(documents[..]))
    ensures forall i | 0 <= i < documents.Length ::
      documents[i] == if selected(old(documents[i])) then husk(old(documents[i])) else old(documents[i])
  {
    ghost var before := documents[..];
    ghost var left := Husks(selected, husk, before);
    hide Keep;
    kept := [];
    assert [] + Keep(selected, before) == Keep(selected, before);
    for i := 0 to documents.Length
      invariant kept + Keep(selected, before[i..]) == Keep(selected, before)
      invariant forall j | 0 <= j < documents.Length :: documents[j] == if j < i then left[j] else before[j]
    {
      KeepStep(selected, before, i, kept);
      if selected(documents[i]) {
        kept := kept + [documents[i]];
        documents[i] := husk(documents[i]);
      }
    }
    KeepNothing(selected, before);
    assert documents[..] == left;
  }

  /** Positions of the selected documents. */
  function Positions<T>(selected: T -> bool, docs: seq<T>, offset: nat): seq<nat> {
    if docs == [] then []
    else (if selected(docs[0]) then [offset] else []) + Positions(selected, docs[1..], offset + 1)
  }

  lemma {:induction false} KeepInOrder<T>(selected: T -> bool, docs: seq<T>, offset: nat)
    ensures var p := Positions(selected, docs, offset);
            && |p| == |Keep(selected, docs)|
            && (forall k | 0 <= k < |p| ::
                  offset <= p[k] < offset + |docs| && Keep(selected, docs)[k] == docs[p[k] - offset])
            && (forall j, k | 0 <= j < k < |p| :: p[j] < p[k])
    decreases docs
  {
    if docs != [] {
      KeepInOrder(selected, docs[1..], offset + 1);
    }
  }

  lemma {:induction false} KeepIsExact<T>(selected: T -> bool, docs: seq<T>, offset: nat, i: nat)
    requires i < |docs|
    ensures selected(docs[i]) <==> offset + i in Positions(selected, docs, offset)
    decreases docs
  {
    KeepInOrder(selected, docs[1..], offset + 1);
    if i > 0 {
      KeepIsExact(selected, docs[1..], offset + 1, i - 1);
    }
  }

  /** `Keep` takes every selected document, no other, once each, and keeps their order. */
  lemma KeepIsStable<T>(selected: T -> bool, docs: seq<T>)
    ensures var p := Positions(selected, docs, 0);
            && |p| == |Keep(selected, docs)|
            && (forall k | 0 <= k < |p| :: p[k] < |docs| && Keep(selected, docs)[k] == docs[p[k]])
            && (forall j, k | 0 <= j < k < |p| :: p[j] < p[k])
            && (forall i: nat | i < |docs| :: selected(docs[i]) <==> i in p)
  {
    KeepInOrder(selected, docs, 0);
    forall i: nat | i < |docs| ensures selected(docs[i]) <==> i in Positions(selected, docs, 0) {
      KeepIsExact(selected, docs, 0, i);
    }
  }
}
