/** `BatchVectorizer._parse_n_wd` of `batches_utils.py`, with real token weights. */
module Batching {
  import opened Arithmetic
  import opened Sequences

  /** One tenth to the power `n`. */
  function TenthTo(n: nat): (r: real)
    ensures 0.0 < r <= 1.0 && (n > 0 ==> r < 1.0)
  {
    if n == 0 then 1.0 else TenthTo(n - 1) / 10.0
  }

  const EPS_EXPONENT: nat := 37

  /** `GLOB_EPS` */
  const EPS: real := TenthTo(EPS_EXPONENT)

  /** A document: pairs of a row number and a weight, as the column is enumerated. */
  type Column = seq<(nat, real)>

  /** A token occurrence that is not negligible. */
  type Entry = (string, real)

  datatype Item = Item(id: nat, tokenId: seq<nat>, transactionStartIndex: seq<nat>, tokenWeight: seq<real>)

  datatype Batch = Batch(items: seq<Item>, tokens: seq<string>)

  const NEW_BATCH := Batch([], [])

  /** `[token_tf, token_df, appeared in this item]` */
  datatype Statistics = Statistics(tf: real, df: nat, appeared: bool)

  datatype DictionaryEntry = DictionaryEntry(token: string, tf: int, df: nat, value: real)

  /** The vocabulary has a token for every row that is not negligible. */
  predicate KnownRows(column: Column, vocab: seq<string>) {
    forall e | e in column && e.1 > EPS :: e.0 < |vocab|
  }

  predicate KnownAll(columns: seq<Column>, vocab: seq<string>) {
    forall c | c in columns :: KnownRows(c, vocab)
  }

  // ---- What the input means.

  /** The occurrences in a document, in order. */
  function Entries(column: Column, vocab: seq<string>): seq<Entry>
    requires KnownRows(column, vocab)
  {
    if column == [] then [] else
    var last := column[|column| - 1];
    Entries(column[..|column| - 1], vocab) + if last.1 <= EPS then [] else [(vocab[last.0], last.1)]
  }

  function PowerOfTen(n: nat): (p: nat)
    ensures p > 0
  {
    if n == 0 then 1 else 10 * PowerOfTen(n - 1)
  }

  lemma {:induction false} TenthsMakeOne(n: nat)
    ensures TenthTo(n) * PowerOfTen(n) as real == 1.0
  {
    if n > 0 {
      TenthsMakeOne(n - 1);
      TenTenths(TenthTo(n - 1), PowerOfTen(n - 1) as real);
      assert PowerOfTen(n) as real == 10.0 * PowerOfTen(n - 1) as real;
    }
  }

  lemma TenTenths(a: real, b: real)
    ensures (a / 10.0) * (10.0 * b) == a * b
  {
  }

  /** A value is negligible up to one part in ten to the power 37. */
  lemma EpsilonMeans()
    ensures EPS * PowerOfTen(37) as real == 1.0
  {
    hide TenthTo, PowerOfTen;
    TenthsMakeOne(37);
  }

  /** The occurrences are the rows above the threshold, with their tokens. */
  lemma {:induction false} EntriesExactly(column: Column, vocab: seq<string>, token: string, weight: real)
    requires KnownRows(column, vocab)
    ensures (token, weight) in Entries(column, vocab)
       <==> weight > EPS && exists k :: RowOf(column, vocab, k, token, weight)
    decreases |column|
  {
    if column != [] {
      var front, last := column[..|column| - 1], |column| - 1;
      EntriesExactly(front, vocab, token, weight);
      RightUnit(Entries(front, vocab));
      assert column[last] in column;
      if (token, weight) in Entries(front, vocab) {
        var k :| RowOf(front, vocab, k, token, weight);
        assert RowOf(column, vocab, k, token, weight);
      } else if (token, weight) in Entries(column, vocab) {
        assert RowOf(column, vocab, last, token, weight);
      }
      if k :| weight > EPS && RowOf(column, vocab, k, token, weight) && k < last {
        assert RowOf(front, vocab, k, token, weight);
      }
    }
  }

  /** Row `k` of a document is for `token`. */
  predicate RowOf(column: Column, vocab: seq<string>, k: int, token: string, weight: real) {
    0 <= k < |column| && column[k].1 == weight && column[k].0 < |vocab| && vocab[column[k].0] == token
  }

  /** The occurrences in all documents, in order. */
  function Log(columns: seq<Column>, vocab: seq<string>): seq<Entry>
    requires KnownAll(columns, vocab)
  {
    if columns == [] then []
    else Log(columns[..|columns| - 1], vocab) + Entries(columns[|columns| - 1], vocab)
  }

  function Total(log: seq<Entry>): real {
    if log == [] then 0.0 else Total(log[..|log| - 1]) + log[|log| - 1].1
  }

  function TotalFor(log: seq<Entry>, token: string): real {
    if log == [] then 0.0 else
    TotalFor(log[..|log| - 1], token) + if log[|log| - 1].0 == token then log[|log| - 1].1 else 0.0
  }

  function CountFor(log: seq<Entry>, token: string): nat {
    if log == [] then 0 else
    CountFor(log[..|log| - 1], token) + if log[|log| - 1].0 == token then 1 else 0
  }

  // ---- Global statistics.

  /** The global vocabulary is the statistics of the log; no token is ever marked as appeared. */
  ghost predicate Summarises(global: map<string, Statistics>, log: seq<Entry>) {
    && (forall t | t in global :: global[t] == Statistics(TotalFor(log, t), CountFor(log, t), false))
    && (forall t :: t in global <==> CountFor(log, t) > 0)
  }

  lemma SummarisesOneMore(global: map<string, Statistics>, log: seq<Entry>, e: Entry)
    requires Summarises(global, log)
    ensures var stats := if e.0 in global then global[e.0] else Statistics(0.0, 0, false);
            Summarises(global[e.0 := Statistics(stats.tf + e.1, stats.df + 1, false)], log + [e])
    ensures Total(log + [e]) == Total(log) + e.1
  {
    var all := log + [e];
    assert all[..|log|] == log && all[|log|] == e;
    NoneFor(log, e.0);
  }

  lemma {:induction false} NoneFor(log: seq<Entry>, token: string)
    ensures CountFor(log, token) == 0 ==> TotalFor(log, token) == 0.0
    decreases |log|
  {
    if log != [] {
      NoneFor(log[..|log| - 1], token);
    }
  }

  // ---- Batches.

  /** `item` records document number `id`, with token numbers that refer to `tokens`. */
  predicate Records(item: Item, id: nat, entries: seq<Entry>, tokens: seq<string>) {
    && item.id == id
    && |item.tokenId| == |item.transactionStartIndex| == |item.tokenWeight| == |entries|
    && forall k | 0 <= k < |entries| ::
         && item.tokenId[k] < |tokens|
         && tokens[item.tokenId[k]] == entries[k].0
         && item.tokenWeight[k] == entries[k].1
         && item.transactionStartIndex[k] == k
  }

  /** `batch` holds the documents from number `first` on, each once and in order. */
  predicate Holds(batch: Batch, columns: seq<Column>, vocab: seq<string>, first: nat)
    requires KnownAll(columns, vocab)
  {
    && first + |batch.items| <= |columns|
    && Distinct(batch.tokens)
    && forall k | 0 <= k < |batch.items| ::
         Records(batch.items[k], first + k, Entries(columns[first + k], vocab), batch.tokens)
  }

  function ItemCount(batches: seq<Batch>): nat {
    if batches == [] then 0 else ItemCount(batches[..|batches| - 1]) + |batches[|batches| - 1].items|
  }

  /** Every batch holds its stretch of the documents. */
  predicate AllHold(batches: seq<Batch>, columns: seq<Column>, vocab: seq<string>)
    requires KnownAll(columns, vocab)
  {
    forall b | 0 <= b < |batches| :: Holds(batches[b], columns, vocab, ItemCount(batches[..b]))
  }

  /** The local vocabulary numbers the tokens of the batch. */
  ghost predicate Numbers(batchVocab: map<string, nat>, tokens: seq<string>) {
    && (forall t :: t in batchVocab <==> t in tokens)
    && (forall t | t in batchVocab :: batchVocab[t] < |tokens| && tokens[batchVocab[t]] == t)
    && Distinct(tokens)
  }

  predicate FlushAfter(i: nat, n: nat, batchSize: nat)
    requires batchSize > 0
  {
    (Remainder(i + 1, batchSize) == 0 && i != 0) || i + 1 == n
  }

  /** Documents in the open batch before document `i`. */
  function Pending(i: nat, n: nat, batchSize: nat): nat
    requires batchSize > 0
  {
    if i == 0 || FlushAfter(i - 1, n, batchSize) then 0 else Pending(i - 1, n, batchSize) + 1
  }

  /** Sizes of the batches written before document `i`. */
  function Sizes(i: nat, n: nat, batchSize: nat): seq<nat>
    requires batchSize > 0
  {
    if i == 0 then []
    else Sizes(i - 1, n, batchSize)
         + if FlushAfter(i - 1, n, batchSize) then [Pending(i - 1, n, batchSize) + 1] else []
  }

  function SizesOf(batches: seq<Batch>): (sizes: seq<nat>)
    ensures |sizes| == |batches|
  {
    seq(|batches|, b requires 0 <= b < |batches| => |batches[b].items|)
  }

  // ---- The loops.

  /** How the first `i` documents are spread over the batches written and the open one. */
  ghost predicate Progress(batches: seq<Batch>, batch: Batch,
                           columns: seq<Column>, vocab: seq<string>, i: nat, batchSize: nat)
    requires KnownAll(columns, vocab) && i <= |columns| && batchSize > 0
  {
    && AllHold(batches, columns, vocab)
    && ItemCount(batches) + |batch.items| == i
    && Holds(batch, columns, vocab, ItemCount(batches))
    && |batch.items| == Pending(i, |columns|, batchSize)
    && SizesOf(batches) == Sizes(i, |columns|, batchSize)
  }

  /** Fails, as the original raises, on a missing token and on the remainder by a batch size of zero. */
  method ParseNwd(columns: seq<Column>, vocab: seq<string>, batchSize: nat)
    returns (ok: bool, batches: seq<Batch>, global: map<string, Statistics>, globalN: real)
    ensures ok <==> KnownAll(columns, vocab) && (columns == [] || batchSize > 0)
    ensures ok ==> AllHold(batches, columns, vocab) && ItemCount(batches) == |columns|
    ensures ok && batchSize > 0 ==> SizesOf(batches) == Sizes(|columns|, |columns|, batchSize)
    ensures ok ==> Summarises(global, Log(columns, vocab)) && globalN == Total(Log(columns, vocab))
  {
    batches, global, globalN := [], map[], 0.0;
    var batch, batchVocab: map<string, nat> := NEW_BATCH, map[];
    ghost var log: seq<Entry> := [];
    NothingDone(columns, vocab, batchSize);
    hide Progress, Numbers, Summarises, Total, Log, KnownRows;
    for i := 0 to |columns|
      invariant batchSize == 0 ==> i == 0
      invariant forall j | 0 <= j < i :: KnownRows(columns[j], vocab)
      invariant Numbers(batchVocab, batch.tokens) && Summarises(global, log) && globalN == Total(log)
      invariant KnownAll(columns, vocab) ==> log == Log(columns[..i], vocab)
      invariant KnownAll(columns, vocab) && batchSize > 0 ==> Progress(batches, batch, columns, vocab, i, batchSize)
      invariant i == 0 ==> batches == []
    {
      ghost var open := batch;
      // No token is marked for this document yet.
      ResetKeeps(global, log);
      global := map t | t in global :: global[t].(appeared := false);
      var item;
      ok, item, batch, batchVocab, global, globalN :=
        AddItem(columns[i], vocab, i, batch, batchVocab, global, globalN, log);
      if !ok || batchSize == 0 {
        assert columns[i] in columns;
        return false, batches, global, globalN;
      }
      batch := batch.(items := batch.items + [item]);
      log := log + Entries(columns[i], vocab);
      ghost var written := batches;
      ghost var full := batch;
      RemainderIsModulo(i + 1, batchSize);
      if ((i + 1) % batchSize == 0 && i != 0) || i + 1 == |columns| {
        batches := batches + [batch];
        batch, batchVocab := NEW_BATCH, map[];
        NothingNumbered();
      }
      if KnownAll(columns, vocab) {
        LogStep(columns, vocab, i);
        DocumentAdded(written, open, item, full, columns, vocab, i, batchSize);
      }
    }
    assert columns[..|columns|] == columns;
    ok := true;
    if columns != [] {
      NothingPending(batches, batch, columns, vocab, batchSize);
    }
  }

  lemma NothingDone(columns: seq<Column>, vocab: seq<string>, batchSize: nat)
    ensures KnownAll(columns, vocab) && batchSize > 0 ==> Progress([], NEW_BATCH, columns, vocab, 0, batchSize)
    ensures Numbers(map[], NEW_BATCH.tokens) && Summarises(map[], []) && Total([]) == 0.0
    ensures columns[..0] == [] && KnownAll([], vocab) && Log([], vocab) == []
  {
  }

  lemma NothingNumbered()
    ensures Numbers(map[], NEW_BATCH.tokens)
  {
  }

  /** The flag that the loop over the global vocabulary clears is never set. */
  lemma ResetKeeps(global: map<string, Statistics>, log: seq<Entry>)
    requires Summarises(global, log)
    ensures (map t | t in global :: global[t].(appeared := false)) == global
  {
  }

  /** After the last document the open batch is empty. */
  lemma NothingPending(batches: seq<Batch>, batch: Batch, columns: seq<Column>, vocab: seq<string>, batchSize: nat)
    requires KnownAll(columns, vocab) && columns != [] && batchSize > 0
    requires Progress(batches, batch, columns, vocab, |columns|, batchSize)
    ensures AllHold(batches, columns, vocab) && ItemCount(batches) == |columns|
    ensures SizesOf(batches) == Sizes(|columns|, |columns|, batchSize)
  {
    assert FlushAfter(|columns| - 1, |columns|, batchSize);
  }

  /** One round of the loop, whether it closes the batch or not. */
  lemma DocumentAdded(batches: seq<Batch>, open: Batch, item: Item, batch: Batch,
                      columns: seq<Column>, vocab: seq<string>, i: nat, batchSize: nat)
    requires KnownAll(columns, vocab) && i < |columns| && batchSize > 0
    requires Progress(batches, open, columns, vocab, i, batchSize)
    requires batch.items == open.items + [item] && open.tokens <= batch.tokens && Distinct(batch.tokens)
    requires KnownRows(columns[i], vocab) && Records(item, i, Entries(columns[i], vocab), batch.tokens)
    ensures FlushAfter(i, |columns|, batchSize) ==>
              Progress(batches + [batch], NEW_BATCH, columns, vocab, i + 1, batchSize)
    ensures !FlushAfter(i, |columns|, batchSize) ==> Progress(batches, batch, columns, vocab, i + 1, batchSize)
  {
    hide AllHold, Holds, Records, Entries, KnownRows, Sizes, SizesOf, Pending, FlushAfter;
    assert columns[i] in columns;
    ItemAdded(batches, open, item, batch, columns, vocab, i, batchSize);
    BatchFlushed(batches, batch, columns, vocab);
  }

  lemma LogStep(columns: seq<Column>, vocab: seq<string>, i: nat)
    requires KnownAll(columns, vocab) && i < |columns|
    ensures KnownRows(columns[i], vocab)
    ensures Log(columns[..i + 1], vocab) == Log(columns[..i], vocab) + Entries(columns[i], vocab)
  {
    assert columns[i] in columns;
    assert columns[..i + 1][..i] == columns[..i];
  }

  lemma ItemAdded(batches: seq<Batch>, open: Batch, item: Item, batch: Batch,
                  columns: seq<Column>, vocab: seq<string>, i: nat, batchSize: nat)
    requires KnownAll(columns, vocab) && i < |columns| && batchSize > 0
    requires Holds(open, columns, vocab, ItemCount(batches)) && ItemCount(batches) + |open.items| == i
    requires |open.items| == Pending(i, |columns|, batchSize)
    requires SizesOf(batches) == Sizes(i, |columns|, batchSize)
    requires batch.items == open.items + [item] && open.tokens <= batch.tokens && Distinct(batch.tokens)
    requires columns[i] in columns && Records(item, i, Entries(columns[i], vocab), batch.tokens)
    ensures Holds(batch, columns, vocab, ItemCount(batches))
    ensures FlushAfter(i, |columns|, batchSize) ==>
              Pending(i + 1, |columns|, batchSize) == 0
              && SizesOf(batches + [batch]) == Sizes(i + 1, |columns|, batchSize)
    ensures !FlushAfter(i, |columns|, batchSize) ==>
              Pending(i + 1, |columns|, batchSize) == |batch.items|
              && SizesOf(batches) == Sizes(i + 1, |columns|, batchSize)
  {
    hide Entries;
    RightUnit(Sizes(i, |columns|, batchSize));
    assert SizesOf(batches + [batch]) == SizesOf(batches) + [|batch.items|];
  }

  lemma EmptyBatchHolds(columns: seq<Column>, vocab: seq<string>, first: nat)
    requires KnownAll(columns, vocab) && first <= |columns|
    ensures Holds(NEW_BATCH, columns, vocab, first)
  {
  }

  lemma BatchFlushed(batches: seq<Batch>, batch: Batch, columns: seq<Column>, vocab: seq<string>)
    requires KnownAll(columns, vocab)
    requires AllHold(batches, columns, vocab) && Holds(batch, columns, vocab, ItemCount(batches))
    ensures AllHold(batches + [batch], columns, vocab)
    ensures ItemCount(batches + [batch]) == ItemCount(batches) + |batch.items|
    ensures ItemCount(batches + [batch]) <= |columns| ==>
              Holds(NEW_BATCH, columns, vocab, ItemCount(batches + [batch]))
  {
    hide Holds, KnownRows;
    var all := batches + [batch];
    assert all[..|batches|] == batches && all[|batches|] == batch;
    assert ItemCount(all) == ItemCount(batches) + |batch.items|;
    if ItemCount(all) <= |columns| {
      EmptyBatchHolds(columns, vocab, ItemCount(all));
    }
    hide ItemCount;
    forall b | 0 <= b < |all| ensures Holds(all[b], columns, vocab, ItemCount(all[..b])) {
      if b < |batches| {
        assert all[..b] == batches[..b] && all[b] == batches[b];
      }
    }
  }

  /** The loop over the tokens of one document; fails on a row without a token. */
  method AddItem(column: Column, vocab: seq<string>, id: nat, batch0: Batch, batchVocab0: map<string, nat>,
                 global0: map<string, Statistics>, globalN0: real, ghost log: seq<Entry>)
    returns (ok: bool, item: Item, batch: Batch, batchVocab: map<string, nat>,
             global: map<string, Statistics>, globalN: real)
    requires Numbers(batchVocab0, batch0.tokens) && Summarises(global0, log) && globalN0 == Total(log)
    ensures ok <==> KnownRows(column, vocab)
    ensures ok ==> batch.items == batch0.items && batch0.tokens <= batch.tokens && Distinct(batch.tokens)
    ensures ok ==> Records(item, id, Entries(column, vocab), batch.tokens)
    ensures ok ==> Numbers(batchVocab, batch.tokens)
    ensures ok ==> Summarises(global, log + Entries(column, vocab)) && globalN == Total(log + Entries(column, vocab))
  {
    hide Records, Numbers, Summarises, Total, Entries, KnownRows, Distinct;
    item := Item(id, [], [], []);
    batch, batchVocab, global, globalN := batch0, batchVocab0, global0, globalN0;
    NothingRecorded(id, batch0.tokens, vocab);
    RightUnit(log);
    assert column[..0] == [];
    for k := 0 to |column|
      invariant batch.items == batch0.items && batch0.tokens <= batch.tokens
      invariant KnownRows(column[..k], vocab)
      invariant Records(item, id, Entries(column[..k], vocab), batch.tokens)
      invariant Numbers(batchVocab, batch.tokens)
      invariant Summarises(global, log + Entries(column[..k], vocab))
      invariant globalN == Total(log + Entries(column[..k], vocab))
    {
      KnownStep(column, vocab, k);
      var (row, value) := column[k];
      if value <= EPS {
        EntriesStep(column, vocab, k);
        continue;
      }
      if row >= |vocab| {
        return false, item, batch, batchVocab, global, globalN;
      }
      EntriesStep(column, vocab, k);
      ghost var entries := Entries(column[..k], vocab);
      Assoc(log, entries, [(vocab[row], value)]);
      ghost var tokens := batch.tokens;
      global, globalN := AddToGlobal(vocab[row], value, global, globalN, log + entries);
      batch, batchVocab := AddToBatch(vocab[row], batch, batchVocab);
      RecordsOneMore(item, id, entries, tokens, batch.tokens, (vocab[row], value), batchVocab);
      item := Item(id, item.tokenId + [batchVocab[vocab[row]]],
                   item.transactionStartIndex + [|item.transactionStartIndex|], item.tokenWeight + [value]);
    }
    assert column[..|column|] == column;
    NumbersDistinct(batchVocab, batch.tokens);
    ok := true;
  }

  lemma NumbersDistinct(batchVocab: map<string, nat>, tokens: seq<string>)
    requires Numbers(batchVocab, tokens)
    ensures Distinct(tokens)
  {
  }

  lemma NothingRecorded(id: nat, tokens: seq<string>, vocab: seq<string>)
    ensures KnownRows([], vocab) && Entries([], vocab) == []
    ensures Records(Item(id, [], [], []), id, [], tokens)
  {
  }

  /** The rows up to `k` are known exactly when those before are and row `k` is, or is negligible. */
  lemma KnownStep(column: Column, vocab: seq<string>, k: nat)
    requires k < |column| && KnownRows(column[..k], vocab)
    ensures KnownRows(column[..k + 1], vocab) <==> column[k].1 <= EPS || column[k].0 < |vocab|
    ensures KnownRows(column, vocab) ==> column[k].1 <= EPS || column[k].0 < |vocab|
  {
    var more := column[..k + 1];
    assert more[k] in more && column[k] in column;
    assert forall e :: e in more <==> e in column[..k] || e == column[k];
  }

  /** One more row of a column. */
  lemma EntriesStep(column: Column, vocab: seq<string>, k: nat)
    requires k < |column| && KnownRows(column[..k], vocab) && KnownRows(column[..k + 1], vocab)
    ensures column[k].1 > EPS ==> column[k].0 < |vocab|
    ensures Entries(column[..k + 1], vocab)
         == if column[k].1 <= EPS then Entries(column[..k], vocab)
            else Entries(column[..k], vocab) + [(vocab[column[k].0], column[k].1)]
  {
    var more := column[..k + 1];
    RightUnit(Entries(column[..k], vocab));
    assert more[..k] == column[..k] && more[k] == column[k] && more[k] in more;
    hide KnownRows;
  }

  /** The part of the loop body that updates the global vocabulary. */
  method AddToGlobal(token: string, value: real, global0: map<string, Statistics>, globalN0: real,
                     ghost log: seq<Entry>)
    returns (global: map<string, Statistics>, globalN: real)
    requires Summarises(global0, log) && globalN0 == Total(log)
    ensures Summarises(global, log + [(token, value)]) && globalN == Total(log + [(token, value)])
  {
    SummarisesOneMore(global0, log, (token, value));
    var stats := if token in global0 then global0[token] else Statistics(0.0, 0, false);
    stats := stats.(tf := stats.tf + value);
    stats := stats.(df := stats.df + if stats.appeared then 0 else 1);
    global := global0[token := stats];
    globalN := globalN0 + value;
  }

  /** The part that numbers a token that is new to the batch. */
  method AddToBatch(token: string, batch0: Batch, batchVocab0: map<string, nat>)
    returns (batch: Batch, batchVocab: map<string, nat>)
    requires Numbers(batchVocab0, batch0.tokens)
    ensures batch.items == batch0.items && batch0.tokens <= batch.tokens
    ensures Numbers(batchVocab, batch.tokens) && token in batchVocab
  {
    batch, batchVocab := batch0, batchVocab0;
    if token !in batchVocab {
      batchVocab := batchVocab[token := |batch.tokens|];
      batch := batch.(tokens := batch.tokens + [token]);
    }
  }

  lemma RecordsOneMore(item: Item, id: nat, entries: seq<Entry>, before: seq<string>, tokens: seq<string>,
                       e: Entry, batchVocab: map<string, nat>)
    requires Records(item, id, entries, before) && before <= tokens
    requires Numbers(batchVocab, tokens) && e.0 in batchVocab
    ensures Records(Item(id, item.tokenId + [batchVocab[e.0]],
                         item.transactionStartIndex + [|item.transactionStartIndex|], item.tokenWeight + [e.1]),
                    id, entries + [e], tokens)
  {
  }
}
