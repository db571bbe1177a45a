/** Nothing is lost in batching, and when the counts mean what they are called. */
module BatchingTheorems {
  import opened Arithmetic
  import opened Sequences
  import opened Batching

  // ---- Sizes.

  /** No batch holds more than the size, and all but the last hold exactly that. */
  predicate FullButLast(sizes: seq<nat>, batchSize: nat) {
    && (forall k | 0 <= k < |sizes| - 1 :: sizes[k] == batchSize)
    && (sizes != [] ==> 1 <= sizes[|sizes| - 1] <= batchSize)
  }

  /** Before the last document, every batch written is full. */
  lemma {:induction false} FullSoFar(i: nat, n: nat, batchSize: nat)
    requires batchSize >= 2 && i < n
    ensures Pending(i, n, batchSize) == Remainder(i, batchSize) < batchSize
    ensures forall k | 0 <= k < |Sizes(i, n, batchSize)| :: Sizes(i, n, batchSize)[k] == batchSize
    decreases i
  {
    if i > 0 {
      FullSoFar(i - 1, n, batchSize);
      RemainderStep(i - 1, batchSize);
    }
  }

  lemma {:induction false} FirstBatchHasTwo(i: nat, n: nat)
    requires 2 <= i <= n
    ensures |Sizes(i, n, 1)| >= 1 && Sizes(i, n, 1)[0] == 2
    decreases i
  {
    if i == 2 {
      assert !FlushAfter(0, n, 1);
      assert Sizes(0, n, 1) == [] && Pending(0, n, 1) == 0;
      assert Sizes(1, n, 1) == [] && Pending(1, n, 1) == 1;
    } else {
      FirstBatchHasTwo(i - 1, n);
    }
  }

  /** The last document always closes its batch. */
  lemma LastFlush(n: nat, batchSize: nat)
    requires n > 0 && batchSize > 0
    ensures Sizes(n, n, batchSize) == Sizes(n - 1, n, batchSize) + [Pending(n - 1, n, batchSize) + 1]
    ensures Sizes(0, n, batchSize) == [] && Pending(0, n, batchSize) == 0
  {
  }

  /**
    No batch is over-full and all but the last are full exactly when the size is at least two or there is
    at most one document: with a size of one the first document is not written on its own.
   */
  lemma BatchesAreFullExactly(n: nat, batchSize: nat)
    requires batchSize > 0
    ensures FullButLast(Sizes(n, n, batchSize), batchSize) <==> batchSize >= 2 || n <= 1
  {
    if n > 0 {
      LastFlush(n, batchSize);
      if batchSize >= 2 {
        FullSoFar(n - 1, n, batchSize);
      } else if n >= 2 {
        FirstBatchHasTwo(n, n);
      }
      hide FlushAfter, Sizes, Pending;
      var sizes := Sizes(n, n, batchSize);
      assert sizes[|sizes| - 1] == Pending(n - 1, n, batchSize) + 1;
    }
  }

  /** With a size of one, two documents end up in one batch. */
  lemma SizeOneExample()
    ensures Sizes(2, 2, 1) == [2] && !FullButLast(Sizes(2, 2, 1), 1)
  {
    LastFlush(2, 1);
    assert Sizes(1, 2, 1) == [] && Pending(1, 2, 1) == 1;
  }

  // ---- Weights.

  function ItemsWeight(items: seq<Item>): real {
    if items == [] then 0.0 else ItemsWeight(items[..|items| - 1]) + Sum(items[|items| - 1].tokenWeight)
  }

  function BatchesWeight(batches: seq<Batch>): real {
    if batches == [] then 0.0 else BatchesWeight(batches[..|batches| - 1]) + ItemsWeight(batches[|batches| - 1].items)
  }

  lemma {:induction false} TotalConcat(a: seq<Entry>, b: seq<Entry>)
    ensures Total(a + b) == Total(a) + Total(b)
    decreases |b|
  {
    if b == [] {
      RightUnit(a);
    } else {
      assert (a + b)[..|a + b| - 1] == a + b[..|b| - 1];
      TotalConcat(a, b[..|b| - 1]);
    }
  }

  lemma {:induction false} SameWeights(weights: seq<real>, entries: seq<Entry>)
    requires |weights| == |entries| && forall k | 0 <= k < |entries| :: weights[k] == entries[k].1
    ensures Sum(weights) == Total(entries)
    decreases |entries|
  {
    if entries != [] {
      SameWeights(weights[..|weights| - 1], entries[..|entries| - 1]);
    }
  }

  /** Total weight of the first `k` documents of a batch that starts at document `first`. */
  lemma {:induction false} BatchWeight(batch: Batch, columns: seq<Column>, vocab: seq<string>, first: nat, k: nat)
    requires KnownAll(columns, vocab) && Holds(batch, columns, vocab, first) && k <= |batch.items|
    ensures Total(Log(columns[..first + k], vocab))
         == Total(Log(columns[..first], vocab)) + ItemsWeight(batch.items[..k])
    decreases k
  {
    hide Entries, Log, Total, KnownRows;
    if k > 0 {
      BatchWeight(batch, columns, vocab, first, k - 1);
      var i := first + k - 1;
      LogStep(columns, vocab, i);
      TotalConcat(Log(columns[..i], vocab), Entries(columns[i], vocab));
      SameWeights(batch.items[k - 1].tokenWeight, Entries(columns[i], vocab));
      assert batch.items[..k][..k - 1] == batch.items[..k - 1];
    }
  }

  lemma HoldsWithin(batch: Batch, columns: seq<Column>, vocab: seq<string>, first: nat)
    requires KnownAll(columns, vocab) && Holds(batch, columns, vocab, first)
    ensures first + |batch.items| <= |columns|
  {
  }

  lemma NothingLogged(vocab: seq<string>)
    ensures Total(Log([], vocab)) == 0.0
  {
  }

  lemma {:induction false} FirstBatchesWeight(batches: seq<Batch>, columns: seq<Column>, vocab: seq<string>, b: nat)
    requires KnownAll(columns, vocab) && AllHold(batches, columns, vocab) && b <= |batches|
    ensures ItemCount(batches[..b]) <= |columns|
    ensures BatchesWeight(batches[..b]) == Total(Log(columns[..ItemCount(batches[..b])], vocab))
    decreases b
  {
    hide Total, Log, Holds, ItemsWeight, KnownRows;
    if b > 0 {
      FirstBatchesWeight(batches, columns, vocab, b - 1);
      assert batches[..b][..b - 1] == batches[..b - 1];
      var batch, first := batches[b - 1], ItemCount(batches[..b - 1]);
      BatchWeight(batch, columns, vocab, first, |batch.items|);
      assert batch.items[..|batch.items|] == batch.items;
      HoldsWithin(batch, columns, vocab, first);
    } else {
      assert batches[..0] == [] && columns[..0] == [];
      NothingLogged(vocab);
    }
  }

  /** The weights of all items in all batches add up to `global_n`. */
  lemma WeightsAddUp(batches: seq<Batch>, columns: seq<Column>, vocab: seq<string>)
    requires KnownAll(columns, vocab) && AllHold(batches, columns, vocab) && ItemCount(batches) == |columns|
    ensures BatchesWeight(batches) == Total(Log(columns, vocab))
  {
    FirstBatchesWeight(batches, columns, vocab, |batches|);
    assert batches[..|batches|] == batches && columns[..|columns|] == columns;
  }

  // ---- Document frequency.

  lemma {:induction false} CountConcat(a: seq<Entry>, b: seq<Entry>, token: string)
    ensures CountFor(a + b, token) == CountFor(a, token) + CountFor(b, token)
    decreases |b|
  {
    if b == [] {
      RightUnit(a);
    } else {
      assert (a + b)[..|a + b| - 1] == a + b[..|b| - 1];
      CountConcat(a, b[..|b| - 1], token);
    }
  }

  /** Number of documents in which a token occurs. */
  function ItemsWith(columns: seq<Column>, vocab: seq<string>, token: string): nat
    requires KnownAll(columns, vocab)
  {
    if columns == [] then 0
    else
      ItemsWith(columns[..|columns| - 1], vocab, token)
      + if CountFor(Entries(columns[|columns| - 1], vocab), token) > 0 then 1 else 0
  }

  /** No document has the token in two of its rows. */
  predicate OncePerItem(columns: seq<Column>, vocab: seq<string>, token: string)
    requires KnownAll(columns, vocab)
  {
    forall i | 0 <= i < |columns| :: columns[i] in columns && CountFor(Entries(columns[i], vocab), token) <= 1
  }

  lemma OncePerItemSnoc(columns: seq<Column>, vocab: seq<string>, token: string)
    requires KnownAll(columns, vocab) && columns != []
    ensures OncePerItem(columns, vocab, token)
       <==> OncePerItem(columns[..|columns| - 1], vocab, token)
            && CountFor(Entries(columns[|columns| - 1], vocab), token) <= 1
  {
    hide CountFor, Entries;
    var front := columns[..|columns| - 1];
    assert forall i | 0 <= i < |front| :: front[i] == columns[i];
  }

  lemma {:induction false} FrequencyAtLeast(columns: seq<Column>, vocab: seq<string>, token: string)
    requires KnownAll(columns, vocab)
    ensures CountFor(Log(columns, vocab), token) >= ItemsWith(columns, vocab, token)
    ensures CountFor(Log(columns, vocab), token) == ItemsWith(columns, vocab, token)
       <==> OncePerItem(columns, vocab, token)
    decreases |columns|
  {
    hide OncePerItem, Entries;
    if columns != [] {
      var front, last := columns[..|columns| - 1], columns[|columns| - 1];
      FrequencyAtLeast(front, vocab, token);
      CountConcat(Log(front, vocab), Entries(last, vocab), token);
      OncePerItemSnoc(columns, vocab, token);
    } else {
      NoItems(vocab, token);
    }
  }

  lemma NoItems(vocab: seq<string>, token: string)
    ensures OncePerItem([], vocab, token)
  {
  }

  /**
    `token_df` is the number of documents with the token exactly when no document has it in two rows: the
    flag that should prevent counting it twice is never set.
   */
  lemma FrequencyCountsDocumentsExactly(
      global: map<string, Statistics>, columns: seq<Column>, vocab: seq<string>, token: string)
    requires KnownAll(columns, vocab) && Summarises(global, Log(columns, vocab)) && token in global
    ensures global[token].df == ItemsWith(columns, vocab, token)
       <==> OncePerItem(columns, vocab, token)
  {
    FrequencyAtLeast(columns, vocab, token);
  }

  lemma EntriesOfTwo(first: (nat, real), second: (nat, real), vocab: seq<string>)
    requires first.1 > EPS && second.1 > EPS && first.0 < |vocab| && second.0 < |vocab|
    ensures KnownRows([first, second], vocab)
    ensures Entries([first, second], vocab) == [(vocab[first.0], first.1), (vocab[second.0], second.1)]
  {
    var column: Column := [first, second];
    assert column[..1] == [first] && column[..1][..0] == [];
    EntriesOfOne(first, vocab);
    assert Entries(column, vocab) == Entries(column[..1], vocab) + [(vocab[second.0], second.1)];
  }

  lemma EntriesOfOne(row: (nat, real), vocab: seq<string>)
    requires row.1 > EPS && row.0 < |vocab|
    ensures KnownRows([row], vocab) && Entries([row], vocab) == [(vocab[row.0], row.1)]
  {
    var column: Column := [row];
    assert column[..0] == [];
    assert Entries(column, vocab) == Entries(column[..0], vocab) + [(vocab[row.0], row.1)];
  }

  lemma CountOfTwo(a: Entry, b: Entry, token: string)
    ensures CountFor([a, b], token) == (if a.0 == token then 1 else 0) + (if b.0 == token then 1 else 0)
  {
    assert [a, b][..1] == [a] && [a][..0] == [];
    assert CountFor([a], token) == if a.0 == token then 1 else 0;
  }

  /** One document with a token in two rows counts twice. */
  lemma RepeatedTokenExample()
    ensures var columns, vocab := [[(0, 1.0), (1, 1.0)]], ["a", "a"];
            KnownAll(columns, vocab)
            && CountFor(Log(columns, vocab), "a") == 2 && ItemsWith(columns, vocab, "a") == 1
  {
    var column: Column := [(0, 1.0), (1, 1.0)];
    var vocab := ["a", "a"];
    assert 1.0 > EPS;
    EntriesOfTwo((0, 1.0), (1, 1.0), vocab);
    CountOfTwo(("a", 1.0), ("a", 1.0), "a");
    OneDocument(column, vocab, "a");
  }

  lemma OneDocument(column: Column, vocab: seq<string>, token: string)
    requires KnownRows(column, vocab)
    ensures KnownAll([column], vocab)
    ensures Log([column], vocab) == Entries(column, vocab)
    ensures ItemsWith([column], vocab, token) == if CountFor(Entries(column, vocab), token) > 0 then 1 else 0
  {
    hide Entries, CountFor, KnownRows;
    assert [column][..0] == [];
    LeftUnit(Entries(column, vocab));
  }

  predicate DistinctRows(column: Column) {
    forall i, j | 0 <= i < j < |column| :: column[i].0 != column[j].0
  }

  lemma {:induction false} EntryHasRow(column: Column, vocab: seq<string>, token: string) returns (k: nat)
    requires KnownRows(column, vocab) && CountFor(Entries(column, vocab), token) > 0
    ensures k < |column| && column[k] in column && column[k].1 > EPS && vocab[column[k].0] == token
    decreases |column|
  {
    var front, last := column[..|column| - 1], column[|column| - 1];
    RightUnit(Entries(front, vocab));
    if CountFor(Entries(front, vocab), token) > 0 {
      k := EntryHasRow(front, vocab, token);
    } else {
      k := |column| - 1;
      CountConcat(Entries(front, vocab), [(vocab[last.0], last.1)], token);
    }
  }

  /** In particular for a vocabulary without repetitions, where each row occurs once in a column. */
  lemma {:induction false} InjectiveVocabularyCountsOnce(column: Column, vocab: seq<string>, token: string)
    requires KnownRows(column, vocab) && Distinct(vocab) && DistinctRows(column)
    ensures CountFor(Entries(column, vocab), token) <= 1
    decreases |column|
  {
    if column != [] {
      var front, last := column[..|column| - 1], column[|column| - 1];
      InjectiveVocabularyCountsOnce(front, vocab, token);
      RightUnit(Entries(front, vocab));
      if last.1 > EPS {
        CountConcat(Entries(front, vocab), [(vocab[last.0], last.1)], token);
        assert CountFor([(vocab[last.0], last.1)], token) == if vocab[last.0] == token then 1 else 0;
        if CountFor(Entries(front, vocab), token) > 0 {
          var k := EntryHasRow(front, vocab, token);
          OtherToken(column, vocab, k);
        }
      }
    }
  }

  lemma OtherToken(column: Column, vocab: seq<string>, k: nat)
    requires KnownRows(column, vocab) && Distinct(vocab) && DistinctRows(column) && k < |column| - 1
    requires column[k] in column && column[|column| - 1] in column
    requires column[k].1 > EPS && column[|column| - 1].1 > EPS
    ensures vocab[column[k].0] != vocab[column[|column| - 1].0]
  {
    var i, j := column[k].0, column[|column| - 1].0;
    assert i != j;
    if i < j {
      assert vocab[i] != vocab[j];
    } else {
      assert vocab[j] != vocab[i];
    }
  }

  // ---- The dictionary.

  function SumTotals(order: seq<string>, log: seq<Entry>): real {
    if order == [] then 0.0 else SumTotals(order[..|order| - 1], log) + TotalFor(log, order[|order| - 1])
  }

  lemma {:induction false} SumTotalsOfNone(order: seq<string>)
    ensures SumTotals(order, []) == 0.0
    decreases |order|
  {
    if order != [] {
      SumTotalsOfNone(order[..|order| - 1]);
    }
  }

  lemma {:induction false} SumTotalsSnoc(order: seq<string>, log: seq<Entry>)
    requires log != [] && Distinct(order)
    ensures SumTotals(order, log)
         == SumTotals(order, log[..|log| - 1]) + if log[|log| - 1].0 in order then log[|log| - 1].1 else 0.0
    decreases |order|
  {
    if order != [] {
      SumTotalsSnoc(order[..|order| - 1], log);
      assert order == order[..|order| - 1] + [order[|order| - 1]];
    }
  }

  lemma {:induction false} TotalsAddUp(order: seq<string>, log: seq<Entry>)
    requires Distinct(order) && forall k | 0 <= k < |log| :: log[k].0 in order
    ensures SumTotals(order, log) == Total(log)
    decreases |log|
  {
    if log == [] {
      SumTotalsOfNone(order);
    } else {
      SumTotalsSnoc(order, log);
      TotalsAddUp(order, log[..|log| - 1]);
    }
  }

  /** `order` walks the tokens of the global vocabulary, each once. */
  predicate Walks(order: seq<string>, global: map<string, Statistics>) {
    Distinct(order) && (forall t | t in order :: t in global) && (forall t | t in global :: t in order)
  }

  function ValueSum(entries: seq<DictionaryEntry>): real {
    if entries == [] then 0.0 else ValueSum(entries[..|entries| - 1]) + entries[|entries| - 1].value
  }

  /** The entry that the last loop appends for a token. */
  function EntryFor(global: map<string, Statistics>, globalN: real, token: string): DictionaryEntry
    requires token in global && globalN > 0.0
  {
    DictionaryEntry(token, global[token].tf.Floor, global[token].df, global[token].tf / globalN)
  }

  /** The entry on numbers: the whole part of the total, the count, and the share of the total in all weight. */
  lemma EntryMeans(global: map<string, Statistics>, log: seq<Entry>, token: string)
    requires Summarises(global, log) && token in global && Total(log) > 0.0
    ensures var e := EntryFor(global, Total(log), token);
            && e.token == token
            && e.tf as real <= TotalFor(log, token) < (e.tf + 1) as real
            && e.df == CountFor(log, token)
            && e.value * Total(log) == TotalFor(log, token)
  {
    hide Total, TotalFor, CountFor;
    ShareOf(TotalFor(log, token), Total(log));
  }

  lemma ShareOf(part: real, whole: real)
    requires whole > 0.0
    ensures part / whole * whole == part
  {
  }

  method CreateDictionary(global: map<string, Statistics>, globalN: real)
    returns (order: seq<string>, entries: seq<DictionaryEntry>)
    requires global != map[] ==> globalN > 0.0
    ensures Walks(order, global) && |entries| == |order|
    ensures order != [] ==> globalN > 0.0
    ensures forall k | 0 <= k < |order| :: entries[k] == EntryFor(global, globalN, order[k])
  {
    hide EntryFor;
    order, entries := [], [];
    var left := global.Keys;
    while left != {}
      invariant left <= global.Keys && |entries| == |order|
      invariant Distinct(order) && (forall t :: t in order <==> t in global && t !in left)
      invariant order != [] ==> globalN > 0.0
      invariant forall k | 0 <= k < |order| :: entries[k] == EntryFor(global, globalN, order[k])
      decreases |left|
    {
      var token :| token in left;
      entries := entries + [EntryFor(global, globalN, token)];
      order := order + [token];
      left := left - {token};
    }
  }

  lemma {:induction false} ValuesOfTotals(
      order: seq<string>, entries: seq<DictionaryEntry>, global: map<string, Statistics>, log: seq<Entry>)
    requires Summarises(global, log) && Total(log) > 0.0 && |entries| == |order|
    requires forall k | 0 <= k < |order| :: order[k] in global && entries[k] == EntryFor(global, Total(log), order[k])
    ensures ValueSum(entries) == SumTotals(order, log) / Total(log)
    decreases |order|
  {
    if order != [] {
      var front := order[..|order| - 1];
      ValuesOfTotals(front, entries[..|order| - 1], global, log);
      AddQuotients(SumTotals(front, log), TotalFor(log, order[|order| - 1]), Total(log));
    }
  }

  lemma {:induction false} EveryEntryCounts(log: seq<Entry>, k: nat)
    requires k < |log|
    ensures CountFor(log, log[k].0) > 0
    decreases |log|
  {
    if k < |log| - 1 {
      EveryEntryCounts(log[..|log| - 1], k);
    }
  }

  /** The token values of the dictionary are a distribution over its tokens. */
  lemma TokenValuesSumToOne(
      order: seq<string>, entries: seq<DictionaryEntry>, global: map<string, Statistics>, log: seq<Entry>)
    requires Summarises(global, log) && Total(log) > 0.0 && Walks(order, global) && |entries| == |order|
    requires forall k | 0 <= k < |order| :: entries[k] == EntryFor(global, Total(log), order[k])
    ensures ValueSum(entries) == 1.0
  {
    ValuesOfTotals(order, entries, global, log);
    forall k | 0 <= k < |log| ensures log[k].0 in order {
      EveryEntryCounts(log, k);
    }
    TotalsAddUp(order, log);
    SelfQuotient(Total(log));
  }

  /** Every occurrence weighs more than nothing, so `global_n` is positive as soon as there is a token. */
  lemma {:induction false} EntriesArePositive(column: Column, vocab: seq<string>)
    requires KnownRows(column, vocab)
    ensures forall k | 0 <= k < |Entries(column, vocab)| :: Entries(column, vocab)[k].1 > EPS
    decreases |column|
  {
    if column != [] {
      EntriesArePositive(column[..|column| - 1], vocab);
    }
  }

  lemma {:induction false} LogIsPositive(columns: seq<Column>, vocab: seq<string>)
    requires KnownAll(columns, vocab)
    ensures forall k | 0 <= k < |Log(columns, vocab)| :: Log(columns, vocab)[k].1 > EPS
    decreases |columns|
  {
    if columns != [] {
      LogIsPositive(columns[..|columns| - 1], vocab);
      EntriesArePositive(columns[|columns| - 1], vocab);
    }
  }

  lemma {:induction false} TotalIsPositive(log: seq<Entry>)
    requires forall k | 0 <= k < |log| :: log[k].1 > EPS
    ensures Total(log) >= 0.0 && (log != [] ==> Total(log) > 0.0)
    decreases |log|
  {
    if log != [] {
      TotalIsPositive(log[..|log| - 1]);
    }
  }

  lemma GlobalNIsPositive(global: map<string, Statistics>, columns: seq<Column>, vocab: seq<string>)
    requires KnownAll(columns, vocab) && Summarises(global, Log(columns, vocab))
    ensures global != map[] <==> Total(Log(columns, vocab)) > 0.0
  {
    var log := Log(columns, vocab);
    LogIsPositive(columns, vocab);
    TotalIsPositive(log);
    if log != [] {
      EveryEntryCounts(log, 0);
      assert log[0].0 in global;
    } else {
      NoTokens(global);
    }
  }

  lemma NoTokens(global: map<string, Statistics>)
    requires Summarises(global, [])
    ensures global == map[]
  {
    assert forall t :: CountFor([], t) == 0;
  }
}
