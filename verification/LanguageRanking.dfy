/** `FindTopNMostFreqLangs` of `nnet_language_identifier.cc`, over reals. */
module LanguageRanking {
  import opened Arithmetic
  import opened Sequences

  datatype SpanInfo = SpanInfo(start: int, end: int, probability: real)

  /**
    A span of one script: its bytes in the input, its length once squeezed, and what the network makes
    of it. The prediction of a span that is skipped is never looked at.
   */
  datatype Span = Span(bytes: nat, squeezed: int, language: string, probability: real, start: int, end: int)

  datatype Result = Result(
    language: string, probability: real, isReliable: bool, proportion: real, byteRanges: seq<SpanInfo>)

  const UNKNOWN := Result("und", 0.0, false, 0.0, [])

  predicate ResultIsReliable(language: string, probability: real) {
    if language == "hr" || language == "bs" then probability >= 0.5 else probability >= 0.7
  }

  // ---- The order of the ranking.

  /** `operator<` on strings. */
  predicate LexLess(a: string, b: string) {
    if a == "" then b != ""
    else if b == "" then false
    else a[0] < b[0] || (a[0] == b[0] && LexLess(a[1..], b[1..]))
  }

  type Pair = (string, int)

  predicate OrderBySecondDescending(x: Pair, y: Pair) {
    if x.1 == y.1 then LexLess(x.0, y.0) else x.1 > y.1
  }

  lemma {:induction false} LexTotal(a: string, b: string)
    ensures a == b <==> !LexLess(a, b) && !LexLess(b, a)
    ensures !(LexLess(a, b) && LexLess(b, a))
    decreases |a|
  {
    if a != "" && b != "" {
      LexTotal(a[1..], b[1..]);
      HeadTail(a);
      HeadTail(b);
    }
  }

  lemma {:induction false} LexTransitive(a: string, b: string, c: string)
    requires LexLess(a, b) && LexLess(b, c)
    ensures LexLess(a, c)
    decreases |a|
  {
    if a != "" && a[0] == b[0] && b[0] == c[0] {
      LexTransitive(a[1..], b[1..], c[1..]);
    }
  }

  /** `a` is a proper prefix of `b`, or less at the first place where they differ. */
  predicate PrecedesAt(a: string, b: string, k: nat) {
    && k <= |a| && k < |b|
    && a[..k] == b[..k]
    && (k < |a| ==> a[k] < b[k])
  }

  lemma {:induction false} LexLessExactly(a: string, b: string)
    ensures LexLess(a, b) <==> exists k :: PrecedesAt(a, b, k)
    decreases |a|
  {
    if a == "" {
      assert b != "" ==> PrecedesAt(a, b, 0);
    } else if b != "" {
      LexLessExactly(a[1..], b[1..]);
      if a[0] < b[0] {
        assert PrecedesAt(a, b, 0);
      } else if LexLess(a, b) {
        var k :| PrecedesAt(a[1..], b[1..], k);
        PrecedesShift(a, b, k);
      }
      if k: nat :| PrecedesAt(a, b, k) && k > 0 {
        assert a[..k][0] == b[..k][0];
        PrecedesShift(a, b, k - 1);
      }
    }
  }

  lemma PrecedesShift(a: string, b: string, k: nat)
    requires a != "" && b != "" && a[0] == b[0]
    ensures PrecedesAt(a, b, k + 1) <==> PrecedesAt(a[1..], b[1..], k)
  {
    if k < |a| && k < |b| {
      Shift(a, k);
      Shift(b, k);
      assert a[..k + 1][1..] == a[1..][..k] && b[..k + 1][1..] == b[1..][..k];
    }
  }

  /** The comparator is a strict total order, as `std::sort` demands. */
  lemma OrderIsStrictAndTotal(x: Pair, y: Pair, z: Pair)
    ensures x == y <==> !OrderBySecondDescending(x, y) && !OrderBySecondDescending(y, x)
    ensures !(OrderBySecondDescending(x, y) && OrderBySecondDescending(y, x))
    ensures OrderBySecondDescending(x, y) && OrderBySecondDescending(y, z) ==> OrderBySecondDescending(x, z)
  {
    LexTotal(x.0, y.0);
    if LexLess(x.0, y.0) && LexLess(y.0, z.0) {
      LexTransitive(x.0, y.0, z.0);
    }
  }

  predicate Ranked(pairs: seq<Pair>) {
    forall i, j | 0 <= i < j < |pairs| :: OrderBySecondDescending(pairs[i], pairs[j])
  }

  /** A set of pairs can be ranked in one way only, so neither hash order nor the sort shows. */
  lemma {:induction false} RankedIsUnique(a: seq<Pair>, b: seq<Pair>)
    requires Ranked(a) && Ranked(b) && forall x :: x in a <==> x in b
    ensures a == b
    decreases |a|
  {
    FirstIsMember(a);
    FirstIsMember(b);
    if a != [] {
      OrderIsStrictAndTotal(a[0], b[0], a[0]);
      hide OrderBySecondDescending;
      forall x ensures x in a[1..] <==> x in b[1..] {
        TailMembers(a, x);
        TailMembers(b, x);
      }
      RankedIsUnique(a[1..], b[1..]);
      HeadTail(a);
      HeadTail(b);
    }
  }

  lemma FirstIsMember(a: seq<Pair>)
    ensures a == [] || a[0] in a
  {
  }

  lemma TailMembers(a: seq<Pair>, x: Pair)
    requires a != [] && Ranked(a)
    ensures x in a[1..] <==> x in a && x != a[0]
  {
    OrderIsStrictAndTotal(a[0], a[0], a[0]);
    if x in a && x != a[0] {
      var i :| 0 <= i < |a| && a[i] == x;
      assert a[1..][i - 1] == x;
    }
  }

  /** Stands for `std::sort` with the comparator. */
  method Sort(pairs: seq<Pair>) returns (sorted: seq<Pair>)
    requires Distinct(pairs)
    ensures Ranked(sorted)
    ensures forall x :: x in sorted <==> x in pairs
  {
    sorted := [];
    for i := 0 to |pairs|
      invariant Ranked(sorted)
      invariant forall x :: x in sorted <==> x in pairs[..i]
    {
      sorted := Insert(sorted, pairs[i]);
      assert pairs[..i + 1] == pairs[..i] + [pairs[i]];
    }
    assert pairs[..|pairs|] == pairs;
  }

  method Insert(sorted: seq<Pair>, p: Pair) returns (r: seq<Pair>)
    requires Ranked(sorted) && p !in sorted
    ensures Ranked(r)
    ensures forall x :: x in r <==> x in sorted || x == p
  {
    var k := 0;
    while k < |sorted| && OrderBySecondDescending(sorted[k], p)
      invariant k <= |sorted|
      invariant forall i | 0 <= i < k :: OrderBySecondDescending(sorted[i], p)
    {
      k := k + 1;
    }
    r := sorted[..k] + [p] + sorted[k..];
    InsertKeepsRanked(sorted, p, k);
    assert sorted == sorted[..k] + sorted[k..];
  }

  lemma InsertKeepsRanked(sorted: seq<Pair>, p: Pair, k: nat)
    requires Ranked(sorted) && p !in sorted && k <= |sorted|
    requires forall i | 0 <= i < k :: OrderBySecondDescending(sorted[i], p)
    requires k < |sorted| ==> !OrderBySecondDescending(sorted[k], p)
    ensures Ranked(sorted[..k] + [p] + sorted[k..])
  {
    forall i | k <= i < |sorted| ensures OrderBySecondDescending(p, sorted[i]) {
      OrderIsStrictAndTotal(sorted[k], p, p);
      OrderIsStrictAndTotal(p, sorted[k], sorted[i]);
    }
  }

  // ---- What a language gathers.

  /** The spans long enough to be considered. */
  function Kept(spans: seq<Span>, minNumBytes: int): seq<Span> {
    if spans == [] then [] else
    var last := spans[|spans| - 1];
    Kept(spans[..|spans| - 1], minNumBytes) + if last.squeezed < minNumBytes then [] else [last]
  }

  function TotalBytes(spans: seq<Span>): nat {
    if spans == [] then 0 else TotalBytes(spans[..|spans| - 1]) + spans[|spans| - 1].bytes
  }

  function ByteSum(spans: seq<Span>, language: string): nat {
    if spans == [] then 0 else
    var last := spans[|spans| - 1];
    ByteSum(spans[..|spans| - 1], language) + if last.language == language then last.bytes else 0
  }

  function Weighted(probability: real, bytes: nat): real {
    probability * bytes as real
  }

  function ProbSum(spans: seq<Span>, language: string): real {
    if spans == [] then 0.0 else
    var last := spans[|spans| - 1];
    ProbSum(spans[..|spans| - 1], language)
    + if last.language == language then Weighted(last.probability, last.bytes) else 0.0
  }

  function Ranges(spans: seq<Span>, language: string): seq<SpanInfo> {
    if spans == [] then [] else
    var last := spans[|spans| - 1];
    Ranges(spans[..|spans| - 1], language)
    + if last.language == language then [SpanInfo(last.start, last.end, last.probability)] else []
  }

  function Chunks(spans: seq<Span>, language: string): nat {
    if spans == [] then 0 else
    Chunks(spans[..|spans| - 1], language) + if spans[|spans| - 1].language == language then 1 else 0
  }

  /** `LangChunksStats` */
  datatype Stats = Stats(probSum: real, byteSum: nat, numChunks: nat, byteRanges: seq<SpanInfo>)

  function StatsOf(spans: seq<Span>, language: string): Stats {
    Stats(ProbSum(spans, language), ByteSum(spans, language), Chunks(spans, language), Ranges(spans, language))
  }

  predicate Occurs(spans: seq<Span>, language: string) {
    exists i | 0 <= i < |spans| :: spans[i].language == language
  }

  /** The languages of the spans, each once, by bytes descending and then by name. */
  ghost predicate IsRanking(ranking: seq<string>, spans: seq<Span>) {
    && (forall l :: l in ranking <==> Occurs(spans, l))
    && Ranked(Pairs(ranking, spans))
  }

  function Pairs(ranking: seq<string>, spans: seq<Span>): (pairs: seq<Pair>)
    ensures |pairs| == |ranking|
  {
    seq(|ranking|, i requires 0 <= i < |ranking| => (ranking[i], ByteSum(spans, ranking[i])))
  }

  function Names(pairs: seq<Pair>): (names: seq<string>)
    ensures |names| == |pairs|
  {
    seq(|pairs|, i requires 0 <= i < |pairs| => pairs[i].0)
  }

  /** There is only one ranking. */
  lemma RankingIsUnique(a: seq<string>, b: seq<string>, spans: seq<Span>)
    requires IsRanking(a, spans) && IsRanking(b, spans)
    ensures a == b
  {
    var p, q := Pairs(a, spans), Pairs(b, spans);
    forall x ensures x in p <==> x in q {
      PairMembers(a, spans, x);
      PairMembers(b, spans, x);
    }
    RankedIsUnique(p, q);
    forall i | 0 <= i < |a| ensures a[i] == b[i] {
      assert p[i].0 == a[i] && q[i].0 == b[i];
    }
  }

  lemma PairMembers(a: seq<string>, spans: seq<Span>, x: Pair)
    ensures x in Pairs(a, spans) <==> x.0 in a && x.1 == ByteSum(spans, x.0)
  {
    if x.0 in a && x.1 == ByteSum(spans, x.0) {
      var i :| 0 <= i < |a| && a[i] == x.0;
      assert Pairs(a, spans)[i] == x;
    }
  }

  /** On numbers: more bytes come first, and names decide between equal sums. */
  lemma MoreBytesFirst(ranking: seq<string>, spans: seq<Span>, i: nat, j: nat)
    requires IsRanking(ranking, spans) && i < j < |ranking|
    ensures ByteSum(spans, ranking[i]) >= ByteSum(spans, ranking[j])
    ensures ByteSum(spans, ranking[i]) == ByteSum(spans, ranking[j]) ==>
              exists k :: PrecedesAt(ranking[i], ranking[j], k)
  {
    var p := Pairs(ranking, spans);
    assert OrderBySecondDescending(p[i], p[j]);
    LexLessExactly(ranking[i], ranking[j]);
  }

  function ResultFor(language: string, spans: seq<Span>): Result
    requires ByteSum(spans, language) > 0 && TotalBytes(spans) > 0
  {
    var stats := StatsOf(spans, language);
    var probability := stats.probSum / stats.byteSum as real;
    Result(language, probability, ResultIsReliable(language, probability),
           stats.byteSum as real / TotalBytes(spans) as real, stats.byteRanges)
  }

  predicate AllPositive(spans: seq<Span>) {
    forall i | 0 <= i < |spans| :: spans[i].bytes > 0
  }

  lemma {:induction false} OccursPositive(spans: seq<Span>, language: string)
    requires AllPositive(spans)
    ensures Occurs(spans, language) ==> ByteSum(spans, language) > 0 && TotalBytes(spans) > 0
    decreases |spans|
  {
    if spans != [] {
      var front := spans[..|spans| - 1];
      OccursPositive(front, language);
      if Occurs(spans, language) && spans[|spans| - 1].language != language {
        var i :| 0 <= i < |spans| && spans[i].language == language;
        assert front[i].language == language;
      }
    }
  }

  /** The results: the head of the ranking, padded with unknown results. */
  ghost predicate IsAnswer(results: seq<Result>, spans: seq<Span>, numLangs: int) {
    && |results| == (if numLangs > 0 then numLangs else 0)
    && exists ranking :: IsRanking(ranking, spans) && Follows(results, ranking, spans)
  }

  ghost predicate Follows(results: seq<Result>, ranking: seq<string>, spans: seq<Span>) {
    forall i | 0 <= i < |results| :: FollowsAt(results[i], ranking, spans, i)
  }

  /** The result at place `i` is that of the `i`-th language of the ranking, or the filler after the last one. */
  ghost predicate FollowsAt(result: Result, ranking: seq<string>, spans: seq<Span>, i: nat) {
    if i < |ranking|
    then ByteSum(spans, ranking[i]) > 0 && TotalBytes(spans) > 0 && result == ResultFor(ranking[i], spans)
    else result == UNKNOWN
  }

  /** Same spans, same results: hash order plays no part. */
  lemma AnswerIsUnique(a: seq<Result>, b: seq<Result>, spans: seq<Span>, numLangs: int)
    requires IsAnswer(a, spans, numLangs) && IsAnswer(b, spans, numLangs)
    ensures a == b
  {
    var r :| IsRanking(r, spans) && Follows(a, r, spans);
    var s :| IsRanking(s, spans) && Follows(b, s, spans);
    RankingIsUnique(r, s, spans);
    hide ResultFor;
  }

  /** A result of its own, not the filler. */
  predicate Known(result: Result) {
    result.proportion > 0.0
  }

  /** What a result says of its language, in terms of the spans alone. */
  predicate Describes(r: Result, spans: seq<Span>) {
    && ByteSum(spans, r.language) > 0
    && r.proportion * TotalBytes(spans) as real == ByteSum(spans, r.language) as real
    && r.probability * ByteSum(spans, r.language) as real == ProbSum(spans, r.language)
    && (r.isReliable <==>
          r.probability >= 0.7 || ((r.language == "hr" || r.language == "bs") && r.probability >= 0.5))
    && r.byteRanges == Ranges(spans, r.language)
  }

  /** Every result is the filler or describes a language that occurs. */
  lemma ResultsMean(results: seq<Result>, spans: seq<Span>, numLangs: int, i: nat)
    requires IsAnswer(results, spans, numLangs) && i < |results|
    ensures if Known(results[i]) then Occurs(spans, results[i].language) && Describes(results[i], spans)
            else results[i] == Result("und", 0.0, false, 0.0, [])
  {
    hide Describes, IsRanking, Known, ByteSum, TotalBytes, ResultFor, Occurs;
    var ranking :| IsRanking(ranking, spans) && Follows(results, ranking, spans);
    assert FollowsAt(results[i], ranking, spans, i);
    hide Follows;
    if i < |ranking| {
      RankedOccurs(ranking, spans, i);
      ResultForMeans(ranking[i], spans);
    } else {
      FillerIsUnknown();
    }
  }

  lemma FillerIsUnknown()
    ensures !Known(UNKNOWN)
  {
  }

  lemma RankedOccurs(ranking: seq<string>, spans: seq<Span>, i: nat)
    requires IsRanking(ranking, spans) && i < |ranking|
    ensures Occurs(spans, ranking[i])
  {
    assert ranking[i] in ranking;
  }

  lemma ResultForMeans(l: string, spans: seq<Span>)
    requires ByteSum(spans, l) > 0 && TotalBytes(spans) > 0
    ensures var r := ResultFor(l, spans);
            r.language == l && Known(r) && Describes(r, spans)
  {
    hide ByteSum, TotalBytes, ProbSum, Ranges, Chunks;
    QuotientTimes(ByteSum(spans, l) as real, TotalBytes(spans) as real);
    QuotientTimes(ProbSum(spans, l), ByteSum(spans, l) as real);
  }

  lemma QuotientTimes(a: real, b: real)
    requires b > 0.0
    ensures a / b * b == a
    ensures a > 0.0 ==> a / b > 0.0
  {
  }

  predicate HasNoResult(results: seq<Result>, language: string) {
    forall j | 0 <= j < |results| && Known(results[j]) :: results[j].language != language
  }

  /**
    The results are those of the languages with the most bytes, in order: a later result, or a language
    that occurs and has no result, has no more bytes than an earlier one.
   */
  lemma MostBytesWin(results: seq<Result>, spans: seq<Span>, numLangs: int, i: nat)
    requires IsAnswer(results, spans, numLangs) && i < |results|
    ensures forall j | i < j < |results| && Known(results[j]) ::
      && Known(results[i])
      && results[j].language != results[i].language
      && ByteSum(spans, results[j].language) <= ByteSum(spans, results[i].language)
    ensures forall l | Occurs(spans, l) && HasNoResult(results, l) ::
      Known(results[i]) && ByteSum(spans, l) <= ByteSum(spans, results[i].language)
  {
    var ranking :| IsRanking(ranking, spans) && Follows(results, ranking, spans);
    hide IsRanking, ResultFor, Describes;
    forall j | 0 <= j < |results|
      ensures if j < |ranking| then Known(results[j]) && results[j].language == ranking[j] else !Known(results[j])
    {
      assert FollowsAt(results[j], ranking, spans, j);
      if j < |ranking| {
        ResultForMeans(ranking[j], spans);
      }
    }
    forall j | i < j < |results| && Known(results[j])
      ensures Known(results[i]) && results[j].language != results[i].language
      ensures ByteSum(spans, results[j].language) <= ByteSum(spans, results[i].language)
    {
      MoreBytesFirst(ranking, spans, i, j);
      RankingConservesBytes(ranking, spans);
    }
    forall l | Occurs(spans, l) && HasNoResult(results, l)
      ensures Known(results[i]) && ByteSum(spans, l) <= ByteSum(spans, results[i].language)
    {
      var k := PlaceOf(ranking, spans, l);
      if k < |results| {
        assert false;
      }
      MoreBytesFirst(ranking, spans, i, k);
    }
  }

  lemma PlaceOf(ranking: seq<string>, spans: seq<Span>, l: string) returns (k: nat)
    requires IsRanking(ranking, spans) && Occurs(spans, l)
    ensures k < |ranking| && ranking[k] == l
  {
    assert l in ranking;
    k :| 0 <= k < |ranking| && ranking[k] == l;
  }

  /** The spans considered are those of at least the minimal length, each as often as it occurs. */
  lemma {:induction false} KeptExactly(spans: seq<Span>, minNumBytes: int, s: Span)
    ensures multiset(Kept(spans, minNumBytes))[s] == if s.squeezed >= minNumBytes then multiset(spans)[s] else 0
    decreases |spans|
  {
    if spans != [] {
      var front, last := spans[..|spans| - 1], spans[|spans| - 1];
      assert spans == front + [last];
      KeptExactly(front, minNumBytes, s);
    }
  }

  /** One byte range per chunk of the language, in the order of the chunks. */
  lemma {:induction false} RangesExactly(spans: seq<Span>, language: string, i: nat)
    requires i < |spans| && spans[i].language == language
    ensures |Ranges(spans, language)| == Chunks(spans, language)
    ensures var k := Chunks(spans[..i], language);
            && k < |Ranges(spans, language)|
            && var r := Ranges(spans, language)[k];
               r.start == spans[i].start && r.end == spans[i].end && r.probability == spans[i].probability
    decreases |spans|
  {
    var front := spans[..|spans| - 1];
    RangesCount(front, language);
    if i < |front| {
      RangesExactly(front, language, i);
      assert front[..i] == spans[..i];
    } else {
      assert front == spans[..i];
    }
  }

  lemma {:induction false} RangesCount(spans: seq<Span>, language: string)
    ensures |Ranges(spans, language)| == Chunks(spans, language)
    decreases |spans|
  {
    if spans != [] {
      RangesCount(spans[..|spans| - 1], language);
    }
  }

  // ---- The loops.

  /** The table holds the statistics of exactly the languages that occur. */
  ghost predicate Gathers(table: map<string, Stats>, spans: seq<Span>) {
    && (forall l :: l in table <==> Occurs(spans, l))
    && (forall l | l in table :: table[l] == StatsOf(spans, l))
  }

  method GatherStats(spans: seq<Span>, minNumBytes: int) returns (table: map<string, Stats>, totalNumBytes: nat)
    ensures Gathers(table, Kept(spans, minNumBytes))
    ensures totalNumBytes == TotalBytes(Kept(spans, minNumBytes))
  {
    hide Gathers, Occurs, StatsOf;
    table := map[];
    totalNumBytes := 0;
    NothingGathered();
    for i := 0 to |spans|
      invariant Gathers(table, Kept(spans[..i], minNumBytes))
      invariant totalNumBytes == TotalBytes(Kept(spans[..i], minNumBytes))
    {
      var s := spans[i];
      assert spans[..i + 1][..i] == spans[..i];
      ghost var before := Kept(spans[..i], minNumBytes);
      if s.squeezed < minNumBytes {
        RightUnit(before);
        continue;
      }
      totalNumBytes := totalNumBytes + s.bytes;
      GatherOne(table, before, s);
      var stats := if s.language in table then table[s.language] else Stats(0.0, 0, 0, []);
      stats := stats.(byteSum := stats.byteSum + s.bytes);
      stats := stats.(probSum := stats.probSum + Weighted(s.probability, s.bytes));
      stats := stats.(numChunks := stats.numChunks + 1);
      stats := stats.(byteRanges := stats.byteRanges + [SpanInfo(s.start, s.end, s.probability)]);
      table := table[s.language := stats];
    }
    assert spans[..|spans|] == spans;
  }

  lemma NothingGathered()
    ensures Gathers(map[], [])
  {
  }

  lemma GatherOne(table: map<string, Stats>, spans: seq<Span>, s: Span)
    requires Gathers(table, spans)
    ensures var stats := if s.language in table then table[s.language] else Stats(0.0, 0, 0, []);
            var extended := Stats(stats.probSum + Weighted(s.probability, s.bytes), stats.byteSum + s.bytes,
                              stats.numChunks + 1, stats.byteRanges + [SpanInfo(s.start, s.end, s.probability)]);
            Gathers(table[s.language := extended], spans + [s])
    ensures TotalBytes(spans + [s]) == TotalBytes(spans) + s.bytes
  {
    var all := spans + [s];
    assert all[..|spans|] == spans && all[|spans|] == s;
    if s.language !in table {
      AbsentStats(spans, s.language);
    }
    forall l ensures Occurs(all, l) <==> Occurs(spans, l) || l == s.language {
      if Occurs(spans, l) {
        var i :| 0 <= i < |spans| && spans[i].language == l;
        assert all[i].language == l;
      }
      assert all[|spans|].language == s.language;
    }
    forall l | l != s.language ensures StatsOf(all, l) == StatsOf(spans, l) {
      RightUnit(Ranges(spans, l));
    }
  }

  lemma {:induction false} AbsentStats(spans: seq<Span>, language: string)
    requires !Occurs(spans, language)
    ensures StatsOf(spans, language) == Stats(0.0, 0, 0, [])
    decreases |spans|
  {
    if spans != [] {
      var front := spans[..|spans| - 1];
      assert spans[|spans| - 1].language != language;
      assert forall i | 0 <= i < |front| :: front[i].language == spans[i].language;
      AbsentStats(front, language);
    }
  }

  /** `spans` are those before the first byte that is not valid; all have at least a byte. */
  method FindTopNMostFreqLangs(spans: seq<Span>, numValidBytes: nat, minNumBytes: int, numLangs: int)
    returns (results: seq<Result>)
    requires AllPositive(spans) && (numValidBytes == 0 ==> spans == [])
    ensures IsAnswer(results, Kept(spans, minNumBytes), numLangs)
  {
    hide Follows, FollowsAt, IsRanking, Gathers, Kept, AllPositive, TotalBytes;
    results := [];
    if numValidBytes == 0 {
      KeptOfNone(minNumBytes);
      results := Pad([], numLangs);
      EmptyAnswer(results, numLangs);
      return;
    }
    var table, totalNumBytes := GatherStats(spans, minNumBytes);
    ghost var kept := Kept(spans, minNumBytes);
    KeptPositive(spans, minNumBytes);
    var pairs := RankLanguages(table, kept);
    ghost var ranking := Names(pairs);
    var numLangsToSave := if numLangs < |pairs| then numLangs else |pairs|;
    results := SaveResults(pairs, table, totalNumBytes, numLangsToSave, ranking, kept);
    ghost var saved := results;
    results := Pad(results, numLangs - |pairs|);
    assert results[..|saved|] == saved;
    PaddedFollows(results, if numLangsToSave > 0 then numLangsToSave else 0, ranking, kept);
  }

  lemma KeptOfNone(minNumBytes: int)
    ensures Kept([], minNumBytes) == []
  {
  }

  lemma PaddedFollows(results: seq<Result>, n: nat, ranking: seq<string>, spans: seq<Span>)
    requires n <= |results| && n <= |ranking| && (n < |results| ==> n == |ranking|)
    requires Follows(results[..n], ranking, spans)
    requires forall i | n <= i < |results| :: results[i] == UNKNOWN
    ensures Follows(results, ranking, spans)
  {
    hide ResultFor, ByteSum, TotalBytes;
    forall i | 0 <= i < |results| ensures FollowsAt(results[i], ranking, spans, i) {
      if i < n {
        assert results[..n][i] == results[i];
      } else {
        assert results[i] == UNKNOWN;
      }
    }
  }

  /** The loop that builds the results of the first languages of the ranking. */
  method SaveResults(pairs: seq<Pair>, table: map<string, Stats>, totalNumBytes: nat, numLangsToSave: int,
                     ghost ranking: seq<string>, ghost spans: seq<Span>)
    returns (results: seq<Result>)
    requires Gathers(table, spans) && AllPositive(spans) && totalNumBytes == TotalBytes(spans)
    requires numLangsToSave <= |pairs| == |ranking|
    requires forall i | 0 <= i < |pairs| :: pairs[i].0 in table && pairs[i].0 == ranking[i]
    ensures |results| == if numLangsToSave > 0 then numLangsToSave else 0
    ensures Follows(results, ranking, spans)
  {
    results := [];
    var index := 0;
    while index < numLangsToSave
      invariant 0 <= index && (index == 0 || index <= numLangsToSave)
      invariant |results| == index <= |ranking|
      invariant Follows(results, ranking, spans)
    {
      var language := pairs[index].0;
      var stats := table[language];
      OccursPositive(spans, language);
      var probability := stats.probSum / stats.byteSum as real;
      results := results + [Result(language, probability, ResultIsReliable(language, probability),
                                   stats.byteSum as real / totalNumBytes as real, stats.byteRanges)];
      index := index + 1;
    }
  }

  method Pad(before: seq<Result>, n: int) returns (results: seq<Result>)
    ensures |results| == |before| + if n > 0 then n else 0
    ensures before <= results
    ensures forall i | |before| <= i < |results| :: results[i] == UNKNOWN
  {
    results := before;
    var left := n;
    while left > 0
      invariant left <= n && |results| == |before| + (if n > 0 then n - left else 0)
      invariant n > 0 ==> left >= 0
      invariant before <= results
      invariant forall i | |before| <= i < |results| :: results[i] == UNKNOWN
    {
      results := results + [UNKNOWN];
      left := left - 1;
    }
  }

  lemma EmptyAnswer(results: seq<Result>, numLangs: int)
    requires |results| == (if numLangs > 0 then numLangs else 0)
    requires forall i | 0 <= i < |results| :: results[i] == UNKNOWN
    ensures IsAnswer(results, [], numLangs)
  {
    assert IsRanking([], []) && Follows(results, [], []);
  }

  lemma {:induction false} KeptPositive(spans: seq<Span>, minNumBytes: int)
    requires AllPositive(spans)
    ensures AllPositive(Kept(spans, minNumBytes))
    decreases |spans|
  {
    if spans != [] {
      KeptPositive(spans[..|spans| - 1], minNumBytes);
    }
  }

  /** Collects the entries of the table in hash order and sorts them. */
  method RankLanguages(table: map<string, Stats>, ghost spans: seq<Span>) returns (sorted: seq<Pair>)
    requires Gathers(table, spans)
    ensures IsRanking(Names(sorted), spans)
    ensures forall i | 0 <= i < |sorted| :: sorted[i].0 in table
  {
    var pairs: seq<Pair> := [];
    var left := table.Keys;
    while left != {}
      invariant left <= table.Keys
      invariant forall p: Pair :: p in pairs <==> p.0 in table && p.0 !in left && p.1 == table[p.0].byteSum
      invariant Distinct(pairs)
      decreases |left|
    {
      var l :| l in left;
      pairs := pairs + [(l, table[l].byteSum)];
      left := left - {l};
    }
    sorted := Sort(pairs);
    SortedIsRanking(table, spans, sorted, Names(sorted));
  }

  lemma SortedIsRanking(table: map<string, Stats>, spans: seq<Span>, sorted: seq<Pair>, ranking: seq<string>)
    requires Gathers(table, spans) && Ranked(sorted) && |ranking| == |sorted|
    requires forall p: Pair :: p in sorted <==> p.0 in table && p.1 == table[p.0].byteSum
    requires forall i | 0 <= i < |sorted| :: ranking[i] == sorted[i].0
    ensures IsRanking(ranking, spans)
    ensures forall i | 0 <= i < |sorted| :: sorted[i].0 in table
  {
    forall i | 0 <= i < |sorted| ensures sorted[i].0 in table && Pairs(ranking, spans)[i] == sorted[i] {
      assert sorted[i] in sorted;
    }
    assert Pairs(ranking, spans) == sorted;
    forall l ensures l in ranking <==> Occurs(spans, l) {
      if l in table {
        var p: Pair := (l, table[l].byteSum);
        assert p in sorted;
        var i :| 0 <= i < |sorted| && sorted[i] == p;
        assert ranking[i] == l;
      }
    }
  }

  // ---- Bytes are conserved.

  function RankedBytes(ranking: seq<string>, spans: seq<Span>): nat {
    if ranking == [] then 0
    else RankedBytes(ranking[..|ranking| - 1], spans) + ByteSum(spans, ranking[|ranking| - 1])
  }

  lemma {:induction false} RankedBytesOfNone(ranking: seq<string>)
    ensures RankedBytes(ranking, []) == 0
    decreases |ranking|
  {
    if ranking != [] {
      RankedBytesOfNone(ranking[..|ranking| - 1]);
    }
  }

  lemma {:induction false} RankedBytesSnoc(ranking: seq<string>, spans: seq<Span>)
    requires spans != [] && Distinct(ranking)
    ensures var last := spans[|spans| - 1];
            RankedBytes(ranking, spans)
            == RankedBytes(ranking, spans[..|spans| - 1]) + if last.language in ranking then last.bytes else 0
    decreases |ranking|
  {
    if ranking != [] {
      RankedBytesSnoc(ranking[..|ranking| - 1], spans);
      assert ranking == ranking[..|ranking| - 1] + [ranking[|ranking| - 1]];
    }
  }

  lemma {:induction false} BytesAddUp(ranking: seq<string>, spans: seq<Span>)
    requires Distinct(ranking) && forall i | 0 <= i < |spans| :: spans[i].language in ranking
    ensures RankedBytes(ranking, spans) == TotalBytes(spans)
    decreases |spans|
  {
    if spans == [] {
      RankedBytesOfNone(ranking);
    } else {
      RankedBytesSnoc(ranking, spans);
      BytesAddUp(ranking, spans[..|spans| - 1]);
    }
  }

  /** The byte sums of the languages add up to the bytes of all spans considered. */
  lemma RankingConservesBytes(ranking: seq<string>, spans: seq<Span>)
    requires IsRanking(ranking, spans)
    ensures Distinct(ranking)
    ensures RankedBytes(ranking, spans) == TotalBytes(spans)
  {
    forall i, j | 0 <= i < j < |ranking| ensures ranking[i] != ranking[j] {
      var p := Pairs(ranking, spans);
      OrderIsStrictAndTotal(p[i], p[j], p[i]);
      assert OrderBySecondDescending(p[i], p[j]);
    }
    assert forall i | 0 <= i < |spans| :: Occurs(spans, spans[i].language);
    BytesAddUp(ranking, spans);
  }

  function ProportionSum(results: seq<Result>): real {
    if results == [] then 0.0 else ProportionSum(results[..|results| - 1]) + results[|results| - 1].proportion
  }

  lemma {:induction false} ProportionsOfHead(results: seq<Result>, ranking: seq<string>, spans: seq<Span>)
    requires Follows(results, ranking, spans) && TotalBytes(spans) > 0
    ensures ProportionSum(results)
         == RankedBytes(ranking[..Min(|results|, |ranking|)], spans) as real / TotalBytes(spans) as real
    decreases |results|
  {
    hide ByteSum;
    if results != [] {
      var k := |results| - 1;
      ProportionsOfHead(results[..k], ranking, spans);
      if k < |ranking| {
        assert ranking[..k + 1][..k] == ranking[..k];
        AddFractions(RankedBytes(ranking[..k], spans), ByteSum(spans, ranking[k]), TotalBytes(spans));
      }
    }
  }

  lemma {:induction false} HeadBytes(ranking: seq<string>, spans: seq<Span>, k: nat)
    requires k <= |ranking|
    ensures RankedBytes(ranking[..k], spans) <= RankedBytes(ranking, spans)
    decreases |ranking| - k
  {
    if k < |ranking| {
      assert ranking[..k + 1][..k] == ranking[..k];
      HeadBytes(ranking, spans, k + 1);
    } else {
      assert ranking[..k] == ranking;
    }
  }

  /** The proportions sum to at most one, and to one when every language has its place. */
  lemma ProportionsSumToOne(results: seq<Result>, ranking: seq<string>, spans: seq<Span>)
    requires IsRanking(ranking, spans) && Follows(results, ranking, spans) && TotalBytes(spans) > 0
    ensures ProportionSum(results) <= 1.0
    ensures |results| >= |ranking| ==> ProportionSum(results) == 1.0
  {
    RankingConservesBytes(ranking, spans);
    ProportionsOfHead(results, ranking, spans);
    HeadBytes(ranking, spans, Min(|results|, |ranking|));
    assert ranking[..|ranking|] == ranking;
    AtMostOne(RankedBytes(ranking[..Min(|results|, |ranking|)], spans), TotalBytes(spans));
  }

  lemma AtMostOne(a: nat, b: nat)
    requires b > 0 && a <= b
    ensures a as real / b as real <= 1.0
    ensures a == b ==> a as real / b as real == 1.0
  {
  }

  /** `sum` is what chunks of `bytes` in all contribute when their probabilities lie in an interval. */
  predicate Between(low: real, high: real, bytes: nat, sum: real) {
    Weighted(low, bytes) <= sum <= Weighted(high, bytes)
  }

  /** Each probability is a mean of the chunks' probabilities, weighted by their bytes. */
  lemma ProbabilityIsWeightedMean(language: string, spans: seq<Span>, low: real, high: real)
    requires ByteSum(spans, language) > 0 && TotalBytes(spans) > 0
    requires forall i | 0 <= i < |spans| && spans[i].language == language :: low <= spans[i].probability <= high
    ensures Weighted(ResultFor(language, spans).probability, ByteSum(spans, language)) == ProbSum(spans, language)
    ensures low <= ResultFor(language, spans).probability <= high
  {
    hide Between, Weighted;
    ProbSumBetween(language, spans, low, high);
    QuotientBetween(ProbSum(spans, language), ByteSum(spans, language), low, high);
  }

  lemma QuotientBetween(p: real, b: nat, low: real, high: real)
    requires b > 0 && Between(low, high, b, p)
    ensures Weighted(p / b as real, b) == p && low <= p / b as real <= high
  {
    var q := p / b as real;
    assert q * b as real == p;
    ProductOrder(q, low, b as real);
    ProductOrder(high, q, b as real);
  }

  lemma ProductOrder(x: real, y: real, b: real)
    requires b > 0.0
    ensures x < y ==> x * b < y * b
  {
  }

  lemma {:induction false} ProbSumBetween(language: string, spans: seq<Span>, low: real, high: real)
    requires forall i | 0 <= i < |spans| && spans[i].language == language :: low <= spans[i].probability <= high
    ensures Between(low, high, ByteSum(spans, language), ProbSum(spans, language))
    decreases |spans|
  {
    hide Between, Weighted;
    if spans == [] {
      NothingBetween(low, high);
    } else {
      var last, front := spans[|spans| - 1], spans[..|spans| - 1];
      ProbSumBetween(language, front, low, high);
      if last.language == language {
        OneMoreBetween(low, last.probability, high, ByteSum(front, language), last.bytes, ProbSum(front, language));
      }
    }
  }

  lemma NothingBetween(low: real, high: real)
    ensures Between(low, high, 0, 0.0)
  {
  }

  lemma OneMoreBetween(low: real, p: real, high: real, a: nat, b: nat, before: real)
    requires low <= p <= high && Between(low, high, a, before)
    ensures Between(low, high, a + b, before + Weighted(p, b))
  {
    var x, y := a as real, b as real;
    Products(low, p, high, y);
    Distribute(low, x, y);
    Distribute(high, x, y);
    assert (a + b) as real == x + y;
  }

  lemma Products(low: real, p: real, high: real, b: real)
    requires low <= p <= high && b >= 0.0
    ensures low * b <= p * b <= high * b
  {
  }

  lemma Distribute(x: real, a: real, b: real)
    ensures x * (a + b) == x * a + x * b
  {
  }
}
