/** What the n-gram feature counts and how its weights add up. */
module NgramTheorems {
  import opened Arithmetic
  import opened Features
  import opened Sequences
  import opened Utf8
  import opened Hash
  import opened Ngrams

  // ---- Windows decompose by token.

  lemma {:induction false} WindowsAcrossSpace(a: CharSeq, b: CharSeq, n: int)
    requires n >= 1
    ensures Windows(a + [SPACE] + b, n, false) == Windows(a, n, false) + Windows(b, n, false)
    decreases |a|
  {
    var t := a + [SPACE] + b;
    if |t| >= n {
      if a == [] {
        assert t[0] == SPACE && t[..n][0] == SPACE && t[1..] == b;
        LeftUnit(Windows(b, n, false));
      } else {
        assert t[1..] == a[1..] + [SPACE] + b;
        WindowsAcrossSpace(a[1..], b, n);
        if |a| >= n {
          assert t[..n] == a[..n];
          var w := if Counted(a[..n], false) then [a[..n]] else [];
          Assoc(w, Windows(a[1..], n, false), Windows(b, n, false));
        } else {
          assert t[..n][|a|] == SPACE;
          LeftUnit(Windows(b, n, false));
        }
      }
    }
  }

  /** The tokens of a text: what lies between its spaces, possibly nothing. */
  function Tokens(chars: CharSeq): (tokens: seq<CharSeq>)
    ensures tokens != []
  {
    if chars == [] then [[]]
    else if chars[0] == SPACE then [[]] + Tokens(chars[1..])
    else var rest := Tokens(chars[1..]); [[chars[0]] + rest[0]] + rest[1..]
  }

  function JoinSpaces(tokens: seq<CharSeq>): CharSeq
    requires tokens != []
  {
    if |tokens| == 1 then tokens[0] else tokens[0] + ([SPACE] + JoinSpaces(tokens[1..]))
  }

  /** Splitting is inverse to joining with spaces, and leaves no space inside a token. */
  lemma {:induction false} TokensSplit(chars: CharSeq)
    ensures JoinSpaces(Tokens(chars)) == chars
    ensures forall t | t in Tokens(chars) :: SPACE !in t
    decreases chars
  {
    if chars != [] {
      TokensSplit(chars[1..]);
      var rest := Tokens(chars[1..]);
      HeadTail(chars);
      if chars[0] == SPACE {
        assert Tokens(chars)[1..] == rest;
        LeftUnit([SPACE] + chars[1..]);
      } else {
        assert Tokens(chars)[1..] == rest[1..];
        if |rest| > 1 {
          Assoc([chars[0]], rest[0], [SPACE] + JoinSpaces(rest[1..]));
        }
      }
    }
  }

  function Wrapped(token: CharSeq): CharSeq {
    [CARET] + (token + [DOLLAR])
  }

  function JoinWrapped(tokens: seq<CharSeq>): CharSeq
    requires tokens != []
  {
    if |tokens| == 1 then Wrapped(tokens[0]) else Wrapped(tokens[0]) + [SPACE] + JoinWrapped(tokens[1..])
  }

  /** The text with terminators is its wrapped tokens, joined with spaces. */
  lemma {:induction false} TerminatorsWrapTokens(chars: CharSeq)
    ensures JoinWrapped(Tokens(chars)) == WithTerminators(chars)
    decreases chars
  {
    if chars == [] {
      assert Wrapped([]) == [CARET] + [] + [DOLLAR];
    } else {
      TerminatorsWrapTokens(chars[1..]);
      var rest, marked := Tokens(chars[1..]), Marked(chars[1..]);
      if chars[0] == SPACE {
        assert Tokens(chars)[1..] == rest;
        SpaceMarked(marked);
      } else {
        assert Tokens(chars)[1..] == rest[1..];
        CharMarked(chars[0], marked);
        WrappedCons(chars[0], rest);
      }
    }
  }

  lemma SpaceMarked(marked: CharSeq)
    ensures Wrapped([]) + [SPACE] + ([CARET] + marked + [DOLLAR])
         == [CARET] + ([DOLLAR, SPACE, CARET] + marked) + [DOLLAR]
  {
  }

  lemma CharMarked(c: Bytes, marked: CharSeq)
    ensures [CARET] + ([c] + ([CARET] + marked + [DOLLAR])[1..]) == [CARET] + ([c] + marked) + [DOLLAR]
  {
  }

  lemma WrappedCons(c: Bytes, tokens: seq<CharSeq>)
    requires tokens != []
    ensures JoinWrapped([[c] + tokens[0]] + tokens[1..]) == [CARET] + ([c] + JoinWrapped(tokens)[1..])
  {
    var all := [[c] + tokens[0]] + tokens[1..];
    assert all[1..] == tokens[1..];
    assert Wrapped([c] + tokens[0]) == [CARET] + ([c] + Wrapped(tokens[0])[1..]);
    if |tokens| > 1 {
      Regroup(c, Wrapped(tokens[0]), JoinWrapped(tokens[1..]));
    }
  }

  lemma Regroup(c: Bytes, w: CharSeq, rest: CharSeq)
    requires w != []
    ensures [CARET] + ([c] + w[1..]) + [SPACE] + rest == [CARET] + ([c] + (w + [SPACE] + rest)[1..])
  {
  }

  /** The windows of every wrapped token, one token after the other. */
  function TokenWindows(tokens: seq<CharSeq>, n: int): seq<CharSeq> {
    if tokens == [] then [] else Windows(Wrapped(tokens[0]), n, false) + TokenWindows(tokens[1..], n)
  }

  lemma {:induction false} JoinedWindows(tokens: seq<CharSeq>, n: int)
    requires tokens != [] && n >= 1
    ensures Windows(JoinWrapped(tokens), n, false) == TokenWindows(tokens, n)
    decreases tokens
  {
    if |tokens| == 1 {
      assert TokenWindows(tokens[1..], n) == [];
      RightUnit(Windows(Wrapped(tokens[0]), n, false));
    } else {
      JoinedWindows(tokens[1..], n);
      WindowsAcrossSpace(Wrapped(tokens[0]), JoinWrapped(tokens[1..]), n);
    }
  }

  /**
    With terminators on and spaces off, the counted windows are those of the separate tokens, each
    wrapped in its terminators: no n-gram spans two tokens, and none is lost, for every size from 1.
   */
  lemma NgramsDecomposeByToken(chars: CharSeq, n: int)
    requires n >= 1
    ensures Windows(WithTerminators(chars), n, false) == TokenWindows(Tokens(chars), n)
  {
    TerminatorsWrapTokens(chars);
    JoinedWindows(Tokens(chars), n);
  }

  // ---- Which windows are counted.

  /** The `n` characters from `start` on are counted: spaces are, or none of them is the byte 0x20. */
  predicate CountedAt(chars: CharSeq, start: int, n: nat, includeSpaces: bool) {
    0 <= start <= |chars| - n && (includeSpaces || [0x20] !in chars[start..start + n])
  }

  /** `starts` are the places of the windows `ws`, from left to right. */
  ghost predicate StartAt(chars: CharSeq, n: nat, starts: seq<int>, ws: seq<CharSeq>) {
    && |starts| == |ws|
    && (forall k | 0 <= k < |starts| :: 0 <= starts[k] <= |chars| - n && ws[k] == chars[starts[k]..starts[k] + n])
    && (forall j, k | 0 <= j < k < |starts| :: starts[j] < starts[k])
  }

  /** The counted windows are exactly the slices without a space that counts, each once and in order. */
  lemma {:induction false} WindowsExactly(chars: CharSeq, n: nat, includeSpaces: bool) returns (starts: seq<int>)
    ensures StartAt(chars, n, starts, Windows(chars, n, includeSpaces))
    ensures forall start :: start in starts <==> CountedAt(chars, start, n, includeSpaces)
    decreases |chars|
  {
    if |chars| < n {
      starts := [];
    } else {
      var rest: seq<int>, first: seq<CharSeq> := [], [];
      if chars != [] {
        rest := WindowsExactly(chars[1..], n, includeSpaces);
        first := Windows(chars[1..], n, includeSpaces);
      }
      var later := seq(|rest|, k requires 0 <= k < |rest| => rest[k] + 1);
      hide Windows, StartAt;
      LaterStart(chars, n, rest, later, first);
      LaterMembers(chars, n, includeSpaces, rest, later);
      FirstWindow(chars, n, includeSpaces, first);
      if CountedAt(chars, 0, n, includeSpaces) {
        starts := [0] + later;
        ZeroStarts(chars, n, later, first);
      } else {
        starts := later;
      }
    }
  }

  lemma FirstWindow(chars: CharSeq, n: nat, includeSpaces: bool, rest: seq<CharSeq>)
    requires n <= |chars| && rest == if chars == [] then [] else Windows(chars[1..], n, includeSpaces)
    ensures Windows(chars, n, includeSpaces)
         == if CountedAt(chars, 0, n, includeSpaces) then [chars[0..0 + n]] + rest else rest
  {
    LeftUnit(rest);
    assert chars[0..n] == chars[..n];
  }

  lemma LaterStart(chars: CharSeq, n: nat, rest: seq<int>, later: seq<int>, ws: seq<CharSeq>)
    requires if chars == [] then rest == [] && ws == [] else StartAt(chars[1..], n, rest, ws)
    requires |later| == |rest| && forall k | 0 <= k < |rest| :: later[k] == rest[k] + 1
    ensures StartAt(chars, n, later, ws)
    ensures forall k | 0 <= k < |later| :: later[k] > 0
  {
    forall k | 0 <= k < |later|
      ensures 0 < later[k] <= |chars| - n && ws[k] == chars[later[k]..later[k] + n]
    {
      assert chars[1..][rest[k]..rest[k] + n] == chars[later[k]..later[k] + n];
    }
  }

  lemma ZeroStarts(chars: CharSeq, n: nat, later: seq<int>, ws: seq<CharSeq>)
    requires n <= |chars| && StartAt(chars, n, later, ws) && forall k | 0 <= k < |later| :: later[k] > 0
    ensures StartAt(chars, n, [0] + later, [chars[0..0 + n]] + ws)
  {
  }

  lemma LaterMembers(chars: CharSeq, n: nat, includeSpaces: bool, rest: seq<int>, later: seq<int>)
    requires if chars == [] then rest == []
             else forall start :: start in rest <==> CountedAt(chars[1..], start, n, includeSpaces)
    requires |later| == |rest| && forall k | 0 <= k < |rest| :: later[k] == rest[k] + 1
    ensures forall start :: start in later <==> start > 0 && CountedAt(chars, start, n, includeSpaces)
  {
    forall start ensures start in later <==> start > 0 && CountedAt(chars, start, n, includeSpaces) {
      if chars != [] && start > 0 && start <= |chars| - n {
        assert chars[1..][start - 1..start - 1 + n] == chars[start..start + n];
      }
      if start in later {
        var k :| 0 <= k < |later| && later[k] == start;
        assert rest[k] in rest;
      }
      if start - 1 in rest {
        var k :| 0 <= k < |rest| && rest[k] == start - 1;
        assert later[k] == start;
      }
    }
  }

  /** Ascending numbers that are exactly those from 0 to `count` are 0, 1, 2 and so on. */
  lemma {:induction false} AscendingIsIdentity(starts: seq<int>, count: nat)
    requires forall j, k | 0 <= j < k < |starts| :: starts[j] < starts[k]
    requires forall start :: start in starts <==> 0 <= start < count
    ensures |starts| == count && forall k | 0 <= k < count :: starts[k] == k
    decreases |starts|
  {
    if starts == [] {
      assert 0 !in starts;
    } else {
      var front, last := starts[..|starts| - 1], starts[|starts| - 1];
      assert last in starts;
      assert forall start :: start in starts <==> start in front || start == last;
      assert count - 1 in starts;
      var k :| 0 <= k < |starts| && starts[k] == count - 1;
      assert forall start :: start in front <==> 0 <= start < count - 1;
      AscendingIsIdentity(front, count - 1);
    }
  }

  /** Without a space to skip, every slice of `n` characters is a window. */
  lemma AllWindows(chars: CharSeq, n: nat, includeSpaces: bool)
    requires includeSpaces || [0x20] !in chars
    ensures var ws, count := Windows(chars, n, includeSpaces), if n <= |chars| then |chars| - n + 1 else 0;
            |ws| == count && forall k | 0 <= k < count :: ws[k] == chars[k..k + n]
  {
    var starts := WindowsExactly(chars, n, includeSpaces);
    hide Windows;
    AscendingIsIdentity(starts, if n <= |chars| then |chars| - n + 1 else 0);
  }

  /** The n-grams of one token: all slices of the token between the bytes 0x5E and 0x24. */
  lemma TokenNgrams(token: CharSeq, n: nat)
    requires [0x20] !in token && n >= 1
    ensures Wrapped(token) == [[0x5E]] + token + [[0x24]]
    ensures var ws, count := Windows(Wrapped(token), n, false), if n <= |token| + 2 then |token| + 3 - n else 0;
            |ws| == count && forall k | 0 <= k < count :: ws[k] == Wrapped(token)[k..k + n]
  {
    Assoc([[0x5E]], token, [[0x24]]);
    AllWindows(Wrapped(token), n, false);
  }

  /** The letter a, with terminators: the 2-grams are "^a" and "a$". */
  lemma LetterExample()
    ensures Windows(WithTerminators([[0x61]]), 2, false) == [[[0x5E], [0x61]], [[0x61], [0x24]]]
  {
    var chars: CharSeq := [[0x61]];
    assert Marked(chars) == [[0x61]] + Marked([]);
    assert WithTerminators(chars) == [[0x5E], [0x61], [0x24]];
    var wrapped: CharSeq := [[0x5E], [0x61], [0x24]];
    AllWindows(wrapped, 2, false);
    assert wrapped[0..2] == [[0x5E], [0x61]] && wrapped[1..3] == [[0x61], [0x24]];
    hide Windows;
  }

  /** What the settings do to a text. */
  lemma SettingsMean(p: Parameters, text: Bytes)
    requires SelfDelimiting(text) && p.size >= 1
    ensures var ws, chars := Windows(Processed(p, text), p.size, p.includeSpaces), Chars(text);
            && (p.includeTerminators && !p.includeSpaces ==> ws == TokenWindows(Tokens(chars), p.size))
            && (p.includeTerminators && p.includeSpaces ==> ws == Windows(JoinWrapped(Tokens(chars)), p.size, true))
            && (!p.includeTerminators ==> ws == Windows(chars, p.size, p.includeSpaces))
  {
    hide Windows, Tokens;
    NgramsDecomposeByToken(Chars(text), p.size);
    TerminatorsWrapTokens(Chars(text));
  }

  /** `id` is what a division of `hash` leaves. */
  predicate Leaves(hash: int, dimension: int, id: int)
    requires dimension > 0
  {
    0 <= id < dimension && hash == hash / dimension * dimension + id
  }

  predicate ProportionOf(weight: real, part: nat, whole: nat) {
    weight * whole as real == part as real
  }

  /** `f` stands for the n-gram `key`: its hash, reduced, and its share of the n-grams, or an equal share. */
  predicate StandsFor(f: FloatFeature, key: Bytes, p: Parameters, windows: seq<CharSeq>, different: nat) {
    && (p.idDimension > 0 ==> Leaves(Hash32Of(key, 0xBEEF) as int, p.idDimension, f.id))
    && (if p.useEqualWeight then ProportionOf(f.weight, 1, different)
        else ProportionOf(f.weight, CountKey(windows, key), |windows|))
  }

  /** The features of a text: one per different n-gram, and no other. */
  lemma FeaturesMean(p: Parameters, order: seq<Bytes>, counts: map<Bytes, nat>, windows: seq<CharSeq>, i: nat)
    requires IsDimension(p.idDimension) && Tallies(counts, windows) && Enumerates(order, counts.Keys)
    requires counts != map[] ==> windows != []
    requires i < |order|
    ensures var fs := FeaturesOf(p, order, counts, |windows|);
            |fs| == |order| && StandsFor(fs[i], order[i], p, windows, |fs|)
    ensures exists w :: w in windows && Flatten(w) == order[i]
    ensures forall w | w in windows :: Flatten(w) in order
  {
    hide FeatureId, Weight, Hash32Of, CountKey, Leaves, ProportionOf;
    var key := order[i];
    assert key in counts;
    CountedKeyOccurs(windows, key);
    DistinctSize(order, counts.Keys);
    if p.idDimension > 0 {
      IdMeans(key, p.idDimension);
    }
    WeightMeans(p, counts, |windows|, key);
  }

  lemma IdMeans(key: Bytes, dimension: int)
    requires IsDimension(dimension) && dimension > 0
    ensures Leaves(Hash32Of(key, 0xBEEF) as int, dimension, FeatureId(key, dimension))
  {
    hide Hash32Of, Leaves;
    RemainderLeaves(Hash32Of(key, 0xBEEF) as int, dimension);
  }

  lemma RemainderLeaves(a: nat, m: nat)
    requires m > 0
    ensures Leaves(a, m, a % m)
  {
  }

  lemma WeightMeans(p: Parameters, counts: map<Bytes, nat>, countSum: nat, key: Bytes)
    requires key in counts && countSum > 0
    ensures if p.useEqualWeight then ProportionOf(Weight(p, counts, countSum, key), 1, |counts|)
            else ProportionOf(Weight(p, counts, countSum, key), counts[key], countSum)
  {
    QuotientTimes(1.0, |counts| as real);
    QuotientTimes(counts[key] as real, countSum as real);
  }

  lemma QuotientTimes(a: real, b: real)
    requires b > 0.0
    ensures a / b * b == a
  {
  }

  lemma {:induction false} CountedKeyOccurs(windows: seq<CharSeq>, key: Bytes)
    requires CountKey(windows, key) > 0
    ensures exists w :: w in windows && Flatten(w) == key
    decreases |windows|
  {
    var front, last := windows[..|windows| - 1], windows[|windows| - 1];
    if Flatten(last) != key {
      CountedKeyOccurs(front, key);
    } else {
      assert last in windows;
    }
  }

  // ---- Keys are faithful.

  lemma {:induction false} WindowsKeepChars(chars: CharSeq, n: int, includeSpaces: bool)
    requires AllChars(chars)
    ensures forall w | w in Windows(chars, n, includeSpaces) :: AllChars(w) && |w| == n
    decreases |chars|
  {
    if chars != [] {
      WindowsKeepChars(chars[1..], n, includeSpaces);
    }
  }

  lemma {:induction false} MarkedKeepsChars(chars: CharSeq)
    requires AllChars(chars)
    ensures AllChars(Marked(chars))
    decreases chars
  {
    if chars != [] {
      MarkedKeepsChars(chars[1..]);
    }
  }

  /** The windows of a text consist of whole characters. */
  lemma ProcessedWindows(p: Parameters, text: Bytes)
    requires SelfDelimiting(text)
    ensures forall w | w in Windows(Processed(p, text), p.size, p.includeSpaces) :: AllChars(w)
  {
    CharsPartition(text);
    MarkedKeepsChars(Chars(text));
    WindowsKeepChars(Processed(p, text), p.size, p.includeSpaces);
  }

  lemma {:induction false} KeyCountsWindow(windows: seq<CharSeq>, u: CharSeq)
    requires AllChars(u) && forall w | w in windows :: AllChars(w)
    ensures CountKey(windows, Flatten(u)) == multiset(windows)[u]
    decreases |windows|
  {
    if windows != [] {
      var last, front := windows[|windows| - 1], windows[..|windows| - 1];
      KeyCountsWindow(front, u);
      assert last in windows;
      FlattenInjective(last, u);
      assert windows == front + [last];
    }
  }

  /** The count under a concatenated key is the number of occurrences of exactly that window. */
  lemma KeysAreFaithful(p: Parameters, text: Bytes, u: CharSeq)
    requires SelfDelimiting(text) && AllChars(u)
    ensures var windows := Windows(Processed(p, text), p.size, p.includeSpaces);
            CountKey(windows, Flatten(u)) == multiset(windows)[u]
  {
    ProcessedWindows(p, text);
    KeyCountsWindow(Windows(Processed(p, text), p.size, p.includeSpaces), u);
  }

  // ---- Weights are a distribution.

  function SumCounts(order: seq<Bytes>, windows: seq<CharSeq>): nat {
    if order == [] then 0
    else SumCounts(order[..|order| - 1], windows) + CountKey(windows, order[|order| - 1])
  }

  lemma {:induction false} SumCountsOfNone(order: seq<Bytes>)
    ensures SumCounts(order, []) == 0
    decreases |order|
  {
    if order != [] {
      SumCountsOfNone(order[..|order| - 1]);
    }
  }

  /** One more window adds one to the count of its key, and to no other. */
  lemma {:induction false} SumCountsSnoc(order: seq<Bytes>, windows: seq<CharSeq>)
    requires windows != [] && Distinct(order)
    ensures SumCounts(order, windows)
         == SumCounts(order, windows[..|windows| - 1]) + if Flatten(windows[|windows| - 1]) in order then 1 else 0
    decreases |order|
  {
    if order != [] {
      SumCountsSnoc(order[..|order| - 1], windows);
      assert order == order[..|order| - 1] + [order[|order| - 1]];
    }
  }

  /** Counting by key loses no window and counts none twice. */
  lemma {:induction false} CountsAddUp(order: seq<Bytes>, windows: seq<CharSeq>)
    requires Distinct(order) && forall w | w in windows :: Flatten(w) in order
    ensures SumCounts(order, windows) == |windows|
    decreases |windows|
  {
    if windows == [] {
      SumCountsOfNone(order);
    } else {
      assert windows[|windows| - 1] in windows;
      SumCountsSnoc(order, windows);
      CountsAddUp(order, windows[..|windows| - 1]);
    }
  }

  lemma {:induction false} DistinctSize(order: seq<Bytes>, keys: set<Bytes>)
    requires Enumerates(order, keys)
    ensures |order| == |keys|
    decreases |order|
  {
    if order == [] {
      assert keys == {};
    } else {
      var last := order[|order| - 1];
      DistinctSize(order[..|order| - 1], keys - {last});
    }
  }

  lemma {:induction false} ProportionalSum(
      p: Parameters, order: seq<Bytes>, counts: map<Bytes, nat>, windows: seq<CharSeq>)
    requires IsDimension(p.idDimension) && !p.useEqualWeight && windows != [] && Tallies(counts, windows)
    requires forall k | k in order :: k in counts
    ensures WeightSum(FeaturesOf(p, order, counts, |windows|)) == SumCounts(order, windows) as real / |windows| as real
    decreases |order|
  {
    hide FeatureId;
    if order != [] {
      var front, last := order[..|order| - 1], order[|order| - 1];
      var fs := FeaturesOf(p, order, counts, |windows|);
      ProportionalSum(p, front, counts, windows);
      assert fs[..|order| - 1] == FeaturesOf(p, front, counts, |windows|);
      AddFractions(SumCounts(front, windows), counts[last], |windows|);
    }
  }

  lemma {:induction false} EqualSum(
      p: Parameters, order: seq<Bytes>, counts: map<Bytes, nat>, windows: seq<CharSeq>)
    requires IsDimension(p.idDimension) && p.useEqualWeight && windows != [] && counts != map[]
    requires forall k | k in order :: k in counts
    ensures WeightSum(FeaturesOf(p, order, counts, |windows|)) == |order| as real / |counts| as real
    decreases |order|
  {
    hide FeatureId;
    if order != [] {
      var front := order[..|order| - 1];
      var fs := FeaturesOf(p, order, counts, |windows|);
      EqualSum(p, front, counts, windows);
      assert fs[..|order| - 1] == FeaturesOf(p, front, counts, |windows|);
      AddFractions(|front|, 1, |counts|);
    }
  }

  /**
    Whenever there is any n-gram, the emitted weights are positive and sum to one, in both weighting
    modes and in whatever order the hash map is walked; without n-grams nothing is emitted.
   */
  lemma WeightsAreDistribution(
      p: Parameters, order: seq<Bytes>, counts: map<Bytes, nat>, windows: seq<CharSeq>)
    requires IsDimension(p.idDimension) && Tallies(counts, windows) && Enumerates(order, counts.Keys)
    requires counts != map[] ==> windows != []
    ensures var fs := FeaturesOf(p, order, counts, |windows|);
            && (windows != [] ==> WeightSum(fs) == 1.0)
            && (windows == [] ==> fs == [])
            && (forall f | f in fs :: f.weight > 0.0 && (p.idDimension > 0 ==> f.id < p.idDimension))
  {
    if windows == [] {
      assert counts == map[];
      DistinctSize(order, counts.Keys);
    } else {
      WeightsSumToOne(p, order, counts, windows);
    }
    WeightsPositive(p, order, counts, |windows|);
  }

  lemma WeightsSumToOne(
      p: Parameters, order: seq<Bytes>, counts: map<Bytes, nat>, windows: seq<CharSeq>)
    requires IsDimension(p.idDimension) && windows != [] && Tallies(counts, windows) && Enumerates(order, counts.Keys)
    ensures WeightSum(FeaturesOf(p, order, counts, |windows|)) == 1.0
  {
    if p.useEqualWeight {
      SomeKeyOccurs(counts, windows);
      DistinctSize(order, counts.Keys);
      hide *;
      EqualSum(p, order, counts, windows);
      SelfQuotient(|counts| as real);
    } else {
      hide FeaturesOf, CountKey;
      ProportionalSum(p, order, counts, windows);
      CountsAddUp(order, windows);
      SelfQuotient(|windows| as real);
    }
  }

  lemma SomeKeyOccurs(counts: map<Bytes, nat>, windows: seq<CharSeq>)
    requires windows != [] && Tallies(counts, windows)
    ensures counts != map[] && |counts| > 0
  {
    assert windows[0] in windows && Flatten(windows[0]) in counts;
  }

  lemma WeightsPositive(p: Parameters, order: seq<Bytes>, counts: map<Bytes, nat>, countSum: nat)
    requires IsDimension(p.idDimension) && (counts != map[] ==> countSum > 0)
    requires forall k | k in order :: k in counts
    requires forall k | k in counts :: counts[k] > 0
    ensures forall f | f in FeaturesOf(p, order, counts, countSum) ::
      f.weight > 0.0 && (p.idDimension > 0 ==> f.id < p.idDimension)
  {
    forall i | 0 <= i < |order| ensures Weight(p, counts, countSum, order[i]) > 0.0 {
      assert counts[order[i]] as real / countSum as real > 0.0;
    }
  }
}
