/** `ContinuousBagOfNgramsFunction::Evaluate` of `language_identifier_features.cc`, over reals. */
module Ngrams {
  import opened Features
  import opened Sequences
  import opened Utf8
  import opened Hash

  const CARET: Bytes := [0x5E]
  const DOLLAR: Bytes := [0x24]
  const SPACE: Bytes := [0x20]

  type CharSeq = seq<Bytes>

  datatype Parameters = Parameters(
    includeTerminators: bool, includeSpaces: bool, useEqualWeight: bool, idDimension: int, size: int)

  // ---- Terminators.

  function Marked(chars: CharSeq): CharSeq {
    if chars == [] then []
    else (if chars[0] == SPACE then [DOLLAR, SPACE, CARET] else [chars[0]]) + Marked(chars[1..])
  }

  function WithTerminators(chars: CharSeq): CharSeq {
    [CARET] + Marked(chars) + [DOLLAR]
  }

  method AddTerminators(chars: CharSeq) returns (newChars: CharSeq)
    ensures newChars == WithTerminators(chars)
  {
    newChars := [CARET];
    for i := 0 to |chars|
      invariant newChars + Marked(chars[i..]) == [CARET] + Marked(chars)
    {
      ghost var before, rest := newChars, Marked(chars[i + 1..]);
      assert chars[i..][1..] == chars[i + 1..];
      if chars[i] == SPACE {
        newChars := newChars + [DOLLAR];
        newChars := newChars + [SPACE];
        newChars := newChars + [CARET];
        assert newChars == before + [DOLLAR, SPACE, CARET];
        Assoc(before, [DOLLAR, SPACE, CARET], rest);
      } else {
        newChars := newChars + [chars[i]];
        Assoc(before, [chars[i]], rest);
      }
    }
    RightUnit(newChars);
    newChars := newChars + [DOLLAR];
  }

  // ---- Windows.

  predicate Counted(window: CharSeq, includeSpaces: bool) {
    includeSpaces || SPACE !in window
  }

  /** The counted windows of `n` characters, from left to right. */
  function Windows(chars: CharSeq, n: int, includeSpaces: bool): seq<CharSeq>
    decreases |chars|
  {
    if n < 0 || |chars| < n then [] else
    (if Counted(chars[..n], includeSpaces) then [chars[..n]] else [])
    + if chars == [] then [] else Windows(chars[1..], n, includeSpaces)
  }

  /** Number of windows with a given concatenated key. */
  function CountKey(windows: seq<CharSeq>, key: Bytes): nat {
    if windows == [] then 0
    else CountKey(windows[..|windows| - 1], key) + if Flatten(windows[|windows| - 1]) == key then 1 else 0
  }

  /** The table holds the number of windows of every key that occurs, and no other key. */
  predicate Tallies(counts: map<Bytes, nat>, windows: seq<CharSeq>) {
    && (forall key | key in counts :: counts[key] == CountKey(windows, key) > 0)
    && (forall w | w in windows :: Flatten(w) in counts)
  }

  lemma TallyOne(counts: map<Bytes, nat>, windows: seq<CharSeq>, w: CharSeq)
    requires Tallies(counts, windows)
    ensures var key := Flatten(w);
            Tallies(counts[key := (if key in counts then counts[key] else 0) + 1], windows + [w])
  {
    var key, all := Flatten(w), windows + [w];
    assert all[..|windows|] == windows;
    if key !in counts {
      CountOfAbsent(windows, key);
    }
    hide Flatten;
    forall v | v in all ensures v in windows || v == w {
    }
  }

  lemma {:induction false} CountOfAbsent(windows: seq<CharSeq>, key: Bytes)
    requires forall w | w in windows :: Flatten(w) != key
    ensures CountKey(windows, key) == 0
    decreases |windows|
  {
    if windows != [] {
      assert windows[|windows| - 1] in windows;
      CountOfAbsent(windows[..|windows| - 1], key);
    }
  }

  /** The two loops that find the n-gram counts. */
  method CountNgrams(chars: CharSeq, n: int, includeSpaces: bool)
    returns (counts: map<Bytes, nat>, countSum: nat, ghost seen: seq<CharSeq>)
    ensures seen == Windows(chars, n, includeSpaces)
    ensures Tallies(counts, Windows(chars, n, includeSpaces))
    ensures countSum == |Windows(chars, n, includeSpaces)|
  {
    counts, countSum, seen := map[], 0, [];
    var start := 0;
    while start <= |chars| - n
      invariant n < 0 ==> seen == []
      invariant n >= 0 ==> start <= |chars| + 1
      invariant n >= 0 ==> seen + WindowsFrom(chars, start, n, includeSpaces) == Windows(chars, n, includeSpaces)
      invariant Tallies(counts, seen) && countSum == |seen|
      decreases |chars| - n - start
    {
      var ngram, index := CollectNgram(chars, start, n, includeSpaces);
      if n >= 0 {
        WindowsFromStep(chars, start, n, includeSpaces);
      }
      if index == n {
        TallyOne(counts, seen, chars[start..start + n]);
        counts := counts[ngram := (if ngram in counts then counts[ngram] else 0) + 1];
        countSum := countSum + 1;
        Append(seen, chars[start..start + n], WindowsFrom(chars, start + 1, n, includeSpaces));
        seen := seen + [chars[start..start + n]];
      }
      start := start + 1;
    }
    RightUnit(seen);
  }

  function WindowsFrom(chars: CharSeq, start: nat, n: int, includeSpaces: bool): seq<CharSeq> {
    if start <= |chars| then Windows(chars[start..], n, includeSpaces) else []
  }

  lemma WindowsFromStep(chars: CharSeq, start: nat, n: nat, includeSpaces: bool)
    requires start + n <= |chars|
    ensures var w, rest := chars[start..start + n], WindowsFrom(chars, start + 1, n, includeSpaces);
            WindowsFrom(chars, start, n, includeSpaces)
            == if Counted(w, includeSpaces) then [w] + rest else rest
  {
    assert chars[start..][..n] == chars[start..start + n];
    if start < |chars| {
      assert chars[start..][1..] == chars[start + 1..];
    }
    LeftUnit(WindowsFrom(chars, start + 1, n, includeSpaces));
  }

  /** The inner loop: stops at a space that is not to be included. */
  method CollectNgram(chars: CharSeq, start: nat, n: int, includeSpaces: bool) returns (ngram: Bytes, index: int)
    requires start + n <= |chars|
    ensures n < 0 ==> index != n
    ensures n >= 0 ==> (index == n <==> Counted(chars[start..start + n], includeSpaces))
    ensures n >= 0 && index == n ==> ngram == Flatten(chars[start..start + n])
  {
    ngram := [];
    index := 0;
    while index < n
      invariant 0 <= index && (n >= 0 ==> index <= n)
      invariant index <= n ==> Counted(chars[start..start + index], includeSpaces)
      invariant index <= n ==> ngram == Flatten(chars[start..start + index])
      decreases n - index
    {
      var current := chars[start + index];
      if current == SPACE && !includeSpaces {
        if n >= 0 {
          assert chars[start..start + n][index] == SPACE;
        }
        return;
      }
      FlattenSnoc(chars[start..start + index], current);
      assert chars[start..start + index + 1] == chars[start..start + index] + [current];
      ngram := ngram + current;
      index := index + 1;
    }
  }

  lemma {:induction false} FlattenSnoc(cs: CharSeq, c: Bytes)
    ensures Flatten(cs + [c]) == Flatten(cs) + c
    decreases |cs|
  {
    if cs == [] {
      assert [] + [c] == [c];
      RightUnit(c);
      LeftUnit(c);
    } else {
      assert (cs + [c])[1..] == cs[1..] + [c];
      FlattenSnoc(cs[1..], c);
      Assoc(cs[0], Flatten(cs[1..]), c);
    }
  }

  // ---- The feature vector.

  /** The dimension as the operand of an unsigned remainder; zero would be an undefined division. */
  predicate IsDimension(dimension: int) {
    -0x8000_0000 <= dimension < 0x8000_0000 && dimension != 0
  }

  function Modulus(dimension: int): (m: nat)
    requires IsDimension(dimension)
    ensures m > 0
  {
    if dimension > 0 then dimension else dimension + 0x1_0000_0000
  }

  function FeatureId(key: Bytes, dimension: int): (id: nat)
    requires IsDimension(dimension)
    ensures dimension > 0 ==> id < dimension
    ensures id < 0x1_0000_0000
  {
    (Hash32Of(key, 0xBEEF) as int) % Modulus(dimension)
  }

  /** `order` walks the keys of the table, each once. */
  predicate Enumerates(order: seq<Bytes>, keys: set<Bytes>) {
    && (forall k | k in order :: k in keys)
    && (forall k | k in keys :: k in order)
    && Distinct(order)
  }

  function Weight(p: Parameters, counts: map<Bytes, nat>, countSum: nat, key: Bytes): real
    requires key in counts && countSum > 0
  {
    if p.useEqualWeight then 1.0 / |counts| as real else counts[key] as real / countSum as real
  }

  function FeaturesOf(p: Parameters, order: seq<Bytes>, counts: map<Bytes, nat>, countSum: nat): seq<FloatFeature>
    requires IsDimension(p.idDimension)
    requires forall k | k in order :: k in counts
    requires counts != map[] ==> countSum > 0
  {
    seq(|order|, i requires 0 <= i < |order| =>
      FloatFeature(FeatureId(order[i], p.idDimension), Weight(p, counts, countSum, order[i])))
  }

  /** The characters that are counted. */
  function Processed(p: Parameters, text: Bytes): CharSeq
    requires SelfDelimiting(text)
  {
    if p.includeTerminators then WithTerminators(Chars(text)) else Chars(text)
  }

  /** `order` is the order in which the hash map happens to be walked. */
  method Evaluate(p: Parameters, text: Bytes)
    returns (order: seq<Bytes>, counts: map<Bytes, nat>, result: seq<FloatFeature>)
    requires SelfDelimiting(text) && IsDimension(p.idDimension)
    ensures var windows := Windows(Processed(p, text), p.size, p.includeSpaces);
            && Tallies(counts, windows)
            && Enumerates(order, counts.Keys)
            && (counts != map[] ==> windows != [])
            && result == FeaturesOf(p, order, counts, |windows|)
  {
    var chars := GetUTF8Chars(text);
    if p.includeTerminators {
      chars := AddTerminators(chars);
    }
    var countSum;
    ghost var seen;
    hide Windows, Tallies, Hash32Of;
    counts, countSum, seen := CountNgrams(chars, p.size, p.includeSpaces);
    if counts != map[] {
      SomeKey(counts, seen);
    }
    order, result := PopulateFeatures(p, counts, countSum);
  }

  lemma SomeKey(counts: map<Bytes, nat>, windows: seq<CharSeq>)
    requires Tallies(counts, windows) && counts != map[]
    ensures windows != []
  {
    var key :| key in counts;
    assert CountKey(windows, key) > 0;
  }

  method PopulateFeatures(p: Parameters, counts: map<Bytes, nat>, countSum: nat)
    returns (order: seq<Bytes>, result: seq<FloatFeature>)
    requires IsDimension(p.idDimension) && (counts != map[] ==> countSum > 0)
    ensures Enumerates(order, counts.Keys)
    ensures result == FeaturesOf(p, order, counts, countSum)
  {
    result := [];
    order := [];
    var left := counts.Keys;
    hide Hash32Of, Weight, FeaturesOf;
    NoFeatures(p, counts, countSum);
    while left != {}
      invariant left <= counts.Keys
      invariant Enumerates(order, counts.Keys - left)
      invariant forall k | k in order :: k in counts
      invariant result == FeaturesOf(p, order, counts, countSum)
      decreases |left|
    {
      var key :| key in left;
      EnumeratesOneMore(order, counts.Keys - left, key);
      var weight := Weight(p, counts, countSum, key);
      var hash := Hash32WithDefaultSeed(key);
      FeaturesSnoc(p, order, key, counts, countSum);
      result := result + [FloatFeature(hash as int % Modulus(p.idDimension), weight)];
      order := order + [key];
      assert counts.Keys - (left - {key}) == counts.Keys - left + {key};
      left := left - {key};
    }
    assert counts.Keys - {} == counts.Keys;
  }

  lemma NoFeatures(p: Parameters, counts: map<Bytes, nat>, countSum: nat)
    requires IsDimension(p.idDimension) && (counts != map[] ==> countSum > 0)
    ensures FeaturesOf(p, [], counts, countSum) == []
    ensures Enumerates([], {}) && counts.Keys - counts.Keys == {}
  {
  }

  lemma FeaturesSnoc(p: Parameters, order: seq<Bytes>, key: Bytes, counts: map<Bytes, nat>, countSum: nat)
    requires IsDimension(p.idDimension) && (counts != map[] ==> countSum > 0)
    requires key in counts && forall k | k in order :: k in counts
    ensures FeaturesOf(p, order + [key], counts, countSum)
         == FeaturesOf(p, order, counts, countSum)
            + [FloatFeature(FeatureId(key, p.idDimension), Weight(p, counts, countSum, key))]
  {
    hide FeatureId, Weight;
  }

  lemma EnumeratesOneMore(order: seq<Bytes>, keys: set<Bytes>, key: Bytes)
    requires Enumerates(order, keys) && key !in keys
    ensures Enumerates(order + [key], keys + {key})
  {
  }
}
