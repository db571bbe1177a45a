/** Bags of morphological features: `BOW` (`common.h`), its dictionary (`io.hpp`) and its updates (`features.hpp`). */
module BagOfFeatures {
  import opened Arithmetic
  import opened Sequences

  type Dictionary = map<string, nat>

  // ---- The dictionary.

  /** Position of the first occurrence of a name. */
  function FirstIndex(names: seq<string>, name: string): (i: nat)
    requires name in names
    ensures i < |names|
  {
    if names[0] == name then 0 else 1 + FirstIndex(names[1..], name)
  }

  lemma {:induction false} FirstIndexIsFirst(names: seq<string>, name: string)
    requires name in names
    ensures names[FirstIndex(names, name)] == name
    ensures forall k | 0 <= k < FirstIndex(names, name) :: names[k] != name
    decreases |names|
  {
    if names[0] != name {
      var rest := names[1..];
      FirstIndexIsFirst(rest, name);
      assert forall k | 0 < k < |names| :: names[k] == rest[k - 1];
    }
  }

  function DictionaryOf(names: seq<string>): Dictionary {
    map name | name in names :: FirstIndex(names, name)
  }

  /** `ReadFeaturesNames`: `emplace` keeps the first position, the running position always advances. */
  method ReadFeaturesNames(names: seq<string>) returns (dict: Dictionary)
    ensures dict == DictionaryOf(names)
  {
    dict := map[];
    for pos := 0 to |names|
      invariant dict == DictionaryOf(names[..pos])
    {
      var name := names[pos];
      assert names[..pos + 1] == names[..pos] + [name];
      EmplaceOne(names[..pos], name);
      if name !in dict {
        dict := dict[name := pos];
      }
    }
    assert names[..|names|] == names;
  }

  lemma EmplaceOne(names: seq<string>, name: string)
    ensures DictionaryOf(names + [name])
         == if name in names then DictionaryOf(names) else DictionaryOf(names)[name := |names|]
  {
    var all := names + [name];
    forall n | n in names ensures FirstIndex(all, n) == FirstIndex(names, n) {
      FirstIndexIsFirst(names, n);
      FirstIndexIs(all, n, FirstIndex(names, n));
    }
    if name !in names {
      FirstIndexIs(all, name, |names|);
    }
    assert forall n :: n in all <==> n in names || n == name;
  }

  lemma FirstIndexIs(names: seq<string>, name: string, i: nat)
    requires i < |names| && names[i] == name && forall k | 0 <= k < i :: names[k] != name
    ensures name in names && FirstIndex(names, name) == i
  {
    FirstIndexIsFirst(names, name);
    hide FirstIndex;
  }

  lemma FirstIndexIsLeast(names: seq<string>, name: string, i: nat)
    requires i < |names| && names[i] == name
    ensures name in names && FirstIndex(names, name) <= i && names[FirstIndex(names, name)] == name
  {
    FirstIndexIsFirst(names, name);
    hide FirstIndex;
  }

  /** Every index of the dictionary lies in a bag of its size. */
  predicate InRange(dict: Dictionary) {
    forall name | name in dict :: dict[name] < |dict|
  }

  lemma {:induction false} DistinctSize(names: seq<string>)
    requires Distinct(names)
    ensures |set n | n in names| == |names|
    decreases |names|
  {
    if names != [] {
      var front, last := names[..|names| - 1], names[|names| - 1];
      DistinctSize(front);
      assert (set n | n in names) == (set n | n in front) + {last};
    }
  }

  lemma KeysAreNames(names: seq<string>)
    ensures DictionaryOf(names).Keys == set n | n in names
    ensures |DictionaryOf(names)| == |set n | n in names|
    ensures |DictionaryOf(names)| <= |names|
  {
    var keys := set n | n in names;
    assert DictionaryOf(names).Keys == keys;
    SetOfSeq(names);
  }

  lemma {:induction false} SetOfSeq(names: seq<string>)
    ensures |set n | n in names| <= |names|
    decreases |names|
  {
    if names != [] {
      var front, last := names[..|names| - 1], names[|names| - 1];
      SetOfSeq(front);
      assert (set n | n in names) == (set n | n in front) + {last};
    }
  }

  function Below(n: nat): (r: set<nat>)
    ensures |r| == n && forall i: nat :: i in r <==> i < n
  {
    if n == 0 then {} else Below(n - 1) + {n - 1}
  }

  /** A function that is injective on a set keeps its size. */
  lemma {:induction false} ImageSize(dict: Dictionary, keys: set<string>)
    requires keys <= dict.Keys
    requires forall a, b | a in keys && b in keys && a != b :: dict[a] != dict[b]
    ensures |set k | k in keys :: dict[k]| == |keys|
    decreases |keys|
  {
    if keys != {} {
      var k :| k in keys;
      ImageSize(dict, keys - {k});
      assert (set x | x in keys :: dict[x]) == (set x | x in keys - {k} :: dict[x]) + {dict[k]};
    }
  }

  /**
    No word can hit an index outside the bag exactly when all names that are new to the file come first:
    a repeated name uses up a position, so a new name after it gets an index beyond the size.
   */
  lemma InRangeExactly(names: seq<string>)
    ensures |DictionaryOf(names)| <= |names|
    ensures InRange(DictionaryOf(names)) <==> Distinct(names[..|DictionaryOf(names)|])
  {
    KeysAreNames(names);
    var dict := DictionaryOf(names);
    if Distinct(names[..|dict|]) {
      DistinctHeadInRange(names);
    }
    if InRange(dict) {
      InRangeDistinctHead(names);
    }
  }

  lemma DistinctHeadInRange(names: seq<string>)
    requires |DictionaryOf(names)| <= |names| && Distinct(names[..|DictionaryOf(names)|])
    ensures InRange(DictionaryOf(names))
  {
    var dict := DictionaryOf(names);
    var head := names[..|dict|];
    var known, keys := set n | n in head, set n | n in names;
    KeysAreNames(names);
    DistinctSize(head);
    assert known <= keys;
    SubsetOfSameSize(known, keys);
    forall name | name in dict ensures dict[name] < |dict| {
      assert name in head;
      var i :| 0 <= i < |head| && head[i] == name;
      assert names[i] == name;
      FirstIndexIsLeast(names, name, i);
    }
  }

  lemma SubsetOfSameSize(a: set<string>, b: set<string>)
    requires a <= b && |a| == |b|
    ensures a == b
  {
    assert b == a + (b - a);
  }

  lemma InRangeDistinctHead(names: seq<string>)
    requires |DictionaryOf(names)| <= |names| && InRange(DictionaryOf(names))
    ensures Distinct(names[..|DictionaryOf(names)|])
  {
    var dict := DictionaryOf(names);
    forall i, j | 0 <= i < j < |dict| ensures names[i] != names[j] {
      if names[i] == names[j] {
        RepetitionTakesPlace(names, i, j);
      }
    }
  }

  lemma RepetitionTakesPlace(names: seq<string>, i: nat, j: nat)
    requires i < j < |DictionaryOf(names)| <= |names| && names[i] == names[j]
    ensures !InRange(DictionaryOf(names))
  {
    var dict := DictionaryOf(names);
    if InRange(dict) {
      var used := set k | k in dict.Keys :: dict[k];
      forall k | k in dict ensures names[dict[k]] == k && dict[k] != j {
        FirstIndexIsFirst(names, k);
      }
      ImageSize(dict, dict.Keys);
      assert used <= Below(|dict|) - {j};
      SmallerSet(used, Below(|dict|), j);
    }
  }

  lemma SmallerSet(a: set<nat>, b: set<nat>, j: nat)
    requires j in b && a <= b - {j}
    ensures |a| < |b|
  {
    assert b - {j} == a + (b - {j} - a);
    assert |b - {j}| == |b| - 1;
  }

  // ---- Segments of a feature string.

  function BarIndex(s: string): (n: nat)
    ensures n <= |s|
  {
    if s == "" || s[0] == '|' then 0 else 1 + BarIndex(s[1..])
  }

  lemma {:induction false} BarIndexIsFirst(s: string)
    ensures forall k | 0 <= k < BarIndex(s) :: s[k] != '|'
    ensures BarIndex(s) < |s| ==> s[BarIndex(s)] == '|'
    decreases s
  {
    if s != "" && s[0] != '|' {
      var rest := s[1..];
      BarIndexIsFirst(rest);
      assert forall k | 0 < k < |s| :: s[k] == rest[k - 1];
    }
  }

  /** What lies between the bars, without a final empty segment. */
  function Segments(s: string): seq<string>
    decreases |s|
  {
    if s == "" then [] else
    var n := BarIndex(s);
    if n == |s| then [s] else [s[..n]] + Segments(s[n + 1..])
  }

  function JoinBars(segments: seq<string>): string {
    if segments == [] then "" else segments[0] + "|" + JoinBars(segments[1..])
  }

  /** `s` with a bar at its end. */
  function Closed(s: string): string {
    if s == "" || s[|s| - 1] == '|' then s else s + "|"
  }

  lemma ClosedAfterBar(word: string, rest: string)
    ensures Closed(word + "|" + rest) == word + "|" + Closed(rest)
  {
    if rest == "" {
      RightUnit(word + "|");
    } else {
      var s := word + "|" + rest;
      assert s[|s| - 1] == rest[|rest| - 1];
      Assoc(word + "|", rest, "|");
    }
  }

  lemma CutAtBar(s: string, n: nat)
    requires n < |s| && s[n] == '|'
    ensures s == s[..n] + "|" + s[n + 1..]
  {
  }

  lemma JoinBarsStep(word: string, segments: seq<string>)
    ensures JoinBars([word] + segments) == word + "|" + JoinBars(segments)
  {
    assert ([word] + segments)[1..] == segments;
  }

  /** Closing every segment with a bar gives the string back, closed with a bar if it was not. */
  lemma {:induction false} SegmentsSplit(s: string)
    ensures JoinBars(Segments(s)) == Closed(s)
    ensures forall t | t in Segments(s) :: '|' !in t
    decreases |s|
  {
    hide JoinBars, Closed;
    var n := BarIndex(s);
    BarIndexIsFirst(s);
    if s == "" {
      NoSegments();
    } else if n == |s| {
      OneSegment(s);
    } else {
      SegmentsSplit(s[n + 1..]);
      JoinBarsStep(s[..n], Segments(s[n + 1..]));
      CutAtBar(s, n);
      ClosedAfterBar(s[..n], s[n + 1..]);
    }
  }

  lemma NoSegments()
    ensures JoinBars([]) == Closed("")
  {
  }

  lemma OneSegment(s: string)
    requires s != "" && BarIndex(s) == |s|
    ensures '|' !in s && JoinBars([s]) == Closed(s)
  {
    BarIndexIsFirst(s);
    assert s[|s| - 1] in s;
    JoinBarsStep(s, []);
    RightUnit(s + "|");
    RightUnit([s]);
  }

  // ---- The bag.

  /** Number of words that a dictionary sends to an index. */
  function Hits(dict: Dictionary, words: seq<string>, i: nat): nat {
    if words == [] then 0
    else (if words[0] in dict && dict[words[0]] == i then 1 else 0) + Hits(dict, words[1..], i)
  }

  /** No word of the list is sent outside a bag of `size`. */
  predicate Fits(dict: Dictionary, words: seq<string>, size: nat) {
    forall k | 0 <= k < |words| && words[k] in dict :: dict[words[k]] < size
  }

  /** A dictionary in range is one whose bag no words whatever can leave. */
  lemma InRangeFitsAll(dict: Dictionary)
    ensures InRange(dict) <==> forall words :: Fits(dict, words, |dict|)
  {
    if !InRange(dict) {
      var name :| name in dict && dict[name] >= |dict|;
      assert [name][0] == name;
      assert !Fits(dict, [name], |dict|);
    }
  }

  /** So names that repeat too early are exactly those with which some update fails. */
  lemma UpdatesSucceedExactly(names: seq<string>)
    ensures |DictionaryOf(names)| <= |names|
    ensures (forall words :: Fits(DictionaryOf(names), words, |DictionaryOf(names)|))
       <==> Distinct(names[..|DictionaryOf(names)|])
  {
    InRangeExactly(names);
    InRangeFitsAll(DictionaryOf(names));
  }

  /** With the names a, a, b the bag has two entries and b has index 2. */
  lemma RepeatedNameExample()
    ensures var dict := DictionaryOf(["a", "a", "b"]);
            |dict| == 2 && "b" in dict && dict["b"] == 2 && !Fits(dict, ["b"], |dict|)
  {
    var names := ["a", "a", "b"];
    var dict := DictionaryOf(names);
    FirstIndexIs(names, "b", 2);
    assert dict.Keys == {"a", "b"} by {
      assert names[0] in names && names[2] in names;
      forall n | n in names ensures n in {"a", "b"} {
      }
    }
    assert ["b"][0] == "b";
  }

  /** Number of words before the first one that is sent outside a bag of `size`, or of all words. */
  function Fitting(dict: Dictionary, words: seq<string>, size: nat): (k: nat)
    ensures k <= |words|
  {
    if words == [] || (words[0] in dict && dict[words[0]] >= size) then 0
    else 1 + Fitting(dict, words[1..], size)
  }

  /** The second bag is the first one plus one for every hit. */
  predicate Counted(before: seq<real>, after: seq<real>, dict: Dictionary, words: seq<string>) {
    && |after| == |before|
    && forall i | 0 <= i < |before| :: after[i] == before[i] + Hits(dict, words, i) as real
  }

  function Normalized(bag: seq<real>): (r: seq<real>)
    ensures |r| == |bag|
  {
    if Sum(bag) > 0.0 then seq(|bag|, i requires 0 <= i < |bag| => bag[i] / Sum(bag)) else bag
  }

  class BOW {
    const dict: Dictionary
    const bag: array<real>

    constructor (dict: Dictionary)
      ensures this.dict == dict && fresh(bag) && bag.Length == |dict|
      ensures forall i | 0 <= i < bag.Length :: bag[i] == 0.0
    {
      this.dict := dict;
      bag := new real[|dict|](_ => 0.0);
    }

    /** Fails, as `at` throws, when the index is outside the bag. */
    method Update(word: string) returns (ok: bool)
      modifies bag
      ensures ok == Fits(dict, [word], bag.Length)
      ensures ok ==> Counted(old(bag[..]), bag[..], dict, [word])
      ensures !ok ==> bag[..] == old(bag[..])
    {
      assert forall i: nat :: Hits(dict, [word], i) == if word in dict && dict[word] == i then 1 else 0;
      ok := true;
      if word in dict {
        if dict[word] >= bag.Length {
          assert [word][0] == word;
          return false;
        }
        bag[dict[word]] := bag[dict[word]] + 1.0;
      }
    }

    /** `FeaturesGenerator::UpdateFeats` on this bag. */
    method UpdateFeats(feats: string) returns (ok: bool)
      modifies bag
      ensures ok == Fits(dict, Segments(feats), bag.Length)
      ensures var words := Segments(feats);
              Counted(old(bag[..]), bag[..], dict, words[..Fitting(dict, words, bag.Length)])
      ensures ok ==> Fitting(dict, Segments(feats), bag.Length) == |Segments(feats)|
    {
      hide Fits, Counted, Segments, Fitting;
      var begin, end := 0, 0;
      ghost var seen: seq<string> := [];
      ok := true;
      NothingCounted(dict, bag[..]);
      LeftUnit(Segments(feats));
      while end != |feats|
        invariant begin <= end <= |feats|
        invariant '|' !in feats[begin..end]
        invariant seen + Segments(feats[begin..]) == Segments(feats)
        invariant Fits(dict, seen, bag.Length)
        invariant Counted(old(bag[..]), bag[..], dict, seen)
        decreases |feats| - end
      {
        if feats[end] == '|' {
          var word := feats[begin..end];
          BarEndsSegment(feats, begin, end);
          FitsSplit(dict, seen, word, Segments(feats[end + 1..]), bag.Length);
          ghost var before := bag[..];
          ok := Update(word);
          if !ok {
            FittingStops(dict, seen, word, Segments(feats[end + 1..]), bag.Length);
            return;
          }
          CountedThen(dict, old(bag[..]), before, bag[..], seen, [word]);
          seen := seen + [word];
          begin := end + 1;
        }
        end := end + 1;
      }
      EndEndsSegment(feats, begin);
      if begin != end {
        var word := feats[begin..end];
        FitsSplit(dict, seen, word, [], bag.Length);
        ghost var before := bag[..];
        ok := Update(word);
        if !ok {
          FittingStops(dict, seen, word, [], bag.Length);
          return;
        }
        CountedThen(dict, old(bag[..]), before, bag[..], seen, [word]);
        seen := seen + [word];
      }
      RightUnit(seen);
      FittingAll(dict, seen, bag.Length);
    }

    method Normalize()
      modifies bag
      ensures bag[..] == Normalized(old(bag[..]))
    {
      ghost var before := bag[..];
      var denumerator := 0.0;
      for i := 0 to bag.Length
        invariant denumerator == Sum(before[..i])
        invariant bag[..] == before
      {
        assert before[..i + 1][..i] == before[..i];
        denumerator := denumerator + bag[i];
      }
      assert before[..bag.Length] == before;
      if denumerator > 0.0 {
        for i := 0 to bag.Length
          invariant forall j | 0 <= j < bag.Length ::
            bag[j] == if j < i then before[j] / denumerator else before[j]
        {
          bag[i] := bag[i] / denumerator;
        }
        ghost var normal := Normalized(before);
        assert forall j | 0 <= j < bag.Length :: bag[..][j] == normal[j];
      }
    }

    method Clear()
      modifies bag
      ensures forall i | 0 <= i < bag.Length :: bag[i] == 0.0
    {
      for i := 0 to bag.Length
        invariant forall j | 0 <= j < i :: bag[j] == 0.0
      {
        bag[i] := 0.0;
      }
    }
  }

  /** A bar ends the segment that `begin` starts. */
  lemma BarEndsSegment(s: string, begin: nat, end: nat)
    requires begin <= end < |s| && '|' !in s[begin..end] && s[end] == '|'
    ensures Segments(s[begin..]) == [s[begin..end]] + Segments(s[end + 1..])
  {
    var r, m := s[begin..], end - begin;
    assert r[..m] == s[begin..end];
    BarIndexIs(r, m);
    assert r[m + 1..] == s[end + 1..];
  }

  /** So does the end of the string, unless the segment is empty. */
  lemma EndEndsSegment(s: string, begin: nat)
    requires begin <= |s| && '|' !in s[begin..|s|]
    ensures Segments(s[begin..]) == if begin == |s| then [] else [s[begin..|s|]]
  {
    var r := s[begin..];
    assert r == s[begin..|s|] && r[..|r|] == r;
    BarIndexIs(r, |r|);
  }

  lemma {:induction false} BarIndexIs(s: string, m: nat)
    requires m <= |s| && '|' !in s[..m] && (m < |s| ==> s[m] == '|')
    ensures BarIndex(s) == m
    decreases m
  {
    if m > 0 {
      assert s[..m][0] == s[0];
      assert s[1..][..m - 1] == s[..m][1..];
      BarIndexIs(s[1..], m - 1);
    }
  }

  lemma FitsSplit(dict: Dictionary, seen: seq<string>, word: string, rest: seq<string>, size: nat)
    requires Fits(dict, seen, size)
    ensures Fits(dict, seen + [word], size) == Fits(dict, [word], size)
    ensures Fits(dict, seen + ([word] + rest), size) ==> Fits(dict, [word], size)
    ensures (seen + [word]) + rest == seen + ([word] + rest)
    ensures rest == [] ==> [word] + rest == [word]
  {
    var all := seen + ([word] + rest);
    assert all[|seen|] == word && (seen + [word])[|seen|] == word;
  }

  lemma FitsCons(dict: Dictionary, words: seq<string>, size: nat)
    requires words != []
    ensures Fits(dict, words, size)
       <==> (words[0] in dict ==> dict[words[0]] < size) && Fits(dict, words[1..], size)
  {
    var rest := words[1..];
    assert forall k | 0 <= k < |rest| :: rest[k] == words[k + 1];
    assert forall k | 0 < k < |words| :: words[k] == rest[k - 1];
  }

  lemma FitsOne(dict: Dictionary, word: string, size: nat)
    ensures Fits(dict, [word], size) <==> (word in dict ==> dict[word] < size)
  {
    assert [word][0] == word;
  }

  lemma {:induction false} FittingAll(dict: Dictionary, words: seq<string>, size: nat)
    requires Fits(dict, words, size)
    ensures Fitting(dict, words, size) == |words| && words[..|words|] == words
    decreases |words|
  {
    hide Fits;
    if words != [] {
      FitsCons(dict, words, size);
      FittingAll(dict, words[1..], size);
    }
  }

  /** The first word that is sent outside stops the count. */
  lemma {:induction false} FittingStops(
      dict: Dictionary, seen: seq<string>, word: string, rest: seq<string>, size: nat)
    requires Fits(dict, seen, size) && !Fits(dict, [word], size)
    ensures Fitting(dict, seen + ([word] + rest), size) == |seen|
    ensures (seen + ([word] + rest))[..|seen|] == seen
    decreases |seen|
  {
    hide Fits;
    FitsOne(dict, word, size);
    if seen == [] {
      LeftUnit([word] + rest);
    } else {
      FitsCons(dict, seen, size);
      FittingStops(dict, seen[1..], word, rest, size);
      TailOfConcat(seen, [word] + rest);
    }
  }

  lemma NothingCounted(dict: Dictionary, bag: seq<real>)
    ensures Counted(bag, bag, dict, [])
    ensures Fits(dict, [], |bag|)
  {
  }

  /** Updates add up, however the words are spread over them. */
  lemma CountedThen(
      dict: Dictionary, a: seq<real>, b: seq<real>, c: seq<real>, first: seq<string>, second: seq<string>)
    requires Counted(a, b, dict, first) && Counted(b, c, dict, second)
    ensures Counted(a, c, dict, first + second)
  {
    hide Hits;
    HitsAppend(dict, first, second);
  }

  lemma {:induction false} HitsAppend(dict: Dictionary, a: seq<string>, b: seq<string>)
    ensures forall i: nat :: Hits(dict, a + b, i) == Hits(dict, a, i) + Hits(dict, b, i)
    decreases |a|
  {
    if a == [] {
      LeftUnit(b);
    } else {
      assert (a + b)[1..] == a[1..] + b;
      HitsAppend(dict, a[1..], b);
    }
  }

  predicate NonNegative(bag: seq<real>) {
    forall i | 0 <= i < |bag| :: bag[i] >= 0.0
  }

  lemma {:induction false} SumOfQuotients(bag: seq<real>, d: real, part: seq<real>)
    requires d > 0.0 && |part| == |bag| && forall i | 0 <= i < |bag| :: part[i] == bag[i] / d
    ensures Sum(part) == Sum(bag) / d
    decreases |bag|
  {
    if bag != [] {
      var k := |bag| - 1;
      SumOfQuotients(bag[..k], d, part[..k]);
      AddQuotients(Sum(bag[..k]), bag[k], d);
    }
  }

  lemma {:induction false} SumNonNegative(bag: seq<real>)
    requires NonNegative(bag)
    ensures Sum(bag) >= 0.0
    ensures Sum(bag) == 0.0 ==> forall i | 0 <= i < |bag| :: bag[i] == 0.0
    decreases |bag|
  {
    if bag != [] {
      SumNonNegative(bag[..|bag| - 1]);
      assert forall i | 0 <= i < |bag| - 1 :: bag[..|bag| - 1][i] == bag[i];
    }
  }

  /** A bag of counts normalises to non-negative entries that sum to one, or to all zeros. */
  lemma NormalizedIsDistribution(bag: seq<real>)
    requires NonNegative(bag)
    ensures NonNegative(Normalized(bag))
    ensures Sum(bag) > 0.0 ==> Sum(Normalized(bag)) == 1.0
    ensures Sum(bag) <= 0.0 ==> forall i | 0 <= i < |bag| :: Normalized(bag)[i] == 0.0
  {
    SumNonNegative(bag);
    var d := Sum(bag);
    if d > 0.0 {
      SumOfQuotients(bag, d, Normalized(bag));
      SelfQuotient(d);
      forall i | 0 <= i < |bag| ensures Normalized(bag)[i] >= 0.0 {
        QuotientNonNegative(bag[i], d);
      }
    }
  }

  lemma QuotientNonNegative(a: real, d: real)
    requires a >= 0.0 && d > 0.0
    ensures a / d >= 0.0
  {
  }

  // ---- A whole run: a fresh bag, any list of words, then `Normalize`.

  function Known(dict: Dictionary, words: seq<string>): nat {
    if words == [] then 0 else (if words[0] in dict then 1 else 0) + Known(dict, words[1..])
  }

  function Zeros(size: nat): seq<real> {
    seq(size, _ => 0.0)
  }

  lemma {:induction false} SumOfZeros(size: nat, zeros: seq<real>)
    requires |zeros| == size && forall i | 0 <= i < size :: zeros[i] == 0.0
    ensures Sum(zeros) == 0.0
    decreases size
  {
    if size > 0 {
      SumOfZeros(size - 1, zeros[..size - 1]);
    }
  }

  /** One more in one place. */
  lemma {:induction false} SumOfBump(a: seq<real>, b: seq<real>, at: nat)
    requires |a| == |b| && at < |a| && b == a[at := a[at] + 1.0]
    ensures Sum(b) == Sum(a) + 1.0
    decreases |a|
  {
    var k := |a| - 1;
    if at < k {
      SumOfBump(a[..k], b[..k], at);
    } else {
      assert b[..k] == a[..k];
    }
  }

  /** What a bag gained is the number of known words, whatever bag it was. */
  lemma {:induction false} EveryKnownWordCounts(
      dict: Dictionary, words: seq<string>, before: seq<real>, after: seq<real>)
    requires Fits(dict, words, |before|) && Counted(before, after, dict, words)
    ensures Sum(after) == Sum(before) + Known(dict, words) as real
    decreases |words|
  {
    if words == [] {
      assert after == before;
    } else if words[0] in dict {
      var at := dict[words[0]];
      var mid := before[at := before[at] + 1.0];
      SumOfBump(before, mid, at);
      assert Fits(dict, words[1..], |mid|);
      EveryKnownWordCounts(dict, words[1..], mid, after);
    } else {
      assert Fits(dict, words[1..], |before|);
      EveryKnownWordCounts(dict, words[1..], before, after);
    }
  }

  /** After a run over any words, `Normalize` leaves each index its share of the known words. */
  lemma NormalizedBagIsShare(dict: Dictionary, words: seq<string>, bag: seq<real>)
    requires Fits(dict, words, |bag|) && Counted(Zeros(|bag|), bag, dict, words)
    ensures forall i | 0 <= i < |bag| :: Normalized(bag)[i] ==
              if Known(dict, words) == 0 then 0.0 else Hits(dict, words, i) as real / Known(dict, words) as real
    ensures Sum(Normalized(bag)) == if Known(dict, words) == 0 then 0.0 else 1.0
  {
    SumOfZeros(|bag|, Zeros(|bag|));
    EveryKnownWordCounts(dict, words, Zeros(|bag|), bag);
    SumNonNegative(bag);
    NormalizedIsDistribution(bag);
    if Known(dict, words) == 0 {
      assert Normalized(bag) == bag;
    }
  }
}
