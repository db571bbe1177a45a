/** Script detection (`script_detector.h`) and the script feature (`relevant_script_feature.cc`). */
module Scripts {
  import opened Arithmetic
  import opened Features
  import opened Sequences
  import opened Utf8

  const NUM_RELEVANT_SCRIPTS: nat := 12

  /** The enum `Script`; `Id` is its numeric value. */
  datatype Script =
    | ScriptError | OtherOneByte | OtherTwoBytes | OtherThreeBytes | OtherFourBytes
    | Greek | Cyrillic | Hebrew | Arabic | HangulJamo | Hiragana | Katakana
  {
    function Id(): (id: nat)
      ensures id < NUM_RELEVANT_SCRIPTS
    {
      match this
      case ScriptError => 0
      case OtherOneByte => 1
      case OtherTwoBytes => 2
      case OtherThreeBytes => 3
      case OtherFourBytes => 4
      case Greek => 5
      case Cyrillic => 6
      case Hebrew => 7
      case Arabic => 8
      case HangulJamo => 9
      case Hiragana => 10
      case Katakana => 11
    }
  }

  /** The branch tree of `GetScript` over the first bytes of a character. */
  function GetScript(p: Bytes, numBytes: nat): Script
    requires |p| >= numBytes
  {
    match numBytes
    case 1 => OtherOneByte
    case 2 =>
      var cp := Decode2(p[0], p[1]);
      if cp > 0x4FF then
        if cp >= 0x600 then
          if cp <= 0x6FF then Arabic else OtherTwoBytes
        else if cp >= 0x590 then Hebrew else OtherTwoBytes
      else if cp >= 0x400 then Cyrillic
      else if cp >= 0x370 then Greek
      else OtherTwoBytes
    case 3 =>
      var cp := Decode3(p[0], p[1], p[2]);
      if cp > 0x309F then
        if cp <= 0x30FF then Katakana else OtherThreeBytes
      else if cp >= 0x3041 then Hiragana
      else if 0x1100 <= cp <= 0x11FF then HangulJamo
      else OtherThreeBytes
    case 4 => OtherFourBytes
    case _ => ScriptError
  }

  /** The plain range table. */
  function ScriptOf(cp: bv32): Script {
    if 0x370 <= cp <= 0x3FF then Greek
    else if 0x400 <= cp <= 0x4FF then Cyrillic
    else if 0x590 <= cp <= 0x5FF then Hebrew
    else if 0x600 <= cp <= 0x6FF then Arabic
    else if 0x1100 <= cp <= 0x11FF then HangulJamo
    else if 0x3041 <= cp <= 0x309F then Hiragana
    else if 0x30A0 <= cp <= 0x30FF then Katakana
    else if cp < 0x80 then OtherOneByte
    else if cp < 0x800 then OtherTwoBytes
    else if cp < 0x10000 then OtherThreeBytes
    else OtherFourBytes
  }

  /** On the encoding of a code point the branch tree agrees with the range table. */
  lemma GetScriptIsTable(cp: bv32, rest: Bytes)
    requires IsScalar(cp)
    ensures GetScript(Encode(cp) + rest, |Encode(cp)|) == ScriptOf(cp)
  {
    DecodeInvertsEncode(cp, rest);
    hide Decode2, Decode3, Decode4, Lead2, Lead3, Lead4, Low6, IsScalar;
    if 0x80 <= cp < 0x800 {
      DecodesTwo(cp);
    } else if 0x800 <= cp < 0x10000 {
      DecodesThree(cp);
    }
  }

  lemma DecodesTwo(cp: bv32)
    requires IsScalar(cp) && 0x80 <= cp < 0x800
    ensures |Encode(cp)| == 2 && Decode2(Encode(cp)[0], Encode(cp)[1]) == cp
  {
    hide Lead2, Low6, Six, Join2;
    Joins(cp);
    SixOfLow6(cp);
    LeadBytes2(cp);
  }

  lemma DecodesThree(cp: bv32)
    requires IsScalar(cp) && 0x800 <= cp < 0x10000
    ensures |Encode(cp)| == 3 && Decode3(Encode(cp)[0], Encode(cp)[1], Encode(cp)[2]) == cp
  {
    hide Lead3, Low6, Six, Join3;
    Joins(cp);
    SixOfLow6(cp);
    SixOfLow6(cp >> 6);
    LeadBytes3(cp);
  }

  // ---- The feature.

  predicate IsAlpha(b: bv8) {
    0x41 <= b <= 0x5A || 0x61 <= b <= 0x7A
  }

  /** A character that counts: anything but an ASCII character other than a letter. */
  predicate Counts(p: Bytes, numBytes: nat)
    requires p != []
  {
    numBytes != 1 || IsAlpha(p[0])
  }

  /** Number of characters of a script, up to a character that the end of the text cuts off. */
  function CountIn(text: Bytes, script: nat): nat
    decreases |text|
  {
    if text == [] then 0 else
    var n := OneCharLen(text[0]);
    if n > |text| then 0 else
    (if Counts(text, n) && GetScript(text, n).Id() == script then 1 else 0) + CountIn(text[n..], script)
  }

  /** Number of characters that count. */
  function CountAll(text: Bytes): nat
    decreases |text|
  {
    if text == [] then 0 else
    var n := OneCharLen(text[0]);
    if n > |text| then 0 else
    (if Counts(text, n) then 1 else 0) + CountAll(text[n..])
  }

  predicate CountsCodePoint(cp: bv32) {
    cp >= 0x80 || 0x41 <= cp <= 0x5A || 0x61 <= cp <= 0x7A
  }

  /** The fold over code points. */
  function CodePointsIn(cps: seq<bv32>, script: nat): nat {
    if cps == [] then 0
    else (if CountsCodePoint(cps[0]) && ScriptOf(cps[0]).Id() == script then 1 else 0) + CodePointsIn(cps[1..], script)
  }

  lemma AsciiCounts(cp: bv32, rest: Bytes)
    requires IsScalar(cp)
    ensures Counts(Encode(cp) + rest, |Encode(cp)|) <==> CountsCodePoint(cp)
  {
    if cp < 0x80 {
      assert (cp as bv8) as bv32 == cp;
    }
  }

  /** On well-formed text the byte loop counts code points by the range table. */
  lemma {:induction false} CountsAreCodePoints(cps: seq<bv32>, script: nat)
    requires AllScalar(cps)
    ensures CountIn(EncodeAll(cps), script) == CodePointsIn(cps, script)
    decreases |cps|
  {
    hide Encode, Decode, OneCharLen, GetScript, ScriptOf, Counts, CountsCodePoint;
    if cps != [] {
      var b, rest := Encode(cps[0]), EncodeAll(cps[1..]);
      DecodeInvertsEncode(cps[0], rest);
      GetScriptIsTable(cps[0], rest);
      AsciiCounts(cps[0], rest);
      CountsAreCodePoints(cps[1..], script);
      assert (b + rest)[|b|..] == rest;
    }
  }

  /** The code points that are counted under an id: a range, or what is left of a length; none under 0. */
  predicate HasId(cp: bv32, id: nat) {
    match id
    case 1 => 0x41 <= cp <= 0x5A || 0x61 <= cp <= 0x7A
    case 2 => 0x80 <= cp < 0x800 && !(0x370 <= cp <= 0x4FF) && !(0x590 <= cp <= 0x6FF)
    case 3 => 0x800 <= cp < 0x10000 && !(0x1100 <= cp <= 0x11FF) && !(0x3041 <= cp <= 0x30FF)
    case 4 => 0x10000 <= cp
    case 5 => 0x370 <= cp <= 0x3FF
    case 6 => 0x400 <= cp <= 0x4FF
    case 7 => 0x590 <= cp <= 0x5FF
    case 8 => 0x600 <= cp <= 0x6FF
    case 9 => 0x1100 <= cp <= 0x11FF
    case 10 => 0x3041 <= cp <= 0x309F
    case 11 => 0x30A0 <= cp <= 0x30FF
    case _ => false
  }

  function Having(cps: seq<bv32>, id: nat): nat {
    if cps == [] then 0 else (if HasId(cps[0], id) then 1 else 0) + Having(cps[1..], id)
  }

  /** What a well-formed text counts under each id, on numbers. */
  lemma {:induction false} CountsAreRanges(cps: seq<bv32>, id: nat)
    requires AllScalar(cps)
    ensures CountIn(EncodeAll(cps), id) == Having(cps, id)
    decreases |cps|
  {
    CountsAreCodePoints(cps, id);
    if cps != [] {
      CountsAreCodePoints(cps[1..], id);
      CountsAreRanges(cps[1..], id);
      IdIsRange(cps[0], id);
      hide ScriptOf, CountIn, EncodeAll, HasId, CountsCodePoint;
    }
  }

  lemma IdIsRange(cp: bv32, id: nat)
    ensures CountsCodePoint(cp) && ScriptOf(cp).Id() == id <==> HasId(cp, id)
  {
  }

  function CountsOf(text: Bytes): (counts: seq<nat>)
    ensures |counts| == NUM_RELEVANT_SCRIPTS
  {
    seq(NUM_RELEVANT_SCRIPTS, s requires 0 <= s < NUM_RELEVANT_SCRIPTS => CountIn(text, s))
  }

  function CountSum(xs: seq<nat>): nat {
    if xs == [] then 0 else CountSum(xs[..|xs| - 1]) + xs[|xs| - 1]
  }

  lemma {:induction false} SumIncrement(xs: seq<nat>, k: nat)
    requires k < |xs|
    ensures CountSum(xs[k := xs[k] + 1]) == CountSum(xs) + 1
    decreases |xs|
  {
    var last, ys := |xs| - 1, xs[k := xs[k] + 1];
    if k < last {
      SumIncrement(xs[..last], k);
      assert ys[..last] == xs[..last][k := xs[k] + 1];
    } else {
      assert ys[..last] == xs[..last];
    }
  }

  lemma {:induction false} SumOfZeros(xs: seq<nat>)
    requires forall i | 0 <= i < |xs| :: xs[i] == 0
    ensures CountSum(xs) == 0
    decreases |xs|
  {
    if xs != [] {
      SumOfZeros(xs[..|xs| - 1]);
    }
  }

  /** Every character that counts has exactly one script. */
  lemma {:induction false} CountsAddUp(text: Bytes)
    ensures CountSum(CountsOf(text)) == CountAll(text)
    decreases |text|
  {
    if text == [] || OneCharLen(text[0]) > |text| {
      SumOfZeros(CountsOf(text));
    } else {
      var n := OneCharLen(text[0]);
      var rest := CountsOf(text[n..]);
      CountsAddUp(text[n..]);
      if Counts(text, n) {
        var s := GetScript(text, n).Id();
        SumIncrement(rest, s);
        assert CountsOf(text) == rest[s := rest[s] + 1];
      } else {
        assert CountsOf(text) == rest;
      }
    }
  }

  lemma {:induction false} PartAtMostSum(xs: seq<nat>, k: nat)
    requires k <= |xs|
    ensures CountSum(xs[..k]) <= CountSum(xs)
    decreases |xs| - k
  {
    if k < |xs| {
      PartAtMostSum(xs, k + 1);
      assert xs[..k + 1][..k] == xs[..k];
    } else {
      assert xs[..k] == xs;
    }
  }

  /** One feature per script that occurs, its id and its share, in the order of the ids. */
  function Shares(counts: seq<nat>, total: nat): seq<FloatFeature>
    requires CountSum(counts) <= total
  {
    if counts == [] then [] else
    var s := |counts| - 1;
    Shares(counts[..s], total)
    + if counts[s] > 0 then [FloatFeature(s, counts[s] as real / total as real)] else []
  }

  /** `RelevantScriptFeature::Evaluate` */
  method Evaluate(text: Bytes) returns (result: seq<FloatFeature>)
    ensures CountSum(CountsOf(text)) == CountAll(text)
    ensures result == Shares(CountsOf(text), CountAll(text))
  {
    var counts, totalCount := CountScripts(text);
    CountsAddUp(text);
    hide CountsOf, CountAll;
    ghost var all := counts[..];
    result := [];
    assert all[..0] == [];
    for s := 0 to NUM_RELEVANT_SCRIPTS
      invariant counts[..] == all
      invariant CountSum(all[..s]) <= totalCount
      invariant result == Shares(all[..s], totalCount)
    {
      var count := counts[s];
      assert all[..s + 1][..s] == all[..s];
      PartAtMostSum(all, s + 1);
      assert all[s] == count && CountSum(all[..s + 1]) == CountSum(all[..s]) + count;
      if count > 0 {
        result := result + [FloatFeature(s, count as real / totalCount as real)];
      }
    }
    assert all[..NUM_RELEVANT_SCRIPTS] == all;
  }

  lemma SharesStep(counts: seq<nat>, total: nat)
    requires counts != [] && CountSum(counts) <= total
    ensures var s, before := |counts| - 1, Shares(counts[..|counts| - 1], total);
            Shares(counts, total)
            == if counts[s] > 0 then before + [FloatFeature(s, counts[s] as real / total as real)] else before
    ensures WeightSum(Shares(counts, total))
         == WeightSum(Shares(counts[..|counts| - 1], total))
            + if total > 0 then counts[|counts| - 1] as real / total as real else 0.0
  {
    var s, before := |counts| - 1, Shares(counts[..|counts| - 1], total);
    RightUnit(before);
    if counts[s] > 0 {
      assert Shares(counts, total)[..|before|] == before;
    }
  }

  lemma {:induction false} SharesSum(counts: seq<nat>, total: nat)
    requires total > 0 && CountSum(counts) <= total
    ensures WeightSum(Shares(counts, total)) == CountSum(counts) as real / total as real
    decreases |counts|
  {
    if counts != [] {
      var s := |counts| - 1;
      SharesSum(counts[..s], total);
      AddFractions(CountSum(counts[..s]), counts[s], total);
      SharesStep(counts, total);
      hide Shares, WeightSum;
    }
  }

  /** Ids ascend, and every weight is the share of a script that occurs. */
  lemma {:induction false} SharesAreExact(counts: seq<nat>, total: nat)
    requires CountSum(counts) <= total
    ensures var fs := Shares(counts, total);
            && (forall j, k | 0 <= j < k < |fs| :: fs[j].id < fs[k].id)
            && (forall k | 0 <= k < |fs| :: fs[k].id < |counts| && counts[fs[k].id] > 0 && total > 0
                  && fs[k].weight == counts[fs[k].id] as real / total as real)
    decreases |counts|
  {
    if counts != [] {
      SharesAreExact(counts[..|counts| - 1], total);
      SharesStep(counts, total);
    }
  }

  /** Every script that occurs has its share. */
  lemma {:induction false} SharesAreComplete(counts: seq<nat>, total: nat, s: nat) returns (k: nat)
    requires CountSum(counts) <= total && s < |counts| && counts[s] > 0
    ensures k < |Shares(counts, total)| && Shares(counts, total)[k].id == s
    decreases |counts|
  {
    var before := counts[..|counts| - 1];
    SharesStep(counts, total);
    if s < |counts| - 1 {
      k := SharesAreComplete(before, total, s);
    } else {
      k := |Shares(before, total)|;
    }
  }

  /** The weights of the script feature sum to one whenever any character counts. */
  lemma WeightsSumToOne(text: Bytes)
    ensures CountSum(CountsOf(text)) == CountAll(text)
    ensures CountAll(text) > 0 ==> WeightSum(Shares(CountsOf(text), CountAll(text))) == 1.0
  {
    CountsAddUp(text);
    hide CountsOf, CountAll, Shares, WeightSum;
    if CountAll(text) > 0 {
      SharesSum(CountsOf(text), CountAll(text));
      SelfQuotient(CountAll(text) as real);
    }
  }

  /** The counting loop. */
  method CountScripts(text: Bytes) returns (counts: array<nat>, totalCount: nat)
    ensures fresh(counts) && counts[..] == CountsOf(text)
    ensures totalCount == CountAll(text)
  {
    counts := new nat[NUM_RELEVANT_SCRIPTS](_ => 0);
    totalCount := 0;
    var curr := 0;
    while curr < |text|
      invariant curr <= |text|
      invariant counts.Length == NUM_RELEVANT_SCRIPTS
      invariant forall s: nat | s < NUM_RELEVANT_SCRIPTS ::
        counts[s] + CountIn(text[curr..], s) == CountIn(text, s)
      invariant totalCount + CountAll(text[curr..]) == CountAll(text)
    {
      var p := text[curr..];
      var numBytes := OneCharLen(p[0]);
      if curr + numBytes > |text| {
        break;
      }
      assert p[numBytes..] == text[curr + numBytes..];
      if numBytes == 1 && !IsAlpha(p[0]) {
        curr := curr + numBytes;
        continue;
      }
      var script := GetScript(p, numBytes);
      counts[script.Id()] := counts[script.Id()] + 1;
      totalCount := totalCount + 1;
      curr := curr + numBytes;
    }
    assert forall s: nat | s < NUM_RELEVANT_SCRIPTS :: counts[s] == CountsOf(text)[s];
  }
}
