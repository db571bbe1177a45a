/** UTF-8 walking and decoding (`utils.cc`, `unicodetext.cc`) against the encoding of RFC 3629. */
module Utf8 {
  import opened Sequences

  type Bytes = seq<bv8>

  /** `OneCharLen`: a table over the high four bits of the first byte. */
  function OneCharLen(b: bv8): (n: nat)
    ensures 1 <= n <= 4
  {
    if b < 0xC0 then 1 else if b < 0xE0 then 2 else if b < 0xF0 then 3 else 4
  }

  /** `UTF8FirstLetterNumBytes` */
  function FirstLetterNumBytes(b: bv8): nat {
    if b == 0 then 0 else OneCharLen(b)
  }

  /** Number of one-bits at the high end of a byte, up to four. */
  function LeadingOnes(b: bv8): nat {
    if b & 0x80 == 0 then 0
    else if b & 0x40 == 0 then 1
    else if b & 0x20 == 0 then 2
    else if b & 0x10 == 0 then 3
    else 4
  }

  /** The table counts leading ones, except that a character has at least one byte. */
  lemma LengthIsLeadingOnes(b: bv8)
    ensures OneCharLen(b) == if LeadingOnes(b) == 0 then 1 else LeadingOnes(b)
  {
    LowHalves(b);
  }

  lemma LowHalves(b: bv8)
    ensures b < 0x80 <==> b & 0x80 == 0
    ensures b >= 0x80 ==> (b < 0xC0 <==> b & 0x40 == 0)
    ensures b >= 0xC0 ==> (b < 0xE0 <==> b & 0x20 == 0)
    ensures b >= 0xE0 ==> (b < 0xF0 <==> b & 0x10 == 0)
  {
  }

  // ---- The encoding, section 3 of RFC 3629.

  predicate IsScalar(cp: bv32) {
    cp <= 0x10FFFF && !(0xD800 <= cp <= 0xDFFF)
  }

  function Low6(cp: bv32): bv8 {
    0x80 | ((cp & 0x3F) as bv8)
  }

  function Lead2(cp: bv32): bv8
    requires cp < 0x800
  {
    0xC0 | ((cp >> 6) as bv8)
  }

  function Lead3(cp: bv32): bv8
    requires cp < 0x10000
  {
    0xE0 | ((cp >> 12) as bv8)
  }

  function Lead4(cp: bv32): bv8
    requires cp <= 0x10FFFF
  {
    0xF0 | ((cp >> 18) as bv8)
  }

  function Encode(cp: bv32): (b: Bytes)
    requires IsScalar(cp)
    ensures 1 <= |b| <= 4
  {
    if cp < 0x80 then [cp as bv8]
    else if cp < 0x800 then [Lead2(cp), Low6(cp)]
    else if cp < 0x10000 then [Lead3(cp), Low6(cp >> 6), Low6(cp)]
    else [Lead4(cp), Low6(cp >> 12), Low6(cp >> 6), Low6(cp)]
  }

  predicate AllScalar(cps: seq<bv32>) {
    forall i | 0 <= i < |cps| :: IsScalar(cps[i])
  }

  function EncodeAll(cps: seq<bv32>): Bytes
    requires AllScalar(cps)
  {
    if cps == [] then [] else Encode(cps[0]) + EncodeAll(cps[1..])
  }

  lemma EncodesSomething(cps: seq<bv32>)
    requires AllScalar(cps)
    ensures EncodeAll(cps) == [] <==> cps == []
  {
  }

  // ---- Decoding.

  /** The bytes that `operator*` reads are there. */
  predicate Readable(b: Bytes) {
    && |b| >= 1
    && (b[0] >= 0x80 ==> |b| >= 2)
    && (b[0] >= 0xE0 ==> |b| >= 3)
    && (b[0] >= 0xF0 ==> |b| >= 4)
  }

  /** `const_iterator::operator*` */
  function Decode(b: Bytes): bv32
    requires Readable(b)
  {
    if b[0] < 0x80 then b[0] as bv32
    else if b[0] < 0xE0 then Decode2(b[0], b[1])
    else if b[0] < 0xF0 then Decode3(b[0], b[1], b[2])
    else Decode4(b[0], b[1], b[2], b[3])
  }

  function Decode2(b1: bv8, b2: bv8): bv32 {
    Join2((b1 & 0x1F) as bv32, Six(b2))
  }

  function Decode3(b1: bv8, b2: bv8, b3: bv8): bv32 {
    Join3((b1 & 0x0F) as bv32, Six(b2), Six(b3))
  }

  function Decode4(b1: bv8, b2: bv8, b3: bv8, b4: bv8): bv32 {
    Join4((b1 & 0x07) as bv32, Six(b2), Six(b3), Six(b4))
  }

  function Six(b: bv8): bv32 {
    (b & 0x3F) as bv32
  }

  function Join2(x1: bv32, x2: bv32): bv32 {
    (x1 << 6) | x2
  }

  function Join3(x1: bv32, x2: bv32, x3: bv32): bv32 {
    (x1 << 12) | (x2 << 6) | x3
  }

  function Join4(x1: bv32, x2: bv32, x3: bv32, x4: bv32): bv32 {
    (x1 << 18) | (x2 << 12) | (x3 << 6) | x4
  }

  lemma SixOfLow6(cp: bv32)
    ensures Six(Low6(cp)) == cp & 0x3F
  {
    assert ((0x80 | ((cp & 0x3F) as bv8)) & 0x3F) as bv32 == cp & 0x3F;
    assert Low6(cp) == 0x80 | ((cp & 0x3F) as bv8);
    assert Six(Low6(cp)) == Six(0x80 | ((cp & 0x3F) as bv8));
  }

  lemma LeadBytes2(cp: bv32)
    requires 0x80 <= cp < 0x800
    ensures 0xC0 <= Lead2(cp) < 0xE0 && (Lead2(cp) & 0x1F) as bv32 == cp >> 6
  {
    assert ((0xC0 | ((cp >> 6) as bv8)) & 0x1F) as bv32 == cp >> 6;
  }

  lemma LeadBytes3(cp: bv32)
    requires 0x800 <= cp < 0x10000
    ensures 0xE0 <= Lead3(cp) < 0xF0 && (Lead3(cp) & 0x0F) as bv32 == cp >> 12
  {
    assert ((0xE0 | ((cp >> 12) as bv8)) & 0x0F) as bv32 == cp >> 12;
  }

  lemma LeadBytes4(cp: bv32)
    requires 0x10000 <= cp <= 0x10FFFF
    ensures 0xF0 <= Lead4(cp) && (Lead4(cp) & 0x07) as bv32 == cp >> 18
  {
    assert ((0xF0 | ((cp >> 18) as bv8)) & 0x07) as bv32 == cp >> 18;
  }

  lemma Joins(cp: bv32)
    ensures cp < 0x800 ==> Join2(cp >> 6, cp & 0x3F) == cp
    ensures cp < 0x10000 ==> Join3(cp >> 12, (cp >> 6) & 0x3F, cp & 0x3F) == cp
    ensures cp <= 0x10FFFF ==> Join4(cp >> 18, (cp >> 12) & 0x3F, (cp >> 6) & 0x3F, cp & 0x3F) == cp
  {
    assert ((cp >> 6) << 6) | (cp & 0x3F) == cp;
    assert ((cp >> 12) << 12) | (((cp >> 6) & 0x3F) << 6) | (cp & 0x3F) == cp;
    assert ((cp >> 18) << 18) | (((cp >> 12) & 0x3F) << 12) | (((cp >> 6) & 0x3F) << 6) | (cp & 0x3F) == cp;
  }

  /** The iterator reads back the code point, and the first byte tells how far to step. */
  lemma DecodeInvertsEncode(cp: bv32, rest: Bytes)
    requires IsScalar(cp)
    ensures var b := Encode(cp) + rest;
            && Readable(b)
            && Decode(b) == cp
            && OneCharLen(b[0]) == |Encode(cp)|
            && (b[0] == 0 <==> cp == 0)
  {
    hide Lead2, Lead3, Lead4, Low6, Six, Join2, Join3, Join4;
    Joins(cp);
    SixOfLow6(cp);
    if cp < 0x80 {
    } else if cp < 0x800 {
      LeadBytes2(cp);
    } else if cp < 0x10000 {
      LeadBytes3(cp);
      SixOfLow6(cp >> 6);
    } else {
      LeadBytes4(cp);
      SixOfLow6(cp >> 6);
      SixOfLow6(cp >> 12);
    }
  }

  // ---- Cutting a text into characters.

  /** `c` is as long as its first byte says. */
  predicate IsChar(c: Bytes) {
    |c| > 0 && |c| == OneCharLen(c[0])
  }

  predicate AllChars(cs: seq<Bytes>) {
    forall i | 0 <= i < |cs| :: IsChar(cs[i])
  }

  /** No NUL where a character starts, and no character cut off by the end. */
  predicate SelfDelimiting(text: Bytes)
    decreases |text|
  {
    text == []
    || (text[0] != 0 && OneCharLen(text[0]) <= |text| && SelfDelimiting(text[OneCharLen(text[0])..]))
  }

  function Chars(text: Bytes): seq<Bytes>
    requires SelfDelimiting(text)
    decreases |text|
  {
    if text == [] then []
    else [text[..OneCharLen(text[0])]] + Chars(text[OneCharLen(text[0])..])
  }

  function Flatten(cs: seq<Bytes>): Bytes {
    if cs == [] then [] else cs[0] + Flatten(cs[1..])
  }

  method GetUTF8Chars(text: Bytes) returns (chars: seq<Bytes>)
    requires SelfDelimiting(text)
    ensures chars == Chars(text)
  {
    chars := [];
    var start := 0;
    while start < |text|
      invariant start <= |text|
      invariant SelfDelimiting(text[start..])
      invariant chars + Chars(text[start..]) == Chars(text)
      decreases |text| - start
    {
      var n := FirstLetterNumBytes(text[start]);
      assert text[start..][n..] == text[start + n..] && text[start..][..n] == text[start..start + n];
      Append(chars, text[start..start + n], Chars(text[start + n..]));
      chars := chars + [text[start..start + n]];
      start := start + n;
    }
    RightUnit(chars);
  }

  /** The pieces concatenate back to the text. */
  lemma {:induction false} CharsPartition(text: Bytes)
    requires SelfDelimiting(text)
    ensures Flatten(Chars(text)) == text && AllChars(Chars(text))
    decreases |text|
  {
    if text != [] {
      var n := OneCharLen(text[0]);
      CharsPartition(text[n..]);
      assert text == text[..n] + text[n..];
    }
  }

  /** Characters form a prefix code: a text can be cut into characters in one way only. */
  lemma {:induction false} FlattenInjective(a: seq<Bytes>, b: seq<Bytes>)
    requires AllChars(a) && AllChars(b)
    ensures Flatten(a) == Flatten(b) <==> a == b
    decreases |a|
  {
    if Flatten(a) == Flatten(b) && a != [] && b != [] {
      var text := Flatten(a);
      assert text == a[0] + Flatten(a[1..]) && text == b[0] + Flatten(b[1..]);
      assert text[0] == a[0][0] == b[0][0];
      assert a[0] == text[..|a[0]|] == b[0];
      assert Flatten(a[1..]) == text[|a[0]|..] == Flatten(b[1..]);
      FlattenInjective(a[1..], b[1..]);
      HeadTail(a);
      HeadTail(b);
    }
  }

  function EncodeEach(cps: seq<bv32>): seq<Bytes>
    requires AllScalar(cps)
  {
    seq(|cps|, i requires 0 <= i < |cps| => Encode(cps[i]))
  }

  /** On well-formed text without NUL, the pieces are the encodings of the code points, in order. */
  lemma {:induction false} CharsOfEncoded(cps: seq<bv32>)
    requires AllScalar(cps) && 0 !in cps
    ensures SelfDelimiting(EncodeAll(cps)) && Chars(EncodeAll(cps)) == EncodeEach(cps)
    decreases |cps|
  {
    hide Encode, Decode, OneCharLen;
    if cps != [] {
      var b, rest := Encode(cps[0]), EncodeAll(cps[1..]);
      DecodeInvertsEncode(cps[0], rest);
      CharsOfEncoded(cps[1..]);
      assert (b + rest)[..|b|] == b && (b + rest)[|b|..] == rest;
      assert EncodeEach(cps) == [b] + EncodeEach(cps[1..]);
    }
  }

  // ---- When the walk of `GetUTF8Chars` ends.

  /** Position after at most `k` rounds of the loop. */
  function Walk(text: Bytes, pos: nat, k: nat): nat
    decreases k
  {
    if k == 0 || pos >= |text| then pos else Walk(text, pos + FirstLetterNumBytes(text[pos]), k - 1)
  }

  lemma {:induction false} WalkShift(text: Bytes, pos: nat, k: nat)
    requires pos <= |text|
    ensures Walk(text, pos, k) == pos + Walk(text[pos..], 0, k)
    decreases k
  {
    if k > 0 && pos < |text| {
      var n := FirstLetterNumBytes(text[pos]);
      var rest := text[pos..];
      if pos + n <= |text| {
        WalkShift(text, pos + n, k - 1);
        WalkShift(rest, n, k - 1);
        assert rest[n..] == text[pos + n..];
      }
    }
  }

  /** One round, and then the walk of what is left. */
  lemma WalkStep(text: Bytes, k: nat)
    requires text != [] && k > 0
    ensures var n := FirstLetterNumBytes(text[0]);
            Walk(text, 0, k) == if n <= |text| then n + Walk(text[n..], 0, k - 1) else n
  {
    var n := FirstLetterNumBytes(text[0]);
    if n <= |text| {
      WalkShift(text, n, k - 1);
    }
  }

  lemma {:induction false} WalkReachesEnd(text: Bytes)
    requires SelfDelimiting(text)
    ensures Walk(text, 0, |text|) == |text|
    decreases |text|
  {
    if text != [] {
      var n := OneCharLen(text[0]);
      WalkStep(text, |text|);
      WalkReachesEnd(text[n..]);
      WalkStays(text[n..], |text| - n, |text| - 1);
    }
  }

  /** Once at the end, the walk stays there. */
  lemma {:induction false} WalkStays(text: Bytes, j: nat, k: nat)
    requires j <= k && Walk(text, 0, j) >= |text|
    ensures Walk(text, 0, k) == Walk(text, 0, j)
    decreases j
  {
    if text != [] {
      var n := FirstLetterNumBytes(text[0]);
      WalkStep(text, k);
      if j > 0 {
        WalkStep(text, j);
        if n <= |text| {
          WalkStays(text[n..], j - 1, k - 1);
        }
      }
    }
  }

  lemma {:induction false} EndReachedDelimits(text: Bytes, k: nat)
    requires Walk(text, 0, k) == |text|
    ensures SelfDelimiting(text)
    decreases k
  {
    if text != [] {
      assert text[0..] == text;
      WalkStep(text, k);
      var n := FirstLetterNumBytes(text[0]);
      EndReachedDelimits(text[n..], k - 1);
    }
  }

  /**
    The loop comes to rest exactly at the end of the text if and only if no character starts with NUL and
    the end cuts no character off; a NUL inside a character does no harm.
   */
  lemma WalkEndsExactly(text: Bytes)
    ensures (exists k :: Walk(text, 0, k) == |text|) <==> SelfDelimiting(text)
  {
    hide Walk, SelfDelimiting;
    if SelfDelimiting(text) {
      WalkReachesEnd(text);
    }
    forall k: nat | Walk(text, 0, k) == |text| ensures SelfDelimiting(text) {
      EndReachedDelimits(text, k);
    }
  }

  /** No NUL where a character starts. */
  predicate NoNulCharacter(text: Bytes)
    decreases |text|
  {
    text == []
    || (text[0] != 0 && (OneCharLen(text[0]) > |text| || NoNulCharacter(text[OneCharLen(text[0])..])))
  }

  /** The loop ends at all, perhaps past the end of the text, if and only if no character starts with NUL. */
  lemma WalkTerminatesExactly(text: Bytes)
    ensures (exists k :: Walk(text, 0, k) >= |text|) <==> NoNulCharacter(text)
  {
    hide Walk, NoNulCharacter;
    if NoNulCharacter(text) {
      WalkPasses(text);
    }
    forall k: nat | Walk(text, 0, k) >= |text| ensures NoNulCharacter(text) {
      PassedHasNoNul(text, k);
    }
  }

  lemma {:induction false} WalkPasses(text: Bytes)
    requires NoNulCharacter(text)
    ensures Walk(text, 0, |text|) >= |text|
    decreases |text|
  {
    if text != [] {
      var n := OneCharLen(text[0]);
      WalkStep(text, |text|);
      if n <= |text| {
        WalkPasses(text[n..]);
        WalkStays(text[n..], |text| - n, |text| - 1);
      }
    }
  }

  lemma {:induction false} PassedHasNoNul(text: Bytes, k: nat)
    requires Walk(text, 0, k) >= |text|
    ensures NoNulCharacter(text)
    decreases k
  {
    if text != [] {
      assert text[0..] == text;
      WalkStep(text, k);
      var n := FirstLetterNumBytes(text[0]);
      if n <= |text| {
        PassedHasNoNul(text[n..], k - 1);
      }
    }
  }

  /** A NUL by itself holds the loop for ever; inside a character it is passed; a cut-off character is overrun. */
  lemma WalkExamples()
    ensures forall k: nat :: Walk([0], 0, k) == 0
    ensures Walk([0xC3, 0x00], 0, 1) == 2
    ensures Walk([0xF0], 0, 1) == 4
  {
    forall k: nat ensures Walk([0], 0, k) == 0 {
      WalkHeld(k);
    }
    assert Walk([0xC3, 0x00], 2, 0) == 2 && Walk([0xF0], 4, 0) == 4;
  }

  lemma {:induction false} WalkHeld(k: nat)
    ensures Walk([0], 0, k) == 0
  {
    if k > 0 {
      WalkHeld(k - 1);
    }
  }

  /** On well-formed text a character that starts with NUL is the code point 0. */
  lemma {:induction false} DelimitedHasNoZero(cps: seq<bv32>)
    requires AllScalar(cps) && SelfDelimiting(EncodeAll(cps))
    ensures 0 !in cps
    decreases |cps|
  {
    if cps != [] {
      var b, rest := Encode(cps[0]), EncodeAll(cps[1..]);
      DecodeInvertsEncode(cps[0], rest);
      assert (b + rest)[|b|..] == rest;
      DelimitedHasNoZero(cps[1..]);
    }
  }

  /** On well-formed text, the loop comes to its end exactly when the text has no NUL. */
  lemma WalkEndsWithoutNul(cps: seq<bv32>)
    requires AllScalar(cps)
    ensures (exists k :: Walk(EncodeAll(cps), 0, k) == |EncodeAll(cps)|) <==> 0 !in cps
  {
    WalkEndsExactly(EncodeAll(cps));
    if 0 !in cps {
      CharsOfEncoded(cps);
    } else if SelfDelimiting(EncodeAll(cps)) {
      DelimitedHasNoZero(cps);
    }
  }

  // ---- The iterator.

  class ConstIterator {
    const data: Bytes
    var it: nat

    constructor (data: Bytes)
      ensures this.data == data && it == 0
    {
      this.data := data;
      it := 0;
    }

    function Current(): bv32
      reads this
      requires it <= |data| && Readable(data[it..])
    {
      Decode(data[it..])
    }

    method Advance()
      requires it < |data|
      modifies this
      ensures it == old(it) + OneCharLen(data[old(it)])
    {
      it := it + OneCharLen(data[it]);
    }
  }

  /** What the iterator reads at a position, and what is left of the text after it. */
  lemma NextCodePoint(text: Bytes, at: nat, cps: seq<bv32>)
    requires AllScalar(cps) && at < |text| && text[at..] == EncodeAll(cps)
    ensures cps != [] && Readable(text[at..]) && Decode(text[at..]) == cps[0]
    ensures var next := at + OneCharLen(text[at]);
            next <= |text| && text[next..] == EncodeAll(cps[1..])
  {
    hide Encode, Decode, OneCharLen, Readable;
    var rest := EncodeAll(cps[1..]);
    DecodeInvertsEncode(cps[0], rest);
    assert text[at..][|Encode(cps[0])|..] == text[at + |Encode(cps[0])|..];
    assert (Encode(cps[0]) + rest)[|Encode(cps[0])|..] == rest;
  }

  /** A range-for over a `UnicodeText` that holds well-formed text visits its code points. */
  method CodePoints(text: Bytes, ghost cps: seq<bv32>) returns (visited: seq<bv32>)
    requires AllScalar(cps) && text == EncodeAll(cps)
    ensures visited == cps
  {
    hide Encode, EncodeAll, Decode, OneCharLen, Readable;
    visited := [];
    var position := new ConstIterator(text);
    assert cps[0..] == cps && text[0..] == text;
    while position.it != |text|
      invariant position.data == text
      invariant |visited| <= |cps| && visited == cps[..|visited|]
      invariant position.it <= |text|
      invariant text[position.it..] == EncodeAll(cps[|visited|..])
      decreases |cps| - |visited|
    {
      ghost var i, at := |visited|, position.it;
      NextCodePoint(text, at, cps[i..]);
      ShiftBy(cps, i);
      visited := visited + [position.Current()];
      position.Advance();
    }
    EncodesSomething(cps[|visited|..]);
  }
}
