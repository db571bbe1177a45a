/** FML as functions on text: what the cursor of `FMLParser` computes, item by item. */
module FmlGrammar {
  import opened Characters
  import opened Wrappers
  import opened Sequences
  import opened FmlDescriptor

  // Item types; a non-negative kind is a single character.
  const END := 0
  const NAME := -1
  const NUMBER := -2
  const STRING := -3

  /** `item_type_ = CurrentChar()`: plain `char` is a signed byte. */
  function CharKind(c: char): (k: int)
    ensures c as int < 256 ==> -128 <= k < 128 && (k == c as int || k + 256 == c as int)
  {
    if c as int < 128 then c as int else c as int % 128 - 128
  }

  /** The current item, together with the input that follows it. */
  datatype Item = Item(kind: int, text: string, rest: string) {
    predicate Is(c: char) {
      kind == c as int
    }

    /** Termination measure of the parser: unread input, plus one for an unconsumed item. */
    function Size(): nat {
      |rest| + if kind == END then 0 else 1
    }
  }

  /** Length of the longest prefix of `r` whose characters all satisfy `p`. */
  function Run(p: char -> bool, r: string): (n: nat)
    ensures n <= |r|
  {
    if r == "" || !p(r[0]) then 0 else 1 + Run(p, r[1..])
  }

  /** `Run` measures exactly the leading characters that satisfy `p`. */
  lemma {:induction false} RunIsMaximal(p: char -> bool, r: string)
    ensures var n := Run(p, r);
            All(p, r[..n]) && (n < |r| ==> !p(r[n]))
  {
    if r != "" && p(r[0]) {
      RunIsMaximal(p, r[1..]);
      Shift(r, Run(p, r[1..]));
    }
  }

  /** Skips white space, and comments from '#' to the end of the line. */
  function SkipBlanks(r: string): (t: string)
    ensures |t| <= |r|
    decreases |r|
  {
    if r == "" then r
    else if r[0] == '#' then SkipBlanks(r[Run(NotNewline, r)..])
    else if IsSpace(r[0]) then SkipBlanks(r[1..])
    else r
  }

  /** Only leading text is skipped, and what is left starts an item. */
  lemma {:induction false} SkipBlanksLeavesItem(r: string)
    ensures var t := SkipBlanks(r);
            t == r[|r| - |t|..] && (t == "" || (!IsSpace(t[0]) && t[0] != '#'))
    decreases |r|
  {
    if r != "" && r[0] == '#' {
      SkipBlanksLeavesItem(r[Run(NotNewline, r)..]);
    } else if r != "" && IsSpace(r[0]) {
      SkipBlanksLeavesItem(r[1..]);
    }
  }

  /** The next item of `r`; `text` is the text of the item before, which a single character keeps. */
  function NextItem(text: string, r: string): (it: Option<Item>)
    ensures it.Some? ==> it.value.Size() <= |r|
  {
    ItemAt(text, SkipBlanks(r))
  }

  function ItemAt(text: string, r: string): (it: Option<Item>)
    ensures it.Some? ==> it.value.Size() <= |r|
  {
    if r == "" then
      Some(Item(END, text, ""))
    else if StartsNumber(r[0]) then
      var n := 1 + Run(InsideNumber, r[1..]);
      Some(Item(NUMBER, r[..n], r[n..]))
    else if r[0] == '"' then
      var n := Run(NotQuote, r[1..]);
      if n == |r| - 1 then None else Some(Item(STRING, r[1..n + 1], r[n + 2..]))
    else if StartsName(r[0]) then
      var n := Run(InsideName, r);
      Some(Item(NAME, r[..n], r[n..]))
    else
      Some(Item(CharKind(r[0]), text, r[1..]))
  }

  lemma NumberItem(text: string, r: string)
    requires r != "" && StartsNumber(r[0])
    ensures var n := Run(InsideNumber, r[1..]);
            ItemAt(text, r) == Some(Item(NUMBER, [r[0]] + r[1..][..n], r[1..][n..]))
  {
    Shift(r, Run(InsideNumber, r[1..]));
  }

  function Advance(it: Item): (next: Option<Item>)
    ensures next.Some? && it.kind != END ==> next.value.Size() < it.Size()
  {
    NextItem(it.text, it.rest)
  }

  function DigitValue(c: char): int {
    c as int - '0' as int
  }

  /** Value of the longest prefix of digits below `base`, after `acc`. */
  function Digits(base: int, acc: int, s: string): int
    decreases s
  {
    if s != "" && IsDigit(s[0]) && DigitValue(s[0]) < base
    then Digits(base, acc * base + DigitValue(s[0]), s[1..])
    else acc
  }

  /**
    `strtol(text, 0, 0)` on the text of a NUMBER item: a sign, then octal after a leading zero and
    decimal otherwise (no 'x' is possible inside such an item), saturated to 64 bits.
   */
  function StringToLong(text: string): int {
    var signed := text != "" && (text[0] == '+' || text[0] == '-');
    var digits := if signed then text[1..] else text;
    var magnitude := Digits(if digits != "" && digits[0] == '0' then 8 else 10, 0, digits);
    var value := if signed && text[0] == '-' then -magnitude else magnitude;
    if value < -0x8000_0000_0000_0000 then -0x8000_0000_0000_0000
    else if value > 0x7fff_ffff_ffff_ffff then 0x7fff_ffff_ffff_ffff
    else value
  }

  /** `ParseUsing<int>(text, ParseInt32)`: the long is truncated to 32 bits, trailing text is ignored. */
  function ParseInt32(text: string): (n: int)
    ensures IsInt32(n)
  {
    (StringToLong(text) + 0x8000_0000) % 0x1_0000_0000 - 0x8000_0000
  }

  function ParseParameter(it: Item, f: Function): (r: Option<(Function, Item)>)
    ensures r.Some? ==> r.value.1.Size() < it.Size()
  {
    if it.kind == NUMBER then
      var next :- Advance(it);
      Some((f.(argument := Some(ParseInt32(it.text))), next))
    else if it.kind == NAME then
      var equals :- Advance(it);
      if !equals.Is('=') then None else
      var value :- Advance(equals);
      if value.kind >= END then None else
      var next :- Advance(value);
      Some((f.(parameters := f.parameters + [Parameter(it.text, value.text)]), next))
    else None
  }

  function ParseMoreParameters(it: Item, f: Function): (r: Option<(Function, Item)>)
    ensures r.Some? ==> r.value.1.Size() <= it.Size()
    decreases it.Size()
  {
    if !it.Is(',') then Some((f, it)) else
    var next :- Advance(it);
    var (f1, it1) :- ParseParameter(next, f);
    ParseMoreParameters(it1, f1)
  }

  function ParseArguments(it: Item, f: Function): (r: Option<(Function, Item)>)
    ensures r.Some? ==> r.value.1.Size() <= it.Size()
  {
    if !it.Is('(') then Some((f, it)) else
    var first :- Advance(it);
    var (f1, it1) :- ParseParameter(first, f);
    var (f2, it2) :- ParseMoreParameters(it1, f1);
    if !it2.Is(')') then None else
    var next :- Advance(it2);
    Some((f2, next))
  }

  function ParseName(it: Item, f: Function): (r: Option<(Function, Item)>)
    ensures r.Some? ==> r.value.1.Size() <= it.Size()
  {
    if !it.Is(':') then Some((f, it)) else
    var name :- Advance(it);
    if name.kind != NAME && name.kind != STRING then None else
    var next :- Advance(name);
    Some((f.(name := Some(name.text)), next))
  }

  function AddFeature(f: Function, g: Function): Function {
    f.(features := f.features + [g])
  }

  function ParseFeature(it: Item, f: Function): (r: Option<(Function, Item)>)
    ensures r.Some? ==> r.value.1.Size() <= it.Size()
    decreases it.Size(), 2
  {
    var (f1, it1) :- ParseArguments(it, f);
    var (f2, it2) :- ParseName(it1, f1);
    ParseSubfeatures(it2, f2)
  }

  function ParseSubfeatures(it: Item, f: Function): (r: Option<(Function, Item)>)
    ensures r.Some? ==> r.value.1.Size() <= it.Size()
    decreases it.Size(), 1
  {
    if it.Is('.') then
      var typ :- Advance(it);
      if typ.kind != NAME then None else
      var next :- Advance(typ);
      var (g, last) :- ParseFeature(next, NewFunction(typ.text));
      Some((AddFeature(f, g), last))
    else if it.Is('{') then ParseBraces(it, f)
    else Some((f, it))
  }

  function ParseBraces(it: Item, f: Function): (r: Option<(Function, Item)>)
    requires it.Is('{')
    ensures r.Some? ==> r.value.1.Size() <= it.Size()
    decreases it.Size(), 0
  {
    var first :- Advance(it);
    var (g, close) :- ParseBlock(first, f);
    var next :- Advance(close);
    Some((g, next))
  }

  /** Sub-features up to the closing brace, which is left as the current item. */
  function ParseBlock(it: Item, f: Function): (r: Option<(Function, Item)>)
    ensures r.Some? ==> r.value.1.Size() <= it.Size() && r.value.1.Is('}')
    decreases it.Size(), 0
  {
    if it.Is('}') then Some((f, it))
    else if it.kind != NAME then None else
    var next :- Advance(it);
    var (g, it1) :- ParseFeature(next, NewFunction(it.text));
    ParseBlock(it1, AddFeature(f, g))
  }

  function ParseFeatures(it: Item, fs: seq<Function>): (r: Option<seq<Function>>)
    decreases it.Size()
  {
    if it.kind == END then Some(fs)
    else if it.kind != NAME then None else
    var next :- Advance(it);
    if next.Is('=') then None else
    var (f, it1) :- ParseFeature(next, NewFunction(it.text));
    ParseFeatures(it1, fs + [f])
  }

  /**
    What `Parse` makes of a source: a list of features, or `None` for a failed check.
    `text` is the item text a previous use of the parser has left behind.
   */
  function ParseSource(text: string, source: string): Option<seq<Function>> {
    var first :- NextItem(text, source);
    ParseFeatures(first, [])
  }
}
