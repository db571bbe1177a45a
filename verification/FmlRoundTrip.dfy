/** Printing a descriptor and parsing the text again. */
module FmlRoundTrip {
  import opened Characters
  import opened Wrappers
  import opened Sequences
  import opened FmlDescriptor
  import opened FmlPrinter
  import opened FmlGrammar
  import opened FmlLexing

  /** The text of the last item with a text in a parameter list that follows an item `t`. */
  function LastValue(t: string, ps: seq<Parameter>): string {
    if ps == [] then t else ps[|ps| - 1].value
  }

  function LastArgument(f: Function): string {
    LastValue(if f.Argument() != 0 then IntText(f.Argument()) else f.typ, f.parameters)
  }

  /** The text of the last item with a text in `Text(f)`. */
  function LastText(f: Function): string {
    if f.features == [] then LastArgument(f) else LastText(f.features[|f.features| - 1])
  }

  function LastOfAll(t: string, fs: seq<Function>): string {
    if fs == [] then t else LastText(fs[|fs| - 1])
  }

  /** Input at which a printed feature ends: it lexes, and does not continue the feature. */
  predicate Stops(r: string) {
    && (r == "" || IsSpace(r[0]))
    && var it := NextItem("", r);
    && it.Some?
    && (it.value.kind == NAME || it.value.Is('}') || it.value.kind == END)
  }

  function ItemAfter(t: string, r: string): Item
    requires NextItem("", r).Some?
  {
    TextIsCarried("", t, r);
    NextItem(t, r).value
  }

  lemma ParameterReadsBack(p: Parameter, t: string, r: string, f: Function)
    requires PrintableParameter(p)
    requires NextItem("", r).Some?
    ensures NextItem(t, ParameterText(p) + r).Some?
    ensures ParseParameter(NextItem(t, ParameterText(p) + r).value, f)
         == Some((f.(parameters := f.parameters + [p]), ItemAfter(p.value, r)))
  {
    hide NextItem;
    var value := "\"" + p.value + "\"" + r;
    assert ParameterText(p) + r == p.name + (['='] + value);
    LexName(t, p.name, ['='] + value);
    LexPunctuation(p.name, '=', value);
    LexString(p.name, p.value, r);
    TextIsCarried("", p.value, r);
  }

  lemma {:induction false} MoreParametersReadBack(ps: seq<Parameter>, t: string, r: string, f: Function)
    requires forall p | p in ps :: PrintableParameter(p)
    ensures NextItem(t, MoreParameters(ps) + ")" + r).Some?
    ensures ParseMoreParameters(NextItem(t, MoreParameters(ps) + ")" + r).value, f)
         == Some((f.(parameters := f.parameters + ps), Item(')' as int, LastValue(t, ps), r)))
    decreases |ps|
  {
    hide NextItem, ParameterText, ParseParameter;
    if ps == [] {
      assert MoreParameters(ps) + ")" + r == [')'] + r;
      LexPunctuation(t, ')', r);
      RightUnit(f.parameters);
    } else {
      var more := MoreParameters(ps[1..]) + ")" + r;
      var g := f.(parameters := f.parameters + [ps[0]]);
      Comma(ParameterText(ps[0]), MoreParameters(ps[1..]), r);
      LexPunctuation(t, ',', ParameterText(ps[0]) + more);
      MoreParametersReadBack(ps[1..], ps[0].value, r, g);
      TextIsCarried("", ps[0].value, more);
      ParameterReadsBack(ps[0], t, more, f);
      Append(f.parameters, ps[0], ps[1..]);
      HeadTail(ps);
    }
  }

  /** What is left of a printed function when its sub-features are not read yet. */
  function Head(f: Function): Function {
    Function(f.typ, None, if f.Argument() == 0 then None else f.argument, f.parameters, [])
  }

  lemma ArgumentsReadBack(f: Function, r: string)
    requires IsInt32(f.Argument()) && forall p | p in f.parameters :: PrintableParameter(p)
    requires NextItem("", r).Some? && !NextItem("", r).value.Is('(')
    ensures NextItem(f.typ, ArgumentsText(f) + r).Some?
    ensures ParseArguments(NextItem(f.typ, ArgumentsText(f) + r).value, NewFunction(f.typ))
         == Some((Head(f), ItemAfter(LastArgument(f), r)))
    ensures NextItem(f.typ, ArgumentsText(f) + r).value.kind in ['(' as int, ItemAfter("", r).kind]
  {
    hide NextItem;
    TextIsCarried("", f.typ, r);
    TextIsCarried("", LastArgument(f), r);
    if f.Argument() != 0 {
      ArgumentReadsBack(f, r);
    } else if f.parameters != [] {
      ParametersReadBack(f, r);
    } else {
      assert ArgumentsText(f) + r == r;
    }
  }

  lemma Comma(p: string, more: string, r: string)
    ensures "," + p + more + ")" + r == [','] + (p + (more + ")" + r))
  {
  }

  lemma Parenthesised(first: string, more: string, r: string)
    ensures "(" + (first + more) + ")" + r == ['('] + (first + (more + ")" + r))
  {
  }

  lemma ArgumentReadsBack(f: Function, r: string)
    requires IsInt32(f.Argument()) && forall p | p in f.parameters :: PrintableParameter(p)
    requires NextItem(LastArgument(f), r).Some?
    requires f.Argument() != 0
    ensures NextItem(f.typ, ArgumentsText(f) + r).Some?
    ensures ParseArguments(NextItem(f.typ, ArgumentsText(f) + r).value, NewFunction(f.typ))
         == Some((Head(f), NextItem(LastArgument(f), r).value))
    ensures NextItem(f.typ, ArgumentsText(f) + r).value.Is('(')
  {
    var n := IntText(f.Argument());
    var more := MoreParameters(f.parameters) + ")" + r;
    Parenthesised(n, MoreParameters(f.parameters), r);
    LexPunctuation(f.typ, '(', n + more);
    LexInt(f.typ, f.Argument(), more);
    ParseInt32OfIntText(f.Argument());
    LeftUnit(f.parameters);
    hide NextItem, IntText, ListText;
    MoreParametersReadBack(f.parameters, n, r, NewFunction(f.typ).(argument := f.argument));
  }

  lemma ParametersReadBack(f: Function, r: string)
    requires forall p | p in f.parameters :: PrintableParameter(p)
    requires NextItem(LastArgument(f), r).Some?
    requires f.Argument() == 0 && f.parameters != []
    ensures NextItem(f.typ, ArgumentsText(f) + r).Some?
    ensures ParseArguments(NextItem(f.typ, ArgumentsText(f) + r).value, NewFunction(f.typ))
         == Some((Head(f), NextItem(LastArgument(f), r).value))
    ensures NextItem(f.typ, ArgumentsText(f) + r).value.Is('(')
  {
    var bare := NewFunction(f.typ);
    var p := f.parameters[0];
    var more := MoreParameters(f.parameters[1..]) + ")" + r;
    Parenthesised(ParameterText(p), MoreParameters(f.parameters[1..]), r);
    LexPunctuation(f.typ, '(', ParameterText(p) + more);
    hide NextItem, ParameterText;
    MoreParametersReadBack(f.parameters[1..], p.value, r, bare.(parameters := [p]));
    TextIsCarried("", p.value, more);
    ParameterReadsBack(p, f.typ, more, bare);
    LeftUnit([p]);
    HeadTail(f.parameters);
  }

  /** The printed tail of `f`, read after its type, gives `f` back and stops where `r` starts. */
  lemma {:induction false} FeatureReadsBack(f: Function, r: string)
    requires Printable(f) && Stops(r)
    ensures NextItem(f.typ, TailInput(f, r)).Some?
    ensures ParseFeature(NextItem(f.typ, TailInput(f, r)).value, NewFunction(f.typ))
         == Some((Strip(f), ItemAfter(LastText(f), r)))
    ensures !NextItem(f.typ, TailInput(f, r)).value.Is('=')
    decreases f, 2
  {
    hide NextItem, ParseSubfeatures;
    SubfeaturesReadBack(f, r);
    ArgumentsReadBack(f, FeaturesText(f) + r);
    Assoc(ArgumentsText(f), FeaturesText(f), r);
    TextIsCarried("", LastArgument(f), FeaturesText(f) + r);
  }

  lemma {:induction false} SubfeaturesReadBack(f: Function, r: string)
    requires Printable(f) && Stops(r)
    ensures var first := NextItem("", FeaturesText(f) + r);
            first.Some? && first.value.kind !in ['(' as int, ':' as int, '=' as int]
    ensures ParseSubfeatures(ItemAfter(LastArgument(f), FeaturesText(f) + r), Head(f))
         == Some((Strip(f), ItemAfter(LastText(f), r)))
    decreases f, 1
  {
    hide NextItem, ParseArguments, ParseName;
    var t := LastArgument(f);
    TextIsCarried("", t, r);
    if f.features == [] {
      assert FeaturesText(f) + r == r;
      assert Strip(f) == Head(f);
    } else if |f.features| == 1 {
      DottedReadsBack(f, r);
    } else {
      BracesReadBack(f, r);
    }
  }

  lemma {:induction false} DottedReadsBack(f: Function, r: string)
    requires Printable(f) && Stops(r) && |f.features| == 1
    ensures var first := NextItem("", FeaturesText(f) + r);
            first.Some? && first.value.Is('.')
    ensures ParseSubfeatures(ItemAfter(LastArgument(f), FeaturesText(f) + r), Head(f))
         == Some((Strip(f), ItemAfter(LastText(f), r)))
    decreases f, 0
  {
    hide NextItem, ParseArguments, ParseName, LastArgument;
    var t, g := LastArgument(f), f.features[0];
    var tail := TailText(g) + r;
    assert Printable(g) && FeaturesText(f) == "." + Text(g) && Text(g) == g.typ + TailText(g);
    Dotted(g.typ, TailText(g), r);
    LexPunctuation("", '.', g.typ + tail);
    LexPunctuation(t, '.', g.typ + tail);
    TailDetaches(g, r);
    LexName(t, g.typ, tail);
    FeatureReadsBack(g, r);
    assert Strip(f) == AddFeature(Head(f), Strip(g));
  }

  /** The input from the first sub-feature of a block on. */
  function BlockInput(fs: seq<Function>, r: string): string {
    SpacedText(fs) + " } " + r
  }

  /** The input after a printed type. */
  function TailInput(f: Function, r: string): string {
    TailText(f) + r
  }

  lemma {:induction false} BracesReadBack(f: Function, r: string)
    requires Printable(f) && Stops(r) && |f.features| > 1
    ensures var first := NextItem("", FeaturesText(f) + r);
            first.Some? && first.value.Is('{')
    ensures ParseSubfeatures(ItemAfter(LastArgument(f), FeaturesText(f) + r), Head(f))
         == Some((Strip(f), ItemAfter(LastText(f), r)))
    decreases f, 0
  {
    assert PrintableAll(f.features);
    LeftUnit(StripAll(f.features));
    var t := LastArgument(f);
    var last := LastOfAll(t, f.features);
    BlockStarts(f, r, "");
    BlockStarts(f, r, t);
    LexSpace(last, ' ', r);
    TextIsCarried("", last, r);
    hide NextItem, BlockInput, ParseBlock, Strip, StripAll, LastArgument, Printable, FeaturesText;
    BlockReadsBack(f.features, t, r, Head(f));
  }

  lemma BlockStarts(f: Function, r: string, t: string)
    requires |f.features| > 1
    ensures NextItem(t, FeaturesText(f) + r) == Some(Item('{' as int, t, BlockInput(f.features, r)))
  {
    hide NextItem;
    var inside := BlockInput(f.features, r);
    Braced(SpacedText(f.features), r);
    LexSpace(t, ' ', ['{'] + inside);
    LexPunctuation(t, '{', inside);
  }

  lemma Braced(inside: string, r: string)
    ensures " {" + inside + " } " + r == [' '] + (['{'] + (inside + " } " + r))
  {
  }

  lemma Dotted(typ: string, tail: string, r: string)
    ensures "." + (typ + tail) + r == ['.'] + (typ + (tail + r))
  {
  }

  lemma Closed(r: string)
    ensures "" + " } " + r == [' '] + (['}'] + (" " + r))
  {
  }

  lemma Spaced(typ: string, tail: string, more: string, r: string)
    ensures " " + (typ + tail) + more + " } " + r == [' '] + (typ + (tail + (more + " } " + r)))
  {
  }

  /** What follows a printed type cannot be taken for a part of it. */
  lemma TailDetaches(g: Function, r: string)
    requires r == "" || IsSpace(r[0])
    ensures var tail := TailText(g) + r;
            tail == "" || !InsideName(tail[0])
  {
    if TailText(g) == "" {
      assert TailText(g) + r == r;
    }
  }

  /** The first item of printed sub-features: the next type, or the closing brace. */
  lemma BlockItem(fs: seq<Function>, t: string, r: string)
    requires PrintableAll(fs) && (r == "" || IsSpace(r[0]))
    ensures NextItem(t, BlockInput(fs, r))
         == Some(if fs == [] then Item('}' as int, t, " " + r)
                 else Item(NAME, fs[0].typ, TailInput(fs[0], BlockInput(fs[1..], r))))
    ensures BlockInput(fs, r) != "" && BlockInput(fs, r)[0] == ' '
  {
    hide NextItem;
    if fs == [] {
      Closed(r);
      LexSpace(t, ' ', ['}'] + (" " + r));
      LexPunctuation(t, '}', " " + r);
    } else {
      var g := fs[0];
      var more := SpacedText(fs[1..]) + " } " + r;
      assert Text(g) == g.typ + TailText(g);
      Spaced(g.typ, TailText(g), SpacedText(fs[1..]), r);
      LexSpace(t, ' ', g.typ + (TailText(g) + more));
      assert Printable(g);
      TailDetaches(g, more);
      LexName(t, g.typ, TailText(g) + more);
    }
  }

  /** The features of a block, read one by one into `f` up to the closing brace. */
  lemma {:induction false} BlockReadsBack(fs: seq<Function>, t: string, r: string, f: Function)
    requires PrintableAll(fs) && Stops(r)
    ensures NextItem(t, BlockInput(fs, r)).Some?
    ensures ParseBlock(NextItem(t, BlockInput(fs, r)).value, f)
         == Some((f.(features := f.features + StripAll(fs)), Item('}' as int, LastOfAll(t, fs), " " + r)))
    decreases fs, 0
  {
    hide NextItem, ParseFeature, LastText, BlockInput, TailInput;
    BlockItem(fs, t, r);
    if fs != [] {
      var g := fs[0];
      var more := BlockInput(fs[1..], r);
      BlockItem(fs[1..], "", r);
      assert Printable(g) && Stops(more);
      Append(f.features, Strip(g), StripAll(fs[1..]));
      FeatureReadsBack(g, more);
      BlockReadsBack(fs[1..], LastText(g), r, AddFeature(f, Strip(g)));
    } else {
      assert f.features + StripAll(fs) == f.features;
    }
  }
}
