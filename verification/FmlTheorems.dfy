/** The main results about FML: round trip, printability of what is accepted, stability. */
module FmlTheorems {
  import opened Wrappers
  import opened Sequences
  import opened FmlDescriptor
  import opened FmlPrinter
  import opened FmlGrammar
  import opened FmlLexing
  import opened FmlRoundTrip

  predicate IsAscii(c: char) {
    c as int < 128
  }

  // ---- Printing, then parsing.

  /** The input after the first line of a printed extractor. */
  function MoreLines(fs: seq<Function>): string
    requires fs != []
  {
    "\n" + ExtractorText(fs[1..])
  }

  lemma LineItem(fs: seq<Function>, t: string)
    requires PrintableAll(fs)
    ensures NextItem(t, ExtractorText(fs))
         == Some(if fs == [] then Item(END, t, "")
                 else Item(NAME, fs[0].typ, TailInput(fs[0], MoreLines(fs))))
    ensures fs != [] ==> NextItem(t, MoreLines(fs)) == NextItem(t, ExtractorText(fs[1..]))
  {
    if fs != [] {
      var f := fs[0];
      assert Printable(f) && Text(f) == f.typ + TailText(f);
      LexSpace(t, '\n', ExtractorText(fs[1..]));
      hide NextItem;
      Line(f.typ, TailText(f), ExtractorText(fs[1..]));
      TailDetaches(f, MoreLines(fs));
      LexName(t, f.typ, TailInput(f, MoreLines(fs)));
    }
  }

  lemma Line(typ: string, tail: string, more: string)
    ensures (typ + tail) + "\n" + more == typ + (tail + ("\n" + more))
  {
  }

  lemma {:induction false} FeaturesReadBack(fs: seq<Function>, t: string, acc: seq<Function>)
    requires PrintableAll(fs)
    ensures NextItem(t, ExtractorText(fs)).Some?
    ensures ParseFeatures(NextItem(t, ExtractorText(fs)).value, acc) == Some(acc + StripAll(fs))
    decreases fs
  {
    LineItem(fs, t);
    if fs == [] {
      assert acc + StripAll(fs) == acc;
    } else {
      var f := fs[0];
      assert Printable(f);
      LineItem(fs, "");
      LineItem(fs, LastText(f));
      LineItem(fs[1..], "");
      hide NextItem, ParseFeature, Printable, TailInput, LastText, ExtractorText;
      assert Stops(MoreLines(fs));
      FeatureReadsBack(f, MoreLines(fs));
      FeaturesReadBack(fs[1..], LastText(f), acc + [Strip(f)]);
      Append(acc, Strip(f), StripAll(fs[1..]));
    }
  }

  /**
    Round trip: printing a printable extractor and parsing the text gives the extractor back,
    up to feature names and zero arguments, at any nesting depth.
   */
  lemma RoundTrip(fs: seq<Function>, t: string)
    requires PrintableAll(fs)
    ensures ParseSource(t, ExtractorText(fs)) == Some(StripAll(fs))
  {
    FeaturesReadBack(fs, t, []);
    LeftUnit(StripAll(fs));
  }

  /** Two printable extractors have the same text only if they agree up to names and zero arguments. */
  lemma TextIdentifies(fs: seq<Function>, gs: seq<Function>)
    requires PrintableAll(fs) && PrintableAll(gs)
    ensures ExtractorText(fs) == ExtractorText(gs) <==> StripAll(fs) == StripAll(gs)
  {
    RoundTrip(fs, "");
    RoundTrip(gs, "");
    StripKeepsText(fs);
    StripKeepsText(gs);
  }

  lemma {:induction false} StripKeepsText(fs: seq<Function>)
    ensures ExtractorText(StripAll(fs)) == ExtractorText(fs)
  {
    if fs != [] {
      StripKeepsFunctionText(fs[0]);
      StripKeepsText(fs[1..]);
    }
  }

  lemma {:induction false} StripKeepsFunctionText(f: Function)
    ensures Text(Strip(f)) == Text(f)
    decreases f, 1
  {
    assert ArgumentsText(Strip(f)) == ArgumentsText(f);
    StripKeepsSpacedText(f.features);
    if |f.features| == 1 {
      StripKeepsFunctionText(f.features[0]);
      assert StripAll(f.features)[0] == Strip(f.features[0]);
    }
    assert FeaturesText(Strip(f)) == FeaturesText(f);
    assert Text(Strip(f)) == f.typ + TailText(Strip(f));
  }

  lemma {:induction false} StripKeepsSpacedText(fs: seq<Function>)
    ensures SpacedText(StripAll(fs)) == SpacedText(fs)
    decreases fs
  {
    if fs != [] {
      StripKeepsFunctionText(fs[0]);
      StripKeepsSpacedText(fs[1..]);
    }
  }

  // ---- Parsing, then printing.

  /** What holds of every item of an ASCII source. */
  predicate Clean(it: Item) {
    && All(IsAscii, it.rest)
    && (it.kind == NAME ==> IsName(it.text))
    && (it.kind < END ==> All(NotQuote, it.text))
  }

  lemma NextIsClean(t: string, r: string)
    requires All(IsAscii, r)
    ensures NextItem(t, r).Some? ==> Clean(NextItem(t, r).value)
  {
    hide ItemAt, SkipBlanks;
    SkipBlanksLeavesItem(r);
    ItemIsClean(t, SkipBlanks(r));
  }

  lemma ItemIsClean(t: string, r: string)
    requires All(IsAscii, r)
    ensures ItemAt(t, r).Some? ==> Clean(ItemAt(t, r).value)
  {
    SuffixIsAscii(r);
    if r != "" {
      RunIsMaximal(InsideName, r);
      RunIsMaximal(InsideNumber, r[1..]);
      RunIsMaximal(NotQuote, r[1..]);
      NameIsClean(r, Run(InsideName, r));
      NumberIsClean(r, Run(InsideNumber, r[1..]));
      StringIsClean(r, Run(NotQuote, r[1..]));
    }
    hide Run, All, IsName, InsideName, InsideNumber, NotQuote, IsAscii;
  }

  lemma SuffixIsAscii(r: string)
    requires All(IsAscii, r)
    ensures forall n | 0 <= n <= |r| :: All(IsAscii, r[n..])
    ensures r != "" ==> CharKind(r[0]) >= END
    ensures All(IsAscii, "")
  {
  }

  lemma NumberIsClean(r: string, n: nat)
    requires r != "" && n < |r| && All(InsideNumber, r[1..][..n])
    ensures StartsNumber(r[0]) ==> All(NotQuote, r[..n + 1])
  {
    Shift(r, n);
  }

  lemma StringIsClean(r: string, n: nat)
    requires r != "" && n < |r| && All(NotQuote, r[1..][..n])
    ensures All(NotQuote, r[1..n + 1])
  {
    Shift(r, n);
  }

  lemma NameIsClean(r: string, n: nat)
    requires r != "" && n <= |r| && All(InsideName, r[..n]) && (n < |r| ==> !InsideName(r[n]))
    ensures StartsName(r[0]) ==> IsName(r[..n]) && All(NotQuote, r[..n])
  {
  }

  lemma ParameterIsPrintable(it: Item, f: Function)
    requires Clean(it) && Printable(f)
    ensures var r := ParseParameter(it, f); r.Some? ==> Printable(r.value.0) && Clean(r.value.1)
  {
    hide NextItem;
    NextIsClean(it.text, it.rest);
    var next := Advance(it);
    if next.Some? {
      NextIsClean(next.value.text, next.value.rest);
      var value := Advance(next.value);
      if value.Some? {
        NextIsClean(value.value.text, value.value.rest);
      }
    }
  }

  lemma {:induction false} MoreParametersArePrintable(it: Item, f: Function)
    requires Clean(it) && Printable(f)
    ensures var r := ParseMoreParameters(it, f); r.Some? ==> Printable(r.value.0) && Clean(r.value.1)
    decreases it.Size()
  {
    hide NextItem, ParseParameter, Printable;
    if it.Is(',') && Advance(it).Some? {
      var next := Advance(it).value;
      NextIsClean(it.text, it.rest);
      ParameterIsPrintable(next, f);
      var first := ParseParameter(next, f);
      if first.Some? {
        MoreParametersArePrintable(first.value.1, first.value.0);
      }
    }
  }

  lemma ArgumentsArePrintable(it: Item, f: Function)
    requires Clean(it) && Printable(f)
    ensures var r := ParseArguments(it, f); r.Some? ==> Printable(r.value.0) && Clean(r.value.1)
  {
    hide NextItem, ParseParameter, ParseMoreParameters, Printable;
    if it.Is('(') && Advance(it).Some? {
      var next := Advance(it).value;
      NextIsClean(it.text, it.rest);
      ParameterIsPrintable(next, f);
      var first := ParseParameter(next, f);
      if first.Some? {
        MoreParametersArePrintable(first.value.1, first.value.0);
        var more := ParseMoreParameters(first.value.1, first.value.0);
        if more.Some? {
          NextIsClean(more.value.1.text, more.value.1.rest);
        }
      }
    }
  }

  lemma NameIsPrintable(it: Item, f: Function)
    requires Clean(it) && Printable(f)
    ensures var r := ParseName(it, f); r.Some? ==> Printable(r.value.0) && Clean(r.value.1)
  {
    hide NextItem;
    NextIsClean(it.text, it.rest);
    if Advance(it).Some? {
      NextIsClean(Advance(it).value.text, Advance(it).value.rest);
    }
  }

  lemma AddPrintable(f: Function, g: Function)
    requires Printable(f) && Printable(g)
    ensures Printable(AddFeature(f, g))
  {
  }

  lemma {:induction false} FeatureIsPrintable(it: Item, f: Function)
    requires Clean(it) && Printable(f)
    ensures var r := ParseFeature(it, f); r.Some? ==> Printable(r.value.0) && Clean(r.value.1)
    decreases it.Size(), 2
  {
    hide ParseArguments, ParseName, ParseSubfeatures, Printable;
    ArgumentsArePrintable(it, f);
    var args := ParseArguments(it, f);
    if args.Some? {
      NameIsPrintable(args.value.1, args.value.0);
      var name := ParseName(args.value.1, args.value.0);
      if name.Some? {
        SubfeaturesArePrintable(name.value.1, name.value.0);
      }
    }
  }

  /** A type that has just been read starts a printable feature. */
  lemma TypedIsPrintable(it: Item)
    requires Clean(it) && it.kind == NAME
    ensures var next := Advance(it);
            next.Some? && ParseFeature(next.value, NewFunction(it.text)).Some? ==>
              var r := ParseFeature(next.value, NewFunction(it.text)).value;
              Printable(r.0) && Clean(r.1)
    decreases it.Size(), 0
  {
    NextIsClean(it.text, it.rest);
    hide NextItem, ParseFeature;
    if Advance(it).Some? {
      FeatureIsPrintable(Advance(it).value, NewFunction(it.text));
    }
  }

  lemma {:induction false} SubfeaturesArePrintable(it: Item, f: Function)
    requires Clean(it) && Printable(f)
    ensures var r := ParseSubfeatures(it, f); r.Some? ==> Printable(r.value.0) && Clean(r.value.1)
    decreases it.Size(), 1
  {
    hide NextItem, ParseFeature, ParseBlock, Printable;
    NextIsClean(it.text, it.rest);
    if Advance(it).Some? {
      var next := Advance(it).value;
      if it.Is('.') && next.kind == NAME {
        TypedIsPrintable(next);
        var after := Advance(next);
        if after.Some? && ParseFeature(after.value, NewFunction(next.text)).Some? {
          AddPrintable(f, ParseFeature(after.value, NewFunction(next.text)).value.0);
        }
      } else if it.Is('{') {
        BlockIsPrintable(next, f);
        var block := ParseBlock(next, f);
        if block.Some? {
          NextIsClean(block.value.1.text, block.value.1.rest);
        }
      }
    }
  }

  lemma {:induction false} BlockIsPrintable(it: Item, f: Function)
    requires Clean(it) && Printable(f)
    ensures var r := ParseBlock(it, f); r.Some? ==> Printable(r.value.0) && Clean(r.value.1)
    decreases it.Size(), 1
  {
    hide NextItem, ParseFeature, Printable;
    if it.kind == NAME && Advance(it).Some? {
      TypedIsPrintable(it);
      var r := ParseFeature(Advance(it).value, NewFunction(it.text));
      if r.Some? {
        AddPrintable(f, r.value.0);
        BlockIsPrintable(r.value.1, AddFeature(f, r.value.0));
      }
    }
  }

  lemma {:induction false} FeaturesArePrintable(it: Item, fs: seq<Function>)
    requires Clean(it) && PrintableAll(fs)
    ensures ParseFeatures(it, fs).Some? ==> PrintableAll(ParseFeatures(it, fs).value)
    decreases it.Size()
  {
    hide NextItem, ParseFeature, Printable;
    if it.kind == NAME && Advance(it).Some? {
      TypedIsPrintable(it);
      var r := ParseFeature(Advance(it).value, NewFunction(it.text));
      if r.Some? {
        FeaturesArePrintable(r.value.1, fs + [r.value.0]);
      }
    }
  }

  /** Everything the parser accepts from an ASCII source can be printed. */
  lemma AcceptedIsPrintable(source: string, t: string)
    requires All(IsAscii, source)
    ensures ParseSource(t, source).Some? ==> PrintableAll(ParseSource(t, source).value)
  {
    NextIsClean(t, source);
    hide NextItem, ParseFeatures;
    if NextItem(t, source).Some? {
      FeaturesArePrintable(NextItem(t, source).value, []);
    }
  }

  /** Printing an accepted source is stable: parsing and printing once more changes nothing. */
  lemma PrintingStabilises(source: string, t: string, u: string)
    requires All(IsAscii, source) && ParseSource(t, source).Some?
    ensures var text := ExtractorText(ParseSource(t, source).value);
            ParseSource(u, text).Some? && ExtractorText(ParseSource(u, text).value) == text
  {
    hide ParseSource;
    var fs := ParseSource(t, source).value;
    AcceptedIsPrintable(source, t);
    RoundTrip(fs, u);
    StripKeepsText(fs);
  }

  lemma {:induction false} StrippedIsPrintable(f: Function)
    requires Printable(Strip(f))
    ensures Printable(f)
    decreases f, 1
  {
    StrippedArePrintable(f.features);
  }

  lemma {:induction false} StrippedArePrintable(fs: seq<Function>)
    requires PrintableAll(StripAll(fs))
    ensures PrintableAll(fs)
    decreases fs
  {
    if fs != [] {
      assert StripAll(fs)[0] == Strip(fs[0]) && StripAll(fs)[1..] == StripAll(fs[1..]);
      assert forall g | g in StripAll(fs[1..]) :: g in StripAll(fs);
      StrippedIsPrintable(fs[0]);
      StrippedArePrintable(fs[1..]);
    }
  }

  /** On ASCII text the round trip succeeds for the printable extractors and for no other. */
  lemma RoundTripExactly(fs: seq<Function>, t: string)
    requires All(IsAscii, ExtractorText(fs))
    ensures ParseSource(t, ExtractorText(fs)) == Some(StripAll(fs)) <==> PrintableAll(fs)
  {
    hide ParseSource;
    if PrintableAll(fs) {
      RoundTrip(fs, t);
    } else if ParseSource(t, ExtractorText(fs)) == Some(StripAll(fs)) {
      AcceptedIsPrintable(ExtractorText(fs), t);
      StrippedArePrintable(fs);
    }
  }

  /** A feature with an argument, a parameter, and two sub-features, one of which has a sub-feature of its own. */
  lemma PrintedExample()
    ensures var length := Function("length", None, None, [], [NewFunction("log")]);
            var f := Function("offset", Some("name"), Some(-1), [Parameter("min", "2")], [NewFunction("word"), length]);
            ExtractorText([f]) == "offset" + ("(-1,min=\"2\")" + " { word length.log } ") + "\n"
  {
    hide Text, ArgumentsText, FeaturesText;
    var length := Function("length", None, None, [], [NewFunction("log")]);
    var f := Function("offset", Some("name"), Some(-1), [Parameter("min", "2")], [NewFunction("word"), length]);
    ArgumentsExample(f);
    FeaturesExample(f, length);
    TextInParts(f);
    OneLine(f);
  }

  lemma OneLine(f: Function)
    ensures ExtractorText([f]) == Text(f) + "\n"
  {
    hide Text;
    assert ExtractorText([f]) == Text(f) + "\n" + ExtractorText([]);
  }

  lemma TextInParts(f: Function)
    ensures Text(f) == f.typ + (ArgumentsText(f) + FeaturesText(f))
  {
  }

  lemma ArgumentsExample(f: Function)
    requires f.argument == Some(-1) && f.parameters == [Parameter("min", "2")]
    ensures ArgumentsText(f) == "(-1,min=\"2\")"
  {
    assert NatText(1) == "1" && IntText(-1) == "-" + NatText(1);
    assert ParameterText(Parameter("min", "2")) == "min=\"2\"";
    assert MoreParameters(f.parameters) == "," + "min=\"2\"" + MoreParameters([]);
  }

  lemma FeaturesExample(f: Function, length: Function)
    requires length == Function("length", None, None, [], [NewFunction("log")])
    requires f.features == [NewFunction("word"), length]
    ensures FeaturesText(f) == " { word length.log } "
  {
    hide Text;
    BareText("word");
    BareText("log");
    TextInParts(length);
    assert ArgumentsText(length) == "" && FeaturesText(length) == "." + "log";
    TwoSpaced(NewFunction("word"), length);
  }

  lemma BareText(typ: string)
    ensures Text(NewFunction(typ)) == typ
  {
    assert TailText(NewFunction(typ)) == "";
  }

  lemma TwoSpaced(f: Function, g: Function)
    ensures SpacedText([f, g]) == " " + Text(f) + (" " + Text(g))
  {
    hide Text;
    assert [f, g][1..] == [g] && [g][1..] == [];
    assert SpacedText([g]) == " " + Text(g) + SpacedText([]);
  }

  /** A type that is a number is printed, and rejected when it is read. */
  lemma UnprintableExample()
    ensures ExtractorText([NewFunction("1")]) == "1\n"
    ensures ParseSource("", "1\n") == None
  {
    var f := NewFunction("1");
    assert Text(f) == "1" + ("" + "") && ExtractorText([f]) == Text(f) + "\n" + ExtractorText([]);
    assert SkipBlanks("1\n") == "1\n";
    assert Run(InsideNumber, "1\n"[1..]) == 0;
    assert NextItem("", "1\n").value.kind == NUMBER;
  }
}
