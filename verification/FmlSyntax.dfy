/** The language that `FMLParser` accepts: trees, the items they are written with, and what they mean. */
module FmlSyntax {
  import opened Wrappers
  import opened Sequences
  import opened FmlDescriptor
  import opened FmlGrammar

  // ---- Items.

  /** An item as the grammar sees it; a single character has no text of its own. */
  datatype Token = Token(kind: int, text: string)

  function Mark(c: char): Token {
    Token(c as int, "")
  }

  function TokenOf(it: Item): Token {
    Token(it.kind, if it.kind < END then it.text else "")
  }

  /** The items from the current one to the end, if the lexer gets there. */
  function Tokens(it: Item): Option<seq<Token>>
    decreases it.Size()
  {
    if it.kind == END then Some([]) else
    var next :- Advance(it);
    var more :- Tokens(next);
    Some([TokenOf(it)] + more)
  }

  /** The items of a source, `text` being what a previous use of the parser has left behind. */
  function SourceTokens(text: string, source: string): Option<seq<Token>> {
    var first :- NextItem(text, source);
    Tokens(first)
  }

  // ---- Trees.

  datatype Argument = Number(text: string) | Named(name: string, value: Token)

  datatype Tree = Tree(typ: string, args: seq<Argument>, name: Option<Token>, body: Body)

  datatype Body = Leaf | Dotted(feature: Tree) | Block(features: seq<Tree>)

  /** A value is an item with a text; a feature name is an identifier or a string. */
  predicate ProperArgument(a: Argument) {
    a.Named? ==> a.value.kind < END
  }

  predicate ProperName(name: Option<Token>) {
    name.Some? ==> name.value.kind == NAME || name.value.kind == STRING
  }

  predicate Proper(tree: Tree) {
    && (forall a | a in tree.args :: ProperArgument(a))
    && ProperName(tree.name)
    && ProperBody(tree.body)
  }

  predicate ProperBody(body: Body) {
    match body
    case Leaf => true
    case Dotted(g) => Proper(g)
    case Block(gs) => forall g | g in gs :: Proper(g)
  }

  predicate ProperAll(trees: seq<Tree>) {
    forall g | g in trees :: Proper(g)
  }

  // ---- How trees are written.

  function ArgumentTokens(a: Argument): seq<Token> {
    match a
    case Number(text) => [Token(NUMBER, text)]
    case Named(name, value) => [Token(NAME, name), Mark('='), value]
  }

  function MoreTokens(args: seq<Argument>): seq<Token> {
    if args == [] then [] else [Mark(',')] + (ArgumentTokens(args[0]) + MoreTokens(args[1..]))
  }

  function ListTokens(args: seq<Argument>): seq<Token> {
    if args == [] then []
    else [Mark('(')] + (ArgumentTokens(args[0]) + (MoreTokens(args[1..]) + [Mark(')')]))
  }

  function NameTokens(name: Option<Token>): seq<Token> {
    if name.None? then [] else [Mark(':'), name.value]
  }

  function BodyTokens(body: Body): seq<Token> {
    match body
    case Leaf => []
    case Dotted(g) => [Mark('.')] + TreeTokens(g)
    case Block(gs) => [Mark('{')] + (AllTokens(gs) + [Mark('}')])
  }

  function TreeTokens(tree: Tree): seq<Token> {
    [Token(NAME, tree.typ)] + (ListTokens(tree.args) + (NameTokens(tree.name) + BodyTokens(tree.body)))
  }

  function AllTokens(trees: seq<Tree>): seq<Token> {
    if trees == [] then [] else TreeTokens(trees[0]) + AllTokens(trees[1..])
  }

  /** A written tree without its type. */
  function TailTokens(tree: Tree): seq<Token> {
    ListTokens(tree.args) + (NameTokens(tree.name) + BodyTokens(tree.body))
  }

  // ---- What trees mean.

  /** The last number of an argument list. */
  function LastNumber(args: seq<Argument>): Option<int> {
    if args == [] then None
    else if LastNumber(args[1..]).Some? then LastNumber(args[1..])
    else if args[0].Number? then Some(ParseInt32(args[0].text))
    else None
  }

  /** The named values, whether they are identifiers, numbers or strings. */
  function Parameters(args: seq<Argument>): seq<Parameter> {
    if args == [] then []
    else (if args[0].Named? then [Parameter(args[0].name, args[0].value.text)] else []) + Parameters(args[1..])
  }

  function NameText(name: Option<Token>): Option<string> {
    if name.Some? then Some(name.value.text) else None
  }

  function Meaning(tree: Tree): Function {
    Function(tree.typ, NameText(tree.name), LastNumber(tree.args), Parameters(tree.args), Features(tree.body))
  }

  function Features(body: Body): seq<Function> {
    match body
    case Leaf => []
    case Dotted(g) => [Meaning(g)]
    case Block(gs) => Meanings(gs)
  }

  function Meanings(trees: seq<Tree>): seq<Function> {
    if trees == [] then [] else [Meaning(trees[0])] + Meanings(trees[1..])
  }

  /** `f` with one more argument. */
  function WithArgument(f: Function, a: Argument): Function {
    match a
    case Number(text) => f.(argument := Some(ParseInt32(text)))
    case Named(name, value) => f.(parameters := f.parameters + [Parameter(name, value.text)])
  }

  function WithArguments(f: Function, args: seq<Argument>): Function {
    f.(argument := if LastNumber(args).Some? then LastNumber(args) else f.argument,
       parameters := f.parameters + Parameters(args))
  }

  lemma WithMore(f: Function, args: seq<Argument>)
    ensures args == [] ==> WithArguments(f, args) == f
    ensures args != [] ==> WithArguments(f, args) == WithArguments(WithArgument(f, args[0]), args[1..])
  {
    hide ParseInt32;
    if args == [] {
      RightUnit(f.parameters);
    } else if args[0].Named? {
      Append(f.parameters, Parameter(args[0].name, args[0].value.text), Parameters(args[1..]));
    } else {
      LeftUnit(Parameters(args[1..]));
    }
  }

  // ---- Written trees are read.

  /** The current item is the first one of `ts`, and the others follow. */
  predicate Reads(it: Item, ts: seq<Token>) {
    Tokens(it) == Some(ts)
  }

  lemma ReadsStep(it: Item, ts: seq<Token>)
    requires Reads(it, ts)
    ensures it.kind == END <==> ts == []
    ensures ts != [] ==> it.kind == ts[0].kind && (it.kind < END ==> it.text == ts[0].text)
    ensures ts != [] ==> Advance(it).Some? && Reads(Advance(it).value, ts[1..])
  {
    hide NextItem;
    if it.kind != END {
      assert ([TokenOf(it)] + Tokens(Advance(it).value).value)[1..] == Tokens(Advance(it).value).value;
    }
  }

  /** The first of the items, and those after it. */
  lemma ReadsOne(it: Item, t: Token, rest: seq<Token>)
    requires Reads(it, [t] + rest)
    ensures it.kind == t.kind && it.kind != END && (it.kind < END ==> it.text == t.text)
    ensures Advance(it).Some? && Reads(Advance(it).value, rest)
  {
    hide Reads;
    ReadsStep(it, [t] + rest);
    TailOfConcat([t], rest);
    LeftUnit(rest);
  }

  /** A result of the parser: the descriptor, and an item from which `rest` is read. */
  predicate Yields(r: Option<(Function, Item)>, f: Function, rest: seq<Token>) {
    r.Some? && r.value.0 == f && Reads(r.value.1, rest)
  }

  lemma ArgumentIsRead(it: Item, a: Argument, rest: seq<Token>, f: Function)
    requires ProperArgument(a) && Reads(it, ArgumentTokens(a) + rest)
    ensures Yields(ParseParameter(it, f), WithArgument(f, a), rest)
  {
    hide NextItem, Reads, ParseInt32;
    match a {
      case Number(text) => ReadsOne(it, Token(NUMBER, text), rest);
      case Named(name, value) =>
        NamedRegroups(name, value, rest);
        ReadsOne(it, Token(NAME, name), [Mark('=')] + ([value] + rest));
        ReadsOne(Advance(it).value, Mark('='), [value] + rest);
        ReadsOne(Advance(Advance(it).value).value, value, rest);
    }
  }

  lemma NamedRegroups(name: string, value: Token, rest: seq<Token>)
    ensures ArgumentTokens(Named(name, value)) + rest == [Token(NAME, name)] + ([Mark('=')] + ([value] + rest))
  {
  }

  predicate StartsWith(ts: seq<Token>, c: char) {
    ts != [] && ts[0].kind == c as int
  }

  lemma SeesMark(it: Item, ts: seq<Token>, c: char)
    requires Reads(it, ts) && c as int != END
    ensures it.Is(c) <==> StartsWith(ts, c)
  {
    hide Reads;
    ReadsStep(it, ts);
  }

  lemma {:induction false} MoreAreRead(it: Item, args: seq<Argument>, rest: seq<Token>, f: Function)
    requires (forall a | a in args :: ProperArgument(a)) && Reads(it, MoreTokens(args) + rest)
    requires !StartsWith(rest, ',')
    ensures Yields(ParseMoreParameters(it, f), WithArguments(f, args), rest)
    decreases args
  {
    hide NextItem, Reads, ParseParameter, ArgumentTokens, WithArguments;
    WithMore(f, args);
    if args == [] {
      LeftUnit(rest);
      SeesMark(it, rest, ',');
    } else {
      var more := MoreTokens(args[1..]) + rest;
      MoreRegroups(args, rest);
      ReadsOne(it, Mark(','), ArgumentTokens(args[0]) + more);
      ArgumentIsRead(Advance(it).value, args[0], more, f);
      var next := ParseParameter(Advance(it).value, f).value;
      MoreAreRead(next.1, args[1..], rest, WithArgument(f, args[0]));
    }
  }

  lemma MoreRegroups(args: seq<Argument>, rest: seq<Token>)
    requires args != []
    ensures MoreTokens(args) + rest == [Mark(',')] + (ArgumentTokens(args[0]) + (MoreTokens(args[1..]) + rest))
  {
    hide ArgumentTokens;
    Assoc([Mark(',')], ArgumentTokens(args[0]) + MoreTokens(args[1..]), rest);
    Assoc(ArgumentTokens(args[0]), MoreTokens(args[1..]), rest);
  }

  lemma ListRegroups(args: seq<Argument>, rest: seq<Token>)
    requires args != []
    ensures ListTokens(args) + rest
         == [Mark('(')] + (ArgumentTokens(args[0]) + (MoreTokens(args[1..]) + ([Mark(')')] + rest)))
  {
    hide ArgumentTokens, MoreTokens;
    var first, more := ArgumentTokens(args[0]), MoreTokens(args[1..]);
    Assoc([Mark('(')], first + (more + [Mark(')')]), rest);
    Assoc(first, more + [Mark(')')], rest);
    Assoc(more, [Mark(')')], rest);
  }

  lemma ListIsRead(it: Item, args: seq<Argument>, rest: seq<Token>, f: Function)
    requires (forall a | a in args :: ProperArgument(a)) && Reads(it, ListTokens(args) + rest)
    requires args == [] ==> !StartsWith(rest, '(')
    ensures Yields(ParseArguments(it, f), WithArguments(f, args), rest)
  {
    hide NextItem, Reads, ParseParameter, ParseMoreParameters, ArgumentTokens, MoreTokens, WithArguments;
    WithMore(f, args);
    if args == [] {
      LeftUnit(rest);
      SeesMark(it, rest, '(');
    } else {
      var close := [Mark(')')] + rest;
      var more := MoreTokens(args[1..]) + close;
      ListRegroups(args, rest);
      ReadsOne(it, Mark('('), ArgumentTokens(args[0]) + more);
      ArgumentIsRead(Advance(it).value, args[0], more, f);
      var first := ParseParameter(Advance(it).value, f).value;
      MoreAreRead(first.1, args[1..], close, first.0);
      var last := ParseMoreParameters(first.1, first.0).value;
      ReadsOne(last.1, Mark(')'), rest);
    }
  }

  function WithName(f: Function, name: Option<Token>): Function {
    if name.Some? then f.(name := Some(name.value.text)) else f
  }

  lemma NameIsRead(it: Item, name: Option<Token>, rest: seq<Token>, f: Function)
    requires ProperName(name) && Reads(it, NameTokens(name) + rest)
    requires name == None ==> !StartsWith(rest, ':')
    ensures Yields(ParseName(it, f), WithName(f, name), rest)
  {
    hide NextItem, Reads;
    if name == None {
      LeftUnit(rest);
      SeesMark(it, rest, ':');
    } else {
      assert NameTokens(name) + rest == [Mark(':')] + ([name.value] + rest);
      ReadsOne(it, Mark(':'), [name.value] + rest);
      ReadsOne(Advance(it).value, name.value, rest);
    }
  }

  /** What may come after a feature: the next one, the end of its block, or the end of the source. */
  predicate EndsFeature(ts: seq<Token>) {
    ts == [] || ts[0].kind == NAME || StartsWith(ts, '}')
  }

  lemma BodyStarts(body: Body, rest: seq<Token>)
    requires EndsFeature(rest)
    ensures var ts := BodyTokens(body) + rest;
            EndsFeature(ts) || StartsWith(ts, '.') || StartsWith(ts, '{')
  {
    hide AllTokens, TreeTokens;
    if body.Leaf? {
      LeftUnit(rest);
    } else {
      TailOfConcat(BodyTokens(body), rest);
    }
  }

  lemma NameStarts(name: Option<Token>, rest: seq<Token>)
    ensures NameTokens(name) + rest == rest || StartsWith(NameTokens(name) + rest, ':')
  {
    if name.None? {
      LeftUnit(rest);
    }
  }

  lemma {:induction false} FeatureIsRead(it: Item, tree: Tree, rest: seq<Token>)
    requires Proper(tree) && Reads(it, TailTokens(tree) + rest) && EndsFeature(rest)
    ensures Yields(ParseFeature(it, NewFunction(tree.typ)), Meaning(tree), rest)
    decreases tree, 1
  {
    hide Reads, ListTokens, NameTokens, BodyTokens, ParseArguments, ParseName, ParseSubfeatures, NextItem,
         ProperArgument, ProperName, WithArguments, WithName, Meaning;
    var named, body := NameTokens(tree.name), BodyTokens(tree.body) + rest;
    TailRegroups(tree, rest);
    BodyStarts(tree.body, rest);
    NameStarts(tree.name, body);
    var f := NewFunction(tree.typ);
    ListIsRead(it, tree.args, named + body, f);
    var list := ParseArguments(it, f).value;
    NameIsRead(list.1, tree.name, body, list.0);
    var name := ParseName(list.1, list.0).value;
    MeaningInParts(tree);
    BodyIsRead(name.1, tree.body, rest, name.0);
  }

  lemma TailRegroups(tree: Tree, rest: seq<Token>)
    ensures TailTokens(tree) + rest
         == ListTokens(tree.args) + (NameTokens(tree.name) + (BodyTokens(tree.body) + rest))
  {
    hide ListTokens, NameTokens, BodyTokens;
    Assoc(ListTokens(tree.args), NameTokens(tree.name) + BodyTokens(tree.body), rest);
    Assoc(NameTokens(tree.name), BodyTokens(tree.body), rest);
  }

  lemma MeaningInParts(tree: Tree)
    ensures var f := WithName(WithArguments(NewFunction(tree.typ), tree.args), tree.name);
            f.features == [] && f.(features := Features(tree.body)) == Meaning(tree)
  {
    hide LastNumber, Parameters, Features;
    LeftUnit(Parameters(tree.args));
  }

  lemma {:induction false} BodyIsRead(it: Item, body: Body, rest: seq<Token>, f: Function)
    requires ProperBody(body) && Reads(it, BodyTokens(body) + rest) && EndsFeature(rest) && f.features == []
    ensures Yields(ParseSubfeatures(it, f), f.(features := Features(body)), rest)
    decreases body, 0
  {
    hide NextItem, Reads, ParseFeature, ParseBlock, TreeTokens, AllTokens, Meaning, Meanings, Proper;
    match body {
      case Leaf =>
        LeftUnit(rest);
        SeesMark(it, rest, '.');
        SeesMark(it, rest, '{');
        assert f.(features := []) == f;
      case Dotted(g) =>
        TreeRegroups(g, rest);
        Assoc([Mark('.')], TreeTokens(g), rest);
        ReadsOne(it, Mark('.'), [Token(NAME, g.typ)] + (TailTokens(g) + rest));
        var typ := Advance(it).value;
        ReadsOne(typ, Token(NAME, g.typ), TailTokens(g) + rest);
        FeatureIsRead(Advance(typ).value, g, rest);
        LeftUnit([Meaning(g)]);
      case Block(gs) =>
        var close := [Mark('}')] + rest;
        BlockRegroups(gs, rest);
        ReadsOne(it, Mark('{'), AllTokens(gs) + close);
        BlockIsRead(Advance(it).value, gs, rest, f);
        LeftUnit(Meanings(gs));
        var block := ParseBlock(Advance(it).value, f).value;
        ReadsOne(block.1, Mark('}'), rest);
    }
  }

  lemma TreeRegroups(g: Tree, rest: seq<Token>)
    ensures TreeTokens(g) + rest == [Token(NAME, g.typ)] + (TailTokens(g) + rest)
  {
    hide ListTokens, NameTokens, BodyTokens;
    Assoc([Token(NAME, g.typ)], TailTokens(g), rest);
  }

  lemma BlockRegroups(gs: seq<Tree>, rest: seq<Token>)
    ensures BodyTokens(Block(gs)) + rest == [Mark('{')] + (AllTokens(gs) + ([Mark('}')] + rest))
  {
    hide AllTokens;
    Assoc([Mark('{')], AllTokens(gs) + [Mark('}')], rest);
    Assoc(AllTokens(gs), [Mark('}')], rest);
  }

  lemma AllRegroup(gs: seq<Tree>, rest: seq<Token>)
    requires gs != []
    ensures AllTokens(gs) + rest == [Token(NAME, gs[0].typ)] + (TailTokens(gs[0]) + (AllTokens(gs[1..]) + rest))
  {
    hide TreeTokens, TailTokens;
    Assoc(TreeTokens(gs[0]), AllTokens(gs[1..]), rest);
    TreeRegroups(gs[0], AllTokens(gs[1..]) + rest);
  }

  lemma AllEndFeature(gs: seq<Tree>, rest: seq<Token>)
    requires EndsFeature(rest)
    ensures EndsFeature(AllTokens(gs) + rest)
  {
    if gs == [] {
      LeftUnit(rest);
    } else {
      AllRegroup(gs, rest);
    }
  }

  lemma {:induction false} BlockIsRead(it: Item, gs: seq<Tree>, rest: seq<Token>, f: Function)
    requires ProperAll(gs) && Reads(it, AllTokens(gs) + ([Mark('}')] + rest))
    ensures Yields(ParseBlock(it, f), f.(features := f.features + Meanings(gs)), [Mark('}')] + rest)
    decreases gs, 0
  {
    hide NextItem, Reads, ParseFeature, AllTokens, TailTokens, Meaning;
    var close := [Mark('}')] + rest;
    if gs == [] {
      NoTrees(close);
      SeesMark(it, close, '}');
      RightUnit(f.features);
    } else {
      var g := gs[0];
      var more := AllTokens(gs[1..]) + close;
      assert Proper(g);
      AllRegroup(gs, close);
      AllEndFeature(gs[1..], close);
      ReadsOne(it, Token(NAME, g.typ), TailTokens(g) + more);
      FeatureIsRead(Advance(it).value, g, more);
      var next := ParseFeature(Advance(it).value, NewFunction(g.typ)).value;
      BlockIsRead(next.1, gs[1..], rest, AddFeature(f, Meaning(g)));
      Append(f.features, Meaning(g), Meanings(gs[1..]));
    }
  }

  lemma NoTrees(rest: seq<Token>)
    ensures AllTokens([]) + rest == rest
  {
  }

  lemma {:induction false} FeaturesAreRead(it: Item, gs: seq<Tree>, fs: seq<Function>)
    requires ProperAll(gs) && Reads(it, AllTokens(gs) + [])
    ensures ParseFeatures(it, fs) == Some(fs + Meanings(gs))
    decreases gs
  {
    hide NextItem, Reads, ParseFeature, AllTokens, TailTokens, Meaning;
    if gs == [] {
      NoTrees([]);
      ReadsStep(it, []);
      RightUnit(fs);
    } else {
      var g, more := gs[0], AllTokens(gs[1..]) + [];
      assert Proper(g);
      AllRegroup(gs, []);
      AllEndFeature(gs[1..], []);
      ReadsOne(it, Token(NAME, g.typ), TailTokens(g) + more);
      TailIsNoEquation(Advance(it).value, g, more);
      FeatureIsRead(Advance(it).value, g, more);
      var next := ParseFeature(Advance(it).value, NewFunction(g.typ)).value;
      FeaturesAreRead(next.1, gs[1..], fs + [Meaning(g)]);
      Append(fs, Meaning(g), Meanings(gs[1..]));
    }
  }

  lemma TailIsNoEquation(it: Item, g: Tree, rest: seq<Token>)
    requires Reads(it, TailTokens(g) + rest) && EndsFeature(rest)
    ensures !it.Is('=')
  {
    hide Reads, BodyTokens, NameTokens;
    var body := BodyTokens(g.body) + rest;
    TailRegroups(g, rest);
    BodyStarts(g.body, rest);
    NameStarts(g.name, body);
    if g.args == [] {
      LeftUnit(NameTokens(g.name) + body);
    }
    SeesMark(it, TailTokens(g) + rest, '=');
  }

  // ---- What is read is a written tree.

  lemma ReadsBefore(it: Item, rest: seq<Token>)
    requires it.kind != END && Advance(it).Some? && Reads(Advance(it).value, rest)
    ensures Reads(it, [TokenOf(it)] + rest)
  {
    hide NextItem;
  }

  lemma ArgumentOf(it: Item, f: Function, rest: seq<Token>) returns (a: Argument)
    requires ParseParameter(it, f).Some? && Reads(ParseParameter(it, f).value.1, rest)
    ensures ProperArgument(a) && Reads(it, ArgumentTokens(a) + rest)
    ensures ParseParameter(it, f).value.0 == WithArgument(f, a)
  {
    hide NextItem, Reads, ParseInt32;
    if it.kind == NUMBER {
      a := Number(it.text);
      ReadsBefore(it, rest);
    } else {
      var equals := Advance(it).value;
      var value := Advance(equals).value;
      a := Named(it.text, TokenOf(value));
      ReadsBefore(value, rest);
      ReadsBefore(equals, [TokenOf(value)] + rest);
      ReadsBefore(it, [Mark('=')] + ([TokenOf(value)] + rest));
      NamedRegroups(it.text, TokenOf(value), rest);
    }
  }

  lemma {:induction false} MoreOf(it: Item, f: Function, rest: seq<Token>) returns (args: seq<Argument>)
    requires ParseMoreParameters(it, f).Some? && Reads(ParseMoreParameters(it, f).value.1, rest)
    ensures (forall a | a in args :: ProperArgument(a)) && Reads(it, MoreTokens(args) + rest)
    ensures ParseMoreParameters(it, f).value.0 == WithArguments(f, args)
    decreases it.Size()
  {
    hide NextItem, Reads, ParseParameter, ArgumentTokens, WithArguments;
    if !it.Is(',') {
      args := [];
      LeftUnit(rest);
    } else {
      var next := Advance(it).value;
      var first := ParseParameter(next, f).value;
      var others := MoreOf(first.1, first.0, rest);
      var a := ArgumentOf(next, f, MoreTokens(others) + rest);
      args := [a] + others;
      MoreRegroups(args, rest);
      ReadsBefore(it, ArgumentTokens(a) + (MoreTokens(others) + rest));
    }
    WithMore(f, args);
  }

  lemma ListOf(it: Item, f: Function, rest: seq<Token>) returns (args: seq<Argument>)
    requires ParseArguments(it, f).Some? && Reads(ParseArguments(it, f).value.1, rest)
    ensures (forall a | a in args :: ProperArgument(a)) && Reads(it, ListTokens(args) + rest)
    ensures ParseArguments(it, f).value.0 == WithArguments(f, args)
  {
    hide NextItem, Reads, ParseParameter, ParseMoreParameters, ArgumentTokens, MoreTokens, WithArguments;
    if !it.Is('(') {
      args := [];
      LeftUnit(rest);
    } else {
      var next := Advance(it).value;
      var first := ParseParameter(next, f).value;
      var last := ParseMoreParameters(first.1, first.0).value;
      var close := [Mark(')')] + rest;
      ReadsBefore(last.1, rest);
      var others := MoreOf(first.1, first.0, close);
      var a := ArgumentOf(next, f, MoreTokens(others) + close);
      args := [a] + others;
      ListRegroups(args, rest);
      ReadsBefore(it, ArgumentTokens(a) + (MoreTokens(others) + close));
    }
    WithMore(f, args);
  }

  lemma NameOf(it: Item, f: Function, rest: seq<Token>) returns (name: Option<Token>)
    requires ParseName(it, f).Some? && Reads(ParseName(it, f).value.1, rest)
    ensures ProperName(name) && Reads(it, NameTokens(name) + rest)
    ensures ParseName(it, f).value.0 == WithName(f, name)
  {
    hide NextItem, Reads;
    if !it.Is(':') {
      name := None;
      LeftUnit(rest);
    } else {
      var text := Advance(it).value;
      name := Some(TokenOf(text));
      ReadsBefore(text, rest);
      ReadsBefore(it, [TokenOf(text)] + rest);
      assert NameTokens(name) + rest == [Mark(':')] + ([TokenOf(text)] + rest);
    }
  }

  lemma {:induction false} TreeOf(it: Item, typ: string, rest: seq<Token>) returns (tree: Tree)
    requires ParseFeature(it, NewFunction(typ)).Some? && Reads(ParseFeature(it, NewFunction(typ)).value.1, rest)
    ensures Proper(tree) && tree.typ == typ && Reads(it, TailTokens(tree) + rest)
    ensures ParseFeature(it, NewFunction(typ)).value.0 == Meaning(tree)
    decreases it.Size(), 1
  {
    hide Reads, ListTokens, NameTokens, BodyTokens, ParseArguments, ParseName, ParseSubfeatures, NextItem,
         ProperArgument, ProperName, WithArguments, WithName, Meaning, Features;
    var f := NewFunction(typ);
    var list := ParseArguments(it, f).value;
    var named := ParseName(list.1, list.0).value;
    var args, name;
    PartsKeepFeatures(it, f);
    var body := BodyOf(named.1, named.0, rest);
    name := NameOf(list.1, list.0, BodyTokens(body) + rest);
    args := ListOf(it, f, NameTokens(name) + (BodyTokens(body) + rest));
    tree := Tree(typ, args, name, body);
    TailRegroups(tree, rest);
    MeaningInParts(tree);
  }

  lemma PartsKeepFeatures(it: Item, f: Function)
    ensures ParseArguments(it, f).Some? ==>
              var list := ParseArguments(it, f).value;
              list.0.features == f.features
              && (ParseName(list.1, list.0).Some? ==> ParseName(list.1, list.0).value.0.features == f.features)
  {
    hide NextItem, ParseParameter, ParseMoreParameters;
    if it.Is('(') && Advance(it).Some? {
      ParameterKeepsFeatures(Advance(it).value, f);
      var first := ParseParameter(Advance(it).value, f);
      if first.Some? {
        MoreKeepFeatures(first.value.1, first.value.0);
      }
    }
  }

  lemma ParameterKeepsFeatures(it: Item, f: Function)
    ensures ParseParameter(it, f).Some? ==> ParseParameter(it, f).value.0.features == f.features
  {
    hide NextItem, ParseInt32;
  }

  lemma {:induction false} MoreKeepFeatures(it: Item, f: Function)
    ensures ParseMoreParameters(it, f).Some? ==> ParseMoreParameters(it, f).value.0.features == f.features
    decreases it.Size()
  {
    hide NextItem, ParseParameter;
    if it.Is(',') && Advance(it).Some? {
      ParameterKeepsFeatures(Advance(it).value, f);
      var first := ParseParameter(Advance(it).value, f);
      if first.Some? {
        MoreKeepFeatures(first.value.1, first.value.0);
      }
    }
  }

  lemma {:induction false} BodyOf(it: Item, f: Function, rest: seq<Token>) returns (body: Body)
    requires f.features == []
    requires ParseSubfeatures(it, f).Some? && Reads(ParseSubfeatures(it, f).value.1, rest)
    ensures ProperBody(body) && Reads(it, BodyTokens(body) + rest)
    ensures ParseSubfeatures(it, f).value.0 == f.(features := Features(body))
    decreases it.Size(), 0
  {
    hide NextItem, Reads, ParseFeature, ParseBlock, TreeTokens, AllTokens, TailTokens, Meaning, Meanings, Proper;
    if it.Is('.') {
      var typ := Advance(it).value;
      var g := TreeOf(Advance(typ).value, typ.text, rest);
      body := Dotted(g);
      ReadsBefore(typ, TailTokens(g) + rest);
      ReadsBefore(it, [Token(NAME, g.typ)] + (TailTokens(g) + rest));
      TreeRegroups(g, rest);
      Assoc([Mark('.')], TreeTokens(g), rest);
      LeftUnit([Meaning(g)]);
    } else if it.Is('{') {
      var block := ParseBlock(Advance(it).value, f).value;
      ReadsBefore(block.1, rest);
      var close := [Mark('}')] + rest;
      var gs := BlockOf(Advance(it).value, f, close);
      body := Block(gs);
      ReadsBefore(it, AllTokens(gs) + close);
      BlockRegroups(gs, rest);
      LeftUnit(Meanings(gs));
      ProperBlock(gs);
    } else {
      body := Leaf;
      LeftUnit(rest);
      assert f.(features := []) == f;
    }
  }

  lemma ProperBlock(gs: seq<Tree>)
    requires ProperAll(gs)
    ensures ProperBody(Block(gs))
  {
  }

  lemma {:induction false} BlockOf(it: Item, f: Function, rest: seq<Token>) returns (gs: seq<Tree>)
    requires ParseBlock(it, f).Some? && Reads(ParseBlock(it, f).value.1, rest)
    ensures ProperAll(gs) && Reads(it, AllTokens(gs) + rest)
    ensures ParseBlock(it, f).value.0 == f.(features := f.features + Meanings(gs))
    decreases it.Size(), 0
  {
    hide NextItem, Reads, ParseFeature, AllTokens, TailTokens, Meaning, Proper;
    if it.Is('}') {
      gs := [];
      NoTrees(rest);
      RightUnit(f.features);
    } else {
      var typ := Advance(it).value;
      var first := ParseFeature(typ, NewFunction(it.text)).value;
      var others := BlockOf(first.1, AddFeature(f, first.0), rest);
      var g := TreeOf(typ, it.text, AllTokens(others) + rest);
      gs := [g] + others;
      AllRegroup(gs, rest);
      ReadsBefore(it, TailTokens(g) + (AllTokens(others) + rest));
      Append(f.features, Meaning(g), Meanings(others));
    }
  }

  lemma {:induction false} TreesOf(it: Item, fs: seq<Function>) returns (gs: seq<Tree>)
    requires ParseFeatures(it, fs).Some?
    ensures ProperAll(gs) && Reads(it, AllTokens(gs) + [])
    ensures ParseFeatures(it, fs).value == fs + Meanings(gs)
    decreases it.Size()
  {
    hide NextItem, ParseFeature, AllTokens, TailTokens, Meaning, Proper;
    if it.kind == END {
      gs := [];
      NoTrees([]);
      RightUnit(fs);
    } else {
      var typ := Advance(it).value;
      var first := ParseFeature(typ, NewFunction(it.text)).value;
      var others := TreesOf(first.1, fs + [first.0]);
      hide Reads;
      var g := TreeOf(typ, it.text, AllTokens(others) + []);
      gs := [g] + others;
      AllRegroup(gs, []);
      ReadsBefore(it, TailTokens(g) + (AllTokens(others) + []));
      Append(fs, Meaning(g), Meanings(others));
    }
  }

  /** `trees` are written with the items of the source, and mean `fs`. */
  ghost predicate Describes(trees: seq<Tree>, text: string, source: string, fs: seq<Function>) {
    ProperAll(trees) && SourceTokens(text, source) == Some(AllTokens(trees)) && Meanings(trees) == fs
  }

  /** The parser accepts a source, with a given result, exactly when its items write trees that mean the result. */
  lemma AcceptsExactly(text: string, source: string, fs: seq<Function>)
    ensures ParseSource(text, source) == Some(fs) <==> exists trees :: Describes(trees, text, source, fs)
  {
    hide NextItem, AllTokens, Meanings, ParseFeatures, ProperAll;
    var first := NextItem(text, source);
    if first.Some? {
      if ParseSource(text, source) == Some(fs) {
        var trees := TreesOf(first.value, []);
        RightUnit(AllTokens(trees));
        LeftUnit(Meanings(trees));
        assert Describes(trees, text, source, fs);
      }
      if trees :| Describes(trees, text, source, fs) {
        RightUnit(AllTokens(trees));
        FeaturesAreRead(first.value, trees, []);
        LeftUnit(Meanings(trees));
      }
    }
  }
}
