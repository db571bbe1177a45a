/** Feature descriptors (`feature_extractor.proto`) and the characters FML is written in. */
module FmlDescriptor {
  import opened Characters
  import opened Wrappers

  datatype Parameter = Parameter(name: string, value: string)

  /** `FeatureFunctionDescriptor`: `argument` defaults to 0 when it is absent. */
  datatype Function = Function(
    typ: string,
    name: Option<string>,
    argument: Option<int>,
    parameters: seq<Parameter>,
    features: seq<Function>)
  {
    function Argument(): int {
      argument.GetOr(0)
    }
  }

  function NewFunction(typ: string): Function {
    Function(typ, None, None, [], [])
  }

  predicate StartsName(c: char) {
    IsAlpha(c) || c == '_' || c == '/'
  }

  predicate InsideName(c: char) {
    IsAlpha(c) || IsDigit(c) || c == '_' || c == '-' || c == '/'
  }

  predicate StartsNumber(c: char) {
    IsDigit(c) || c == '+' || c == '-'
  }

  predicate InsideNumber(c: char) {
    IsDigit(c) || c == '.'
  }

  predicate NotQuote(c: char) {
    c != '"'
  }

  predicate NotNewline(c: char) {
    c != '\n'
  }

  predicate All(p: char -> bool, s: string) {
    forall i | 0 <= i < |s| :: p(s[i])
  }

  predicate IsName(s: string) {
    s != "" && StartsName(s[0]) && All(InsideName, s)
  }

  predicate IsInt32(n: int) {
    -0x8000_0000 <= n < 0x8000_0000
  }

  predicate PrintableParameter(p: Parameter) {
    IsName(p.name) && All(NotQuote, p.value)
  }

  /** What FML can express: identifiers as types and parameter names, no quote inside a value. */
  predicate Printable(f: Function) {
    && IsName(f.typ)
    && IsInt32(f.Argument())
    && (forall p | p in f.parameters :: PrintableParameter(p))
    && (forall g | g in f.features :: Printable(g))
  }

  predicate PrintableAll(fs: seq<Function>) {
    forall f | f in fs :: Printable(f)
  }

  /** What printing forgets: feature names, and the difference between an absent and a zero argument. */
  function Strip(f: Function): Function {
    Function(f.typ, None, if f.Argument() == 0 then None else f.argument, f.parameters, StripAll(f.features))
  }

  function StripAll(fs: seq<Function>): (r: seq<Function>)
    ensures |r| == |fs|
  {
    if fs == [] then [] else [Strip(fs[0])] + StripAll(fs[1..])
  }
}
