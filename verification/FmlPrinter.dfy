/** The printer of `fml_parser.cc`: methods append to a string, functions say which text. */
module FmlPrinter {
  import opened Characters
  import opened Sequences
  import opened FmlDescriptor

  function DigitChar(d: nat): (c: char)
    requires d < 10
    ensures IsDigit(c)
  {
    '0' + d as char
  }

  function NatText(n: nat): string {
    if n < 10 then [DigitChar(n)] else NatText(n / 10) + [DigitChar(n % 10)]
  }

  /** `std::to_string` on an integer. */
  function IntText(n: int): string {
    if n < 0 then "-" + NatText(-n) else NatText(n)
  }

  function ParameterText(p: Parameter): string {
    p.name + "=" + "\"" + p.value + "\""
  }

  function MoreParameters(ps: seq<Parameter>): string {
    if ps == [] then "" else "," + ParameterText(ps[0]) + MoreParameters(ps[1..])
  }

  /** The list between the parentheses. */
  function ListText(f: Function): string {
    if f.Argument() != 0 then IntText(f.Argument()) + MoreParameters(f.parameters)
    else if f.parameters != [] then ParameterText(f.parameters[0]) + MoreParameters(f.parameters[1..])
    else ""
  }

  /** The parenthesised list, absent when there is neither a non-zero argument nor a parameter. */
  function ArgumentsText(f: Function): string {
    if f.Argument() != 0 || f.parameters != [] then "(" + ListText(f) + ")" else ""
  }

  function FeaturesText(f: Function): string
    decreases f, 0
  {
    if |f.features| == 0 then ""
    else if |f.features| == 1 then "." + Text(f.features[0])
    else " {" + SpacedText(f.features) + " } "
  }

  /** A printed function without its type. */
  function TailText(f: Function): string
    decreases f, 1
  {
    ArgumentsText(f) + FeaturesText(f)
  }

  function Text(f: Function): string
    decreases f, 2
  {
    f.typ + TailText(f)
  }

  function SpacedText(fs: seq<Function>): string
    decreases fs
  {
    if fs == [] then "" else " " + Text(fs[0]) + SpacedText(fs[1..])
  }

  function ExtractorText(fs: seq<Function>): string {
    if fs == [] then "" else Text(fs[0]) + "\n" + ExtractorText(fs[1..])
  }

  lemma {:induction false} SpacedTextSnoc(fs: seq<Function>, i: nat)
    requires i < |fs|
    ensures SpacedText(fs[..i + 1]) == SpacedText(fs[..i]) + " " + Text(fs[i])
  {
    if i > 0 {
      SpacedTextSnoc(fs[1..], i - 1);
      assert fs[..i + 1][1..] == fs[1..][..i];
      assert fs[..i][1..] == fs[1..][..i - 1];
    }
  }

  /** The body of the parameter loop of `ToFMLFunction`. */
  method AppendParameter(p: Parameter, output: string) returns (out: string)
    ensures out == output + ParameterText(p)
  {
    out := output + p.name;
    out := out + "=";
    out := out + "\"";
    out := out + p.value;
    out := out + "\"";
  }

  method ToFMLFunction(f: Function, output: string) returns (out: string)
    ensures out == output + f.typ + ArgumentsText(f)
  {
    out := output + f.typ;
    if f.Argument() != 0 || |f.parameters| > 0 {
      out := out + "(";
      var first := true;
      if f.Argument() != 0 {
        out := out + IntText(f.Argument());
        first := false;
      }
      ghost var list := ListText(f);
      for i := 0 to |f.parameters|
        invariant first == (i == 0 && f.Argument() == 0)
        invariant first ==> out == output + f.typ + "("
        invariant !first ==> out + MoreParameters(f.parameters[i..]) == output + f.typ + "(" + list
      {
        ghost var before, more := out, MoreParameters(f.parameters[i + 1..]);
        ghost var p := ParameterText(f.parameters[i]);
        assert f.parameters[i..] == [f.parameters[i]] + f.parameters[i + 1..];
        if !first {
          out := out + ",";
        }
        out := AppendParameter(f.parameters[i], out);
        if first {
          Assoc(before, p, more);
        } else {
          Assoc(before, ",", p);
          Assoc(before, "," + p, more);
        }
        first := false;
      }
      out := out + ")";
      Assoc(output + f.typ, "(", list);
      Assoc(output + f.typ, "(" + list, ")");
    }
  }

  method ToFML(f: Function, output: string) returns (out: string)
    ensures out == output + Text(f)
    decreases f, 1
  {
    out := ToFMLFunction(f, output);
    out := ToFMLSubfeatures(f, out);
    Assoc(output + f.typ, ArgumentsText(f), FeaturesText(f));
    Assoc(output, f.typ, TailText(f));
  }

  /** The part of `ToFML` after the function itself: the dotted or the braced sub-features. */
  method ToFMLSubfeatures(f: Function, output: string) returns (out: string)
    ensures out == output + FeaturesText(f)
    decreases f, 0
  {
    out := output;
    if |f.features| == 1 {
      out := out + ".";
      out := ToFML(f.features[0], out);
    } else if |f.features| > 1 {
      out := out + " { ";
      for i := 0 to |f.features|
        invariant out == output + " {" + SpacedText(f.features[..i]) + if i == 0 then " " else ""
      {
        ghost var printed := output + " {" + SpacedText(f.features[..i]);
        if i > 0 {
          out := out + " ";
        }
        assert out == printed + " ";
        out := ToFML(f.features[i], out);
        SpacedTextSnoc(f.features, i);
        Assoc(output + " {", SpacedText(f.features[..i]), " ");
        Assoc(output + " {", SpacedText(f.features[..i]) + " ", Text(f.features[i]));
      }
      assert f.features[..|f.features|] == f.features;
      out := out + " } ";
      Assoc(output, " {", SpacedText(f.features));
      Assoc(output, " {" + SpacedText(f.features), " } ");
    }
  }

  /** `AsFML` on a whole extractor. */
  method AsFML(features: seq<Function>) returns (out: string)
    ensures out == ExtractorText(features)
  {
    out := "";
    for i := 0 to |features|
      invariant out + ExtractorText(features[i..]) == ExtractorText(features)
    {
      assert features[i..] == [features[i]] + features[i + 1..];
      out := ToFML(features[i], out);
      out := out + "\n";
    }
  }
}
