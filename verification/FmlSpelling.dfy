/** From characters to items: blanks, comments, quotes, and numbers in either base. */
module FmlSpelling {
  import opened Characters
  import opened Wrappers
  import opened Sequences
  import opened FmlDescriptor
  import opened FmlPrinter
  import opened FmlGrammar
  import opened FmlLexing
  import opened FmlSyntax

  // ---- Blanks.

  /** A white-space character, or a comment with the end of its line. */
  datatype Blank = Space(c: char) | Comment(text: string)

  predicate ProperBlank(b: Blank) {
    match b
    case Space(c) => IsSpace(c)
    case Comment(text) => All(NotNewline, text)
  }

  function BlankText(b: Blank): string {
    match b
    case Space(c) => [c]
    case Comment(text) => "#" + text + "\n"
  }

  function GapText(gap: seq<Blank>): string {
    if gap == [] then "" else BlankText(gap[0]) + GapText(gap[1..])
  }

  predicate ProperGap(gap: seq<Blank>) {
    forall b | b in gap :: ProperBlank(b)
  }

  /** Blanks and comments before an item do not count. */
  lemma {:induction false} GapIsSkipped(gap: seq<Blank>, r: string)
    requires ProperGap(gap)
    ensures SkipBlanks(GapText(gap) + r) == SkipBlanks(r)
    decreases gap
  {
    if gap == [] {
      LeftUnit(r);
    } else {
      var rest := GapText(gap[1..]) + r;
      GapIsSkipped(gap[1..], r);
      Assoc(BlankText(gap[0]), GapText(gap[1..]), r);
      assert ProperBlank(gap[0]);
      hide GapText, SkipBlanks;
      BlankIsSkipped(gap[0], rest);
    }
  }

  lemma BlankIsSkipped(b: Blank, r: string)
    requires ProperBlank(b)
    ensures SkipBlanks(BlankText(b) + r) == SkipBlanks(r)
  {
    match b {
      case Space(c) => assert ([c] + r)[1..] == r;
      case Comment(text) =>
        var s := BlankText(b) + r;
        CommentRuns(text, "\n" + r);
        assert s == "#" + text + ("\n" + r);
        assert s[|text| + 1..] == "\n" + r;
        assert ("\n" + r)[1..] == r;
        assert SkipBlanks("\n" + r) == SkipBlanks(r);
    }
  }

  lemma CommentRuns(text: string, r: string)
    requires All(NotNewline, text) && (r == "" || r[0] == '\n')
    ensures Run(NotNewline, "#" + text + r) == |text| + 1
  {
    RunExact(NotNewline, "#" + text, r);
  }

  /** A comment may also end the source. */
  lemma LastComment(text: string)
    requires All(NotNewline, text)
    ensures SkipBlanks("#" + text) == ""
  {
    CommentRuns(text, "");
    RightUnit("#" + text);
    assert ("#" + text)[|text| + 1..] == "";
  }

  // ---- Items.

  predicate Spellable(t: Token) {
    if t.kind == NAME then IsName(t.text)
    else if t.kind == NUMBER then IsNumber(t.text)
    else if t.kind == STRING then All(NotQuote, t.text)
    else 0 < t.kind < 128 && IsMark(t.kind as char) && t.text == ""
  }

  function TokenText(t: Token): string
    requires Spellable(t)
  {
    if t.kind == NAME || t.kind == NUMBER then t.text
    else if t.kind == STRING then "\"" + t.text + "\""
    else [t.kind as char]
  }

  /** What follows an item is not taken for a part of it. */
  predicate Apart(t: Token, r: string) {
    r == "" || if t.kind == NAME then !InsideName(r[0]) else if t.kind == NUMBER then !InsideNumber(r[0]) else true
  }

  /** One spelled item, with blanks before it. */
  lemma LexToken(text: string, gap: seq<Blank>, t: Token, r: string)
    requires ProperGap(gap) && Spellable(t) && Apart(t, r)
    ensures NextItem(text, GapText(gap) + (TokenText(t) + r))
         == Some(Item(t.kind, if t.kind < END then t.text else text, r))
  {
    SkipsGap(text, gap, TokenText(t) + r);
    hide NextItem, IsMark, IsName, IsNumber, NotQuote;
    if t.kind == NAME {
      LexName(text, t.text, r);
    } else if t.kind == NUMBER {
      LexNumber(text, t.text, r);
    } else if t.kind == STRING {
      LexString(text, t.text, r);
    } else {
      LexPunctuation(text, t.kind as char, r);
    }
  }

  lemma SkipsGap(text: string, gap: seq<Blank>, r: string)
    requires ProperGap(gap)
    ensures NextItem(text, GapText(gap) + r) == NextItem(text, r)
  {
    GapIsSkipped(gap, r);
  }

  // ---- Sources.

  /** An item and the blanks before it. */
  datatype Piece = Piece(gap: seq<Blank>, token: Token)

  predicate ProperPiece(p: Piece) {
    ProperGap(p.gap) && Spellable(p.token)
  }

  predicate ProperPieces(pieces: seq<Piece>) {
    forall p | p in pieces :: ProperPiece(p)
  }

  function PiecesText(pieces: seq<Piece>, last: string): string
    requires ProperPieces(pieces)
  {
    if pieces == [] then last
    else
      assert ProperPiece(pieces[0]);
      GapText(pieces[0].gap) + (TokenText(pieces[0].token) + PiecesText(pieces[1..], last))
  }

  function TokensOf(pieces: seq<Piece>): seq<Token> {
    if pieces == [] then [] else [pieces[0].token] + TokensOf(pieces[1..])
  }

  /** No item runs into the next one. */
  predicate AllApart(pieces: seq<Piece>, last: string)
    requires ProperPieces(pieces)
  {
    pieces == [] || (Apart(pieces[0].token, PiecesText(pieces[1..], last)) && AllApart(pieces[1..], last))
  }

  /** The lexer finds the items that were spelled, whatever blanks and comments lie between them. */
  lemma {:induction false} SpelledTokens(text: string, pieces: seq<Piece>, last: string)
    requires ProperPieces(pieces) && AllApart(pieces, last) && SkipBlanks(last) == ""
    ensures SourceTokens(text, PiecesText(pieces, last)) == Some(TokensOf(pieces))
    decreases pieces
  {
    hide Apart, TokenText, Spellable, GapText, SkipBlanks, ItemAt, NextItem;
    if pieces == [] {
      NothingLeft(text, last);
    } else {
      var p, rest := pieces[0], PiecesText(pieces[1..], last);
      assert ProperPiece(p);
      LexToken(text, p.gap, p.token, rest);
      var it := Item(p.token.kind, if p.token.kind < END then p.token.text else text, rest);
      SpelledTokens(it.text, pieces[1..], last);
      TokenIsKept(p.token, it);
    }
  }

  lemma NothingLeft(text: string, last: string)
    requires SkipBlanks(last) == ""
    ensures NextItem(text, last) == Some(Item(END, text, ""))
  {
  }

  lemma TokenIsKept(t: Token, it: Item)
    requires Spellable(t) && it.kind == t.kind && (it.kind < END ==> it.text == t.text)
    ensures it.kind != END && TokenOf(it) == t
  {
  }

  /**
    Any spelling of proper trees is accepted with their meaning, with any blanks between the items; in
    particular a value may be written with quotes or without.
   */
  lemma SpellingIsAccepted(text: string, pieces: seq<Piece>, last: string, trees: seq<Tree>)
    requires ProperPieces(pieces) && AllApart(pieces, last) && SkipBlanks(last) == ""
    requires ProperAll(trees) && TokensOf(pieces) == AllTokens(trees)
    ensures ParseSource(text, PiecesText(pieces, last)) == Some(Meanings(trees))
  {
    hide *;
    SpelledTokens(text, pieces, last);
    WrittenIsAccepted(text, PiecesText(pieces, last), trees);
  }

  lemma WrittenIsAccepted(text: string, source: string, trees: seq<Tree>)
    requires ProperAll(trees) && SourceTokens(text, source) == Some(AllTokens(trees))
    ensures ParseSource(text, source) == Some(Meanings(trees))
  {
    hide ParseSource, ProperAll, SourceTokens, AllTokens, Meanings;
    assert Describes(trees, text, source, Meanings(trees));
    AcceptsExactly(text, source, Meanings(trees));
  }

  // ---- One parameter.

  /** Without quotes, an identifier or a number is read as the value that it would be with quotes. */
  lemma BareValueIsRead(name: string, value: string, r: string, t: string, f: Function)
    requires IsName(name) && (IsName(value) || IsNumber(value))
    requires r == "" || (!InsideName(r[0]) && !InsideNumber(r[0]))
    requires NextItem(value, r).Some?
    ensures NextItem(t, name + "=" + value + r).Some?
    ensures ParseParameter(NextItem(t, name + "=" + value + r).value, f)
         == Some((f.(parameters := f.parameters + [Parameter(name, value)]), NextItem(value, r).value))
  {
    var s := ['='] + (value + r);
    assert name + "=" + value + r == name + s;
    LexName(t, name, s);
    LexPunctuation(name, '=', value + r);
    if IsName(value) {
      LexName(name, value, r);
    } else {
      LexNumber(name, value, r);
    }
    hide NextItem, IsName, IsNumber;
  }

  /** Anything but an identifier, a number or a string is no value. */
  lemma MarkIsNoValue(it: Item, equals: Item, value: Item, f: Function)
    requires it.kind == NAME && Advance(it) == Some(equals) && Advance(equals) == Some(value) && value.kind >= END
    ensures ParseParameter(it, f) == None
  {
    hide NextItem;
  }

  // ---- Numbers.

  function OctalText(n: nat): string {
    if n < 8 then [DigitChar(n)] else OctalText(n / 8) + [DigitChar(n % 8)]
  }

  predicate IsSign(s: string) {
    s == "" || s == "+" || s == "-"
  }

  function Signed(sign: string, n: int): int {
    if sign == "-" then -n else n
  }

  /** The 64-bit number closest to `n`. */
  predicate IsClosest(value: int, n: int) {
    if n < -0x8000_0000_0000_0000 then value == -0x8000_0000_0000_0000
    else if n >= 0x8000_0000_0000_0000 then value == 0x7FFF_FFFF_FFFF_FFFF
    else value == n
  }

  /** The 32-bit number that agrees with `n`, brought into 64 bits, in its low 32 bits. */
  ghost predicate IsCut(m: int, n: int) {
    IsInt32(m) && exists k: int :: IsClosest(m + k * 0x1_0000_0000, n)
  }

  lemma {:induction false} DigitsStop(base: int, acc: int, s: string, r: string)
    requires (forall i | 0 <= i < |s| :: IsDigitOf(base, s[i])) && (r == "" || !IsDigitOf(base, r[0]))
    ensures Digits(base, acc, s + r) == Digits(base, acc, s)
    decreases s
  {
    if s == "" {
      LeftUnit(r);
    } else {
      TailOfConcat(s, r);
      DigitsStop(base, acc * base + DigitValue(s[0]), s[1..], r);
    }
  }

  lemma {:induction false} OctalDigits(n: nat)
    ensures OctalText(n) != "" && forall i | 0 <= i < |OctalText(n)| :: IsDigitOf(8, OctalText(n)[i])
    ensures Digits(8, 0, OctalText(n)) == n
  {
    if n < 8 {
      assert Digits(8, 0, OctalText(n)) == Digits(8, n, "");
    } else {
      OctalDigits(n / 8);
      DigitsAppend(8, 0, OctalText(n / 8), DigitChar(n % 8));
    }
  }

  lemma SignedDigits(sign: string, digits: string)
    requires IsSign(sign) && digits != "" && IsDigit(digits[0])
    ensures var base := if digits[0] == '0' then 8 else 10;
            IsClosest(StringToLong(sign + digits), Signed(sign, Digits(base, 0, digits)))
  {
    if sign == "" {
      LeftUnit(digits);
    } else {
      assert (sign + digits)[1..] == digits;
    }
    hide Digits;
  }

  lemma CutIsCut(text: string, n: int)
    requires IsClosest(StringToLong(text), n)
    ensures IsCut(ParseInt32(text), n)
  {
    var value, m := StringToLong(text), ParseInt32(text);
    hide StringToLong, IsClosest;
    var k := (value + 0x8000_0000) / 0x1_0000_0000;
    assert m + k * 0x1_0000_0000 == value;
  }

  /** Decimal text with any sign, and any text after the digits, is its value brought into 64 bits and cut. */
  lemma DecimalMeans(sign: string, n: nat, r: string)
    requires IsSign(sign) && (r == "" || !IsDigit(r[0]))
    ensures IsCut(ParseInt32(sign + (NatText(n) + r)), Signed(sign, n))
  {
    NatTextDigits(n);
    DigitsOfNatText(n);
    var digits := NatText(n) + r;
    if n == 0 {
      assert digits[0] == '0' && NatText(0) == "0";
      assert Digits(8, 0, "0") == Digits(8, 0, "");
      DigitsStop(8, 0, "0", r);
    } else {
      DigitsStop(10, 0, NatText(n), r);
    }
    hide NatText, Digits, StringToLong, IsCut, IsClosest;
    SignedDigits(sign, digits);
    CutIsCut(sign + digits, Signed(sign, n));
  }

  /** After a leading zero the digits are octal, and stop at the first that is not. */
  lemma OctalMeans(sign: string, n: nat, r: string)
    requires IsSign(sign) && (r == "" || !IsDigitOf(8, r[0]))
    ensures IsCut(ParseInt32(sign + ("0" + OctalText(n) + r)), Signed(sign, n))
  {
    OctalDigits(n);
    var text := "0" + OctalText(n);
    var digits := text + r;
    assert text[1..] == OctalText(n);
    assert Digits(8, 0, text) == Digits(8, 0, text[1..]);
    DigitsStop(8, 0, text, r);
    hide OctalText, Digits, StringToLong, IsCut, IsClosest;
    SignedDigits(sign, digits);
    CutIsCut(sign + digits, Signed(sign, n));
  }
}
