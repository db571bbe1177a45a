/** How the lexer cuts printed text into items again, whatever follows. */
module FmlLexing {
  import opened Characters
  import opened Wrappers
  import opened Sequences
  import opened FmlDescriptor
  import opened FmlPrinter
  import opened FmlGrammar

  /** The characters of identifiers and numbers by their codes. */
  lemma ItemsByCode(c: char)
    ensures var n := c as int;
            && (StartsName(c) <==> 65 <= n <= 90 || 97 <= n <= 122 || c == '_' || c == '/')
            && (InsideName(c) <==> StartsName(c) || 48 <= n <= 57 || c == '-')
            && (StartsNumber(c) <==> 48 <= n <= 57 || c == '+' || c == '-')
            && (InsideNumber(c) <==> 48 <= n <= 57 || c == '.')
  {
  }

  /** A string that is not closed fails. */
  lemma UnclosedString(text: string, v: string)
    requires All(NotQuote, v)
    ensures NextItem(text, "\"" + v) == None
  {
    var s := "\"" + v;
    RunExact(NotQuote, v, "");
    RightUnit(v);
    assert s[1..] == v;
    assert SkipBlanks(s) == s;
  }

  lemma {:induction false} RunExact(p: char -> bool, w: string, r: string)
    requires All(p, w)
    requires r == "" || !p(r[0])
    ensures Run(p, w + r) == |w|
  {
    if w == "" {
      assert w + r == r;
    } else {
      RunExact(p, w[1..], r);
      assert (w + r)[1..] == w[1..] + r;
    }
  }

  /** An identifier is one NAME item, unless it is followed by another identifier character. */
  lemma LexName(text: string, w: string, r: string)
    requires IsName(w)
    requires r == "" || !InsideName(r[0])
    ensures NextItem(text, w + r) == Some(Item(NAME, w, r))
  {
    RunExact(InsideName, w, r);
    assert (w + r)[|w|..] == r;
    assert SkipBlanks(w + r) == w + r;
  }

  lemma LexString(text: string, v: string, r: string)
    requires All(NotQuote, v)
    ensures NextItem(text, "\"" + v + "\"" + r) == Some(Item(STRING, v, r))
  {
    var s := "\"" + v + "\"" + r;
    RunExact(NotQuote, v, "\"" + r);
    assert s[1..] == v + ("\"" + r);
    assert s[1..|v| + 1] == v;
    assert s[|v| + 2..] == r;
    assert SkipBlanks(s) == s;
    assert ItemAt(text, s) == Some(Item(STRING, v, r));
  }

  /** Characters that are items of their own, with a positive type. */
  predicate IsMark(c: char) {
    0 < c as int < 128 && !IsSpace(c) && c != '#' && c != '"' && !StartsName(c) && !StartsNumber(c)
  }

  lemma LexPunctuation(text: string, c: char, r: string)
    requires IsMark(c)
    ensures NextItem(text, [c] + r) == Some(Item(c as int, text, r))
  {
    var s := [c] + r;
    assert s[0] == c && s[1..] == r;
    assert SkipBlanks(s) == s;
    assert ItemAt(text, s) == Some(Item(c as int, text, r));
  }

  lemma LexSpace(text: string, c: char, r: string)
    requires IsSpace(c)
    ensures NextItem(text, [c] + r) == NextItem(text, r)
  {
    assert ([c] + r)[1..] == r;
  }

  /** The text of the previous item only shows in the text of the next one. */
  lemma TextIsCarried(t1: string, t2: string, r: string)
    ensures NextItem(t1, r).Some? == NextItem(t2, r).Some?
    ensures NextItem(t1, r).Some? ==>
              NextItem(t1, r).value.kind == NextItem(t2, r).value.kind
              && NextItem(t1, r).value.rest == NextItem(t2, r).value.rest
  {
  }

  lemma {:induction false} NatTextDigits(n: nat)
    ensures NatText(n) != "" && All(IsDigit, NatText(n))
    ensures n > 0 ==> NatText(n)[0] != '0'
  {
    if n >= 10 {
      NatTextDigits(n / 10);
    }
  }

  /** Text of an item that starts with a digit or a sign. */
  predicate IsNumber(s: string) {
    s != "" && StartsNumber(s[0]) && All(InsideNumber, s[1..])
  }

  lemma LexNumber(text: string, w: string, r: string)
    requires IsNumber(w) && (r == "" || !InsideNumber(r[0]))
    ensures NextItem(text, w + r) == Some(Item(NUMBER, w, r))
  {
    var s := w + r;
    RunExact(InsideNumber, w[1..], r);
    TailOfConcat(w, r);
    assert s[..|w|] == w && s[|w|..] == r;
    assert SkipBlanks(s) == s;
    assert ItemAt(text, s) == Some(Item(NUMBER, w, r));
  }

  lemma LexInt(text: string, n: int, r: string)
    requires r != "" && !InsideNumber(r[0])
    ensures NextItem(text, IntText(n) + r) == Some(Item(NUMBER, IntText(n), r))
  {
    var w := IntText(n);
    NatTextDigits(if n < 0 then -n else n);
    hide NatText;
    assert StartsNumber(w[0]) && All(IsDigit, w[1..]);
    LexNumber(text, w, r);
  }

  /** A digit of the base. */
  predicate IsDigitOf(base: int, c: char) {
    IsDigit(c) && DigitValue(c) < base
  }

  lemma {:induction false} DigitsAppend(base: int, acc: int, s: string, c: char)
    requires (forall i | 0 <= i < |s| :: IsDigitOf(base, s[i])) && IsDigitOf(base, c)
    ensures Digits(base, acc, s + [c]) == base * Digits(base, acc, s) + DigitValue(c)
    decreases s
  {
    if s == "" {
      LeftUnit([c]);
      assert Digits(base, acc, [c]) == Digits(base, acc * base + DigitValue(c), "");
    } else {
      TailOfConcat(s, [c]);
      DigitsAppend(base, acc * base + DigitValue(s[0]), s[1..], c);
    }
  }

  lemma {:induction false} DigitsOfNatText(n: nat)
    ensures Digits(10, 0, NatText(n)) == n
  {
    if n < 10 {
      assert Digits(10, 0, NatText(n)) == Digits(10, n, "");
    } else {
      DigitsOfNatText(n / 10);
      NatTextDigits(n / 10);
      DigitsAppend(10, 0, NatText(n / 10), DigitChar(n % 10));
    }
  }

  /** `ParseInt32` reads back what `std::to_string` prints, on every non-zero 32-bit integer. */
  lemma ParseInt32OfIntText(n: int)
    requires IsInt32(n) && n != 0
    ensures ParseInt32(IntText(n)) == n
  {
    var m: nat := if n < 0 then -n else n;
    NatTextDigits(m);
    DigitsOfNatText(m);
    if n < 0 {
      assert IntText(n)[1..] == NatText(m);
    }
  }
}
