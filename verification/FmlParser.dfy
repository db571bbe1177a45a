/** The parser object of `fml_parser.cc`, with its cursor, line counters and current item. */
module FmlParser {
  import opened Characters
  import opened Wrappers
  import opened Sequences
  import opened FmlDescriptor
  import opened FmlGrammar

  function Newlines(s: string): nat {
    if s == "" then 0 else Newlines(s[..|s| - 1]) + if s[|s| - 1] == '\n' then 1 else 0
  }

  /** `start` is the position just after the last newline before `pos`, or 0. */
  predicate IsLineStart(source: string, pos: nat, start: nat)
    requires pos <= |source|
  {
    && start <= pos
    && (start == 0 || source[start - 1] == '\n')
    && forall k | start <= k < pos :: source[k] != '\n'
  }

  /**
    Every method returns whether all its `CLD3_DCHECK`s held; the cursor invariant holds in both cases.
   */
  class FMLParser {
    var source: string
    var current: nat
    var lineNumber: nat
    var itemStart: nat
    var lineStart: nat
    var itemLineNumber: nat
    var itemType: int
    var itemText: string

    /** The position invariant: line numbers count newlines, `lineStart` follows the last of them. */
    ghost predicate Valid()
      reads this
    {
      && itemStart <= current <= |source|
      && lineNumber == 1 + Newlines(source[..current])
      && itemLineNumber == 1 + Newlines(source[..itemStart])
      && IsLineStart(source, current, lineStart)
    }

    ghost function Unread(): string
      reads this
      requires Valid()
    {
      source[current..]
    }

    ghost function CurrentItem(): Item
      reads this
      requires Valid()
    {
      Item(itemType, itemText, Unread())
    }

    /** The method was handed item `it` and left the parser at the end of `result`, or failed with it. */
    ghost predicate Left<T>(ok: bool, value: T, result: Option<(T, Item)>)
      reads this
      requires Valid()
    {
      if ok then result == Some((value, CurrentItem())) else result == None
    }

    constructor ()
      ensures Valid() && itemText == ""
    {
      source, current, itemStart, lineStart := "", 0, 0, 0;
      lineNumber, itemLineNumber := 1, 1;
      itemType, itemText := END, "";
    }

    predicate Eos()
      reads this
    {
      current == |source|
    }

    function CurrentChar(): char
      reads this
      requires current < |source|
    {
      source[current]
    }

    method Initialize(text: string) returns (ok: bool)
      modifies this
      ensures Valid() && source == text
      ensures FmlGrammar.NextItem(old(itemText), text) == if ok then Some(CurrentItem()) else None
    {
      hide FmlGrammar.NextItem;
      source := text;
      current := 0;
      itemStart, lineStart := 0, 0;
      lineNumber, itemLineNumber := 1, 1;
      ok := NextItem();
    }

    method Next()
      requires Valid() && current < |source|
      modifies this`current, this`lineNumber, this`lineStart
      ensures Valid() && current == old(current) + 1
      ensures Unread() == old(Unread())[1..]
    {
      assert source[..current + 1][..current] == source[..current];
      if CurrentChar() == '\n' {
        lineNumber := lineNumber + 1;
        current := current + 1;
        lineStart := current;
      } else {
        current := current + 1;
      }
    }

    /** `while (!eos() && p(CurrentChar())) Next();` Returns the text it has passed. */
    method NextWhile(p: char -> bool) returns (text: string)
      requires Valid()
      modifies this`current, this`lineNumber, this`lineStart
      ensures Valid()
      ensures var n := Run(p, old(Unread()));
              text == old(Unread())[..n] && Unread() == old(Unread())[n..]
    {
      var start := current;
      while !Eos() && p(CurrentChar())
        invariant Valid() && current >= start
        invariant Run(p, old(Unread())) == current - start + Run(p, Unread())
        decreases |source| - current
      {
        Next();
      }
      text := source[start..current];
    }

    method NextItem() returns (ok: bool)
      requires Valid()
      modifies this
      ensures Valid() && source == old(source)
      ensures FmlGrammar.NextItem(old(itemText), old(Unread())) == if ok then Some(CurrentItem()) else None
      ensures itemStart == |source| - |SkipBlanks(old(Unread()))|
    {
      hide ItemAt;
      SkipToItem();
      itemStart := current;
      itemLineNumber := lineNumber;
      ok := ScanItem();
    }

    /** Skip white space and comments. */
    method SkipToItem()
      requires Valid()
      modifies this`current, this`lineNumber, this`lineStart
      ensures Valid()
      ensures Unread() == SkipBlanks(old(Unread()))
    {
      while !Eos()
        invariant Valid()
        invariant SkipBlanks(Unread()) == SkipBlanks(old(Unread()))
        decreases |Unread()|
      {
        ghost var before := Unread();
        if CurrentChar() == '#' {
          var _ := NextWhile(NotNewline);
        } else if IsSpace(CurrentChar()) {
          var _ := NextWhile(IsSpace);
          SkipSpaces(before);
        } else {
          break;
        }
      }
    }

    /** Reads the item that starts at the cursor. */
    method ScanItem() returns (ok: bool)
      requires Valid()
      modifies this`current, this`lineNumber, this`lineStart, this`itemType, this`itemText
      ensures Valid()
      ensures ItemAt(old(itemText), old(Unread())) == if ok then Some(CurrentItem()) else None
    {
      hide Run, SkipBlanks;
      if Eos() {
        itemType := END;
        return true;
      }

      if StartsNumber(CurrentChar()) {
        ScanNumber();
        return true;
      }
      if CurrentChar() == '"' {
        ok := ScanString();
        return;
      }

      if StartsName(CurrentChar()) {
        itemText := NextWhile(InsideName);
        itemType := NAME;
        return true;
      }

      // The text of the item before stays.
      itemType := CharKind(CurrentChar());
      Next();
      return true;
    }

    method ScanNumber()
      requires Valid() && !Eos() && StartsNumber(CurrentChar())
      modifies this`current, this`lineNumber, this`lineStart, this`itemType, this`itemText
      ensures Valid()
      ensures ItemAt(old(itemText), old(Unread())) == Some(CurrentItem())
    {
      hide Run, ItemAt;
      NumberItem(itemText, Unread());
      var sign := CurrentChar();
      Next();
      var digits := NextWhile(InsideNumber);
      itemText := [sign] + digits;
      itemType := NUMBER;
    }

    method ScanString() returns (ok: bool)
      requires Valid() && !Eos() && CurrentChar() == '"'
      modifies this`current, this`lineNumber, this`lineStart, this`itemType, this`itemText
      ensures Valid()
      ensures ItemAt(old(itemText), old(Unread())) == if ok then Some(CurrentItem()) else None
    {
      hide Run;
      Next();
      itemText := NextWhile(NotQuote);
      Shift(old(Unread()), |itemText|);
      if Eos() {
        return false;
      }
      itemType := STRING;
      Next();
      return true;
    }

    method Parse(text: string) returns (ok: bool, result: seq<Function>)
      modifies this
      ensures Valid() && source == text
      ensures ParseSource(old(itemText), text) == if ok then Some(result) else None
    {
      hide FmlGrammar.NextItem;
      result := [];
      ok := Initialize(text);
      if !ok {
        return;
      }
      while itemType != END
        invariant Valid() && source == text
        invariant ParseSource(old(itemText), text) == ParseFeatures(CurrentItem(), result)
        decreases CurrentItem().Size()
      {
        if itemType != NAME {
          return false, result;
        }
        var typ := itemText;
        ok := NextItem();
        if !ok || itemType == '=' as int {
          return false, result;
        }
        var f;
        ok, f := ParseFeature(NewFunction(typ));
        if !ok {
          return false, result;
        }
        result := result + [f];
      }
      ok := true;
    }

    /** Extends the descriptor `f` by what follows its type in the input. */
    method ParseFeature(f: Function) returns (ok: bool, result: Function)
      requires Valid()
      modifies this
      ensures Valid() && source == old(source)
      ensures Left(ok, result, FmlGrammar.ParseFeature(old(CurrentItem()), f))
      decreases CurrentItem().Size(), 1
    {
      hide FmlGrammar.NextItem, FmlGrammar.ParseArguments, FmlGrammar.ParseName, FmlGrammar.ParseBraces;
      result := f;
      ok, result := ParseArguments(result);
      if !ok {
        return;
      }
      ok, result := ParseName(result);
      if !ok {
        return;
      }
      if itemType == '.' as int {
        ok := NextItem();
        if !ok || itemType != NAME {
          return false, result;
        }
        var typ := itemText;
        ok := NextItem();
        if !ok {
          return;
        }
        var subfeature;
        ok, subfeature := ParseFeature(NewFunction(typ));
        result := AddFeature(result, subfeature);
      } else if itemType == '{' as int {
        ok, result := ParseSubfeatureBlock(result);
      }
    }

    method ParseArguments(f: Function) returns (ok: bool, result: Function)
      requires Valid()
      modifies this
      ensures Valid() && source == old(source)
      ensures Left(ok, result, FmlGrammar.ParseArguments(old(CurrentItem()), f))
    {
      hide FmlGrammar.NextItem, FmlGrammar.ParseParameter, FmlGrammar.ParseFeature;
      result := f;
      if itemType != '(' as int {
        return true, result;
      }
      ok := NextItem();
      if !ok {
        return;
      }
      ok, result := ParseParameter(result);
      if !ok {
        return;
      }
      ghost var more := ParseMoreParameters(CurrentItem(), result);
      while itemType == ',' as int
        invariant Valid() && source == old(source)
        invariant CurrentItem().Size() <= old(CurrentItem()).Size()
        invariant more == ParseMoreParameters(CurrentItem(), result)
        decreases CurrentItem().Size()
      {
        ok := NextItem();
        if !ok {
          return;
        }
        ok, result := ParseParameter(result);
        if !ok {
          return;
        }
      }
      if itemType != ')' as int {
        return false, result;
      }
      ok := NextItem();
    }

    method ParseName(f: Function) returns (ok: bool, result: Function)
      requires Valid()
      modifies this
      ensures Valid() && source == old(source)
      ensures Left(ok, result, FmlGrammar.ParseName(old(CurrentItem()), f))
    {
      hide FmlGrammar.NextItem;
      result := f;
      if itemType != ':' as int {
        return true, result;
      }
      ok := NextItem();
      if !ok || (itemType != NAME && itemType != STRING) {
        return false, result;
      }
      var name := itemText;
      ok := NextItem();
      if ok {
        result := result.(name := Some(name));
      }
    }

    method ParseSubfeatureBlock(f: Function) returns (ok: bool, result: Function)
      requires Valid() && itemType == '{' as int
      modifies this
      ensures Valid() && source == old(source)
      ensures var it := old(CurrentItem());
              Left(ok, result, ParseBraces(it, f))
      decreases CurrentItem().Size(), 0
    {
      hide FmlGrammar.NextItem, FmlGrammar.ParseParameter, FmlGrammar.ParseFeature;
      result := f;
      ok := NextItem();
      if !ok {
        return;
      }
      ghost var block := ParseBlock(CurrentItem(), result);
      while itemType != '}' as int
        invariant Valid() && source == old(source)
        invariant CurrentItem().Size() < old(CurrentItem()).Size()
        invariant block == ParseBlock(CurrentItem(), result)
        decreases CurrentItem().Size()
      {
        if itemType != NAME {
          return false, result;
        }
        var typ := itemText;
        ok := NextItem();
        if !ok {
          return;
        }
        var subfeature;
        ok, subfeature := ParseFeature(NewFunction(typ));
        if !ok {
          return;
        }
        result := AddFeature(result, subfeature);
      }
      ok := NextItem();
    }

    method ParseParameter(f: Function) returns (ok: bool, result: Function)
      requires Valid()
      modifies this
      ensures Valid() && source == old(source)
      ensures Left(ok, result, FmlGrammar.ParseParameter(old(CurrentItem()), f))
    {
      hide FmlGrammar.NextItem;
      result := f;
      if itemType != NUMBER && itemType != NAME {
        return false, result;
      }
      if itemType == NUMBER {
        var argument := ParseInt32(itemText);
        ok := NextItem();
        result := result.(argument := Some(argument));
      } else {
        var name := itemText;
        ok := NextItem();
        if !ok || itemType != '=' as int {
          return false, result;
        }
        ok := NextItem();
        if !ok || itemType >= END {
          return false, result;
        }
        var value := itemText;
        ok := NextItem();
        result := result.(parameters := result.parameters + [Parameter(name, value)]);
      }
    }
  }

  lemma {:induction false} SkipSpaces(r: string)
    ensures SkipBlanks(r[Run(IsSpace, r)..]) == SkipBlanks(r)
    decreases |r|
  {
    if r != "" && IsSpace(r[0]) {
      SkipSpaces(r[1..]);
      assert r[Run(IsSpace, r)..] == r[1..][Run(IsSpace, r[1..])..];
    } else {
      assert r[0..] == r;
    }
  }
}
