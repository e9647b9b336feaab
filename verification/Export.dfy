/**
 Property maps written as text and read back: printing, lexing, parsing and
 evaluating gives the map again.
 */
module Export {
  import opened Bytes
  import opened Wrappers
  import opened Values
  import opened Syntax
  import opened Expressions
  import opened Grammar
  import opened Printer
  import opened ParserRoundTrip
  import opened Lexers

  // ----- printing -----

  /** The values whose text this model gives; floats, binary and temporal values are left out. */
  predicate Showable(v: Value)
    decreases v
  {
    match v
    case Null => true
    case Bool(_) => true
    case Integer(_) => true
    case Str(_) => true
    case List(items) => forall i | 0 <= i < |items| :: Showable(items[i])
    case Map(m) => forall k | k in m :: Showable(m[k])
    case _ => false
  }

  /** A key that lexes as one word. */
  predicate WordKey(k: string) {
    k != [] && StartsWord(k[0]) && forall i | 0 <= i < |k| :: InWord(k[i])
  }

  /** A key that lexes as one identifier, as nested maps need. */
  predicate PlainKey(k: string) {
    WordKey(k) && KeywordOf(k).None?
  }

  /** What the property-map parser takes a word for, as a key. */
  function KeyName(k: string): Option<string> {
    NameOf(WordToken(k))
  }

  /** No quotes in strings, not the least integer, plain keys. */
  predicate Exportable(v: Value)
    decreases v
  {
    match v
    case Null => true
    case Bool(_) => true
    case Integer(i) => i != I64_MIN
    case Str(s) => '\'' !in s
    case List(items) => forall i | 0 <= i < |items| :: Exportable(items[i])
    case Map(m) => forall k | k in m :: PlainKey(k) && Exportable(m[k])
    case _ => false
  }

  /** A property map whose values are exportable and whose own keys are words, keywords or not. */
  predicate ExportableMap(m: Props) {
    forall k | k in m :: WordKey(k) && Exportable(m[k])
  }

  predicate EntriesExportable(v: Value, ks: seq<string>) {
    v.Map? && forall k :: k in ks ==> k in v.entries && WordKey(k) && Exportable(v.entries[k])
  }

  function Digit(d: nat): (c: char)
    requires d < 10
    ensures IsDigit(c) && DigitValue(c) == d
  {
    ('0' as int + d) as char
  }

  function Decimal(n: nat): (s: string)
    ensures s != [] && forall i :: 0 <= i < |s| ==> IsDigit(s[i])
  {
    if n < 10 then [Digit(n)] else Decimal(n / 10) + [Digit(n % 10)]
  }

  /** `Display`. */
  function Show(v: Value): string
    requires Showable(v)
    decreases v
  {
    match v
    case Null => "NULL"
    case Bool(b) => if b then "true" else "false"
    case Integer(i) =>
      var n: int := i;
      if n < 0 then "-" + Decimal(-n) else Decimal(n)
    case Str(s) => "'" + s + "'"
    case List(items) => "[" + ShowItems(items) + "]"
    case Map(m) => "{" + ShowEntries(v, SortedStrings(m.Keys)) + "}"
  }

  function ShowItems(items: seq<Value>): string
    requires forall i :: 0 <= i < |items| ==> Showable(items[i])
    decreases items
  {
    if items == [] then []
    else Show(items[0]) + (if |items| == 1 then [] else ", " + ShowItems(items[1..]))
  }

  function ShowEntries(v: Value, ks: seq<string>): string
    requires v.Map? && Showable(v) && forall k :: k in ks ==> k in v.entries
    decreases v, |ks|
  {
    if ks == [] then []
    else ks[0] + ": " + Show(v.entries[ks[0]]) + (if |ks| == 1 then [] else ", " + ShowEntries(v, ks[1..]))
  }

  /** `format_properties_for_export`: nothing at all for an empty map. */
  function FormatProperties(m: Props): string
    requires Showable(Map(m))
  {
    if m == map[] then [] else "{" + ShowEntries(Map(m), SortedStrings(m.Keys)) + "}"
  }

  // ----- the formatter's loops -----

  /** What the formatter still writes from the i-th of several comma-separated parts on. */
  function ItemsFrom(items: seq<Value>, i: nat): string
    requires i <= |items| && forall k :: 0 <= k < |items| ==> Showable(items[k])
  {
    if i == |items| then [] else (if i > 0 then ", " else []) + ShowItems(items[i..])
  }

  function EntriesFrom(v: Value, ks: seq<string>, i: nat): string
    requires v.Map? && Showable(v) && i <= |ks| && forall k :: k in ks ==> k in v.entries
  {
    if i == |ks| then [] else (if i > 0 then ", " else []) + ShowEntries(v, ks[i..])
  }

  lemma {:induction false} ItemsTurn(items: seq<Value>, i: nat)
    requires i < |items| && forall k :: 0 <= k < |items| ==> Showable(items[k])
    ensures ItemsFrom(items, i) == (if i > 0 then ", " else []) + Show(items[i]) + ItemsFrom(items, i + 1)
  {
    hide Show, Showable;
    assert items[i..][1..] == items[i + 1..];
  }

  lemma {:induction false} EntriesTurn(v: Value, ks: seq<string>, i: nat)
    requires v.Map? && Showable(v) && i < |ks| && forall k :: k in ks ==> k in v.entries
    requires Showable(v.entries[ks[i]])
    ensures EntriesFrom(v, ks, i) ==
              (if i > 0 then ", " else []) + (ks[i] + ": " + Show(v.entries[ks[i]])) + EntriesFrom(v, ks, i + 1)
  {
    hide Show, Showable;
    assert ks[i..][1..] == ks[i + 1..];
  }

  /** `Display`, writing to a formatter: the separator goes before every part but the first. */
  method Display(v: Value) returns (text: string)
    requires Showable(v)
    ensures text == Show(v)
    decreases v, 1
  {
    if v.List? {
      text := DisplayItems(v.items);
    } else if v.Map? {
      text := DisplayEntries(v);
    } else {
      text := Show(v);
    }
  }

  method DisplayItems(items: seq<Value>) returns (text: string)
    requires forall k :: 0 <= k < |items| ==> Showable(items[k])
    ensures text == "[" + ShowItems(items) + "]"
    decreases items
  {
    hide Show, Showable, ItemsFrom;
    text := "[";
    ItemsStart(items);
    var i := 0;
    while i < |items|
      invariant 0 <= i <= |items| && text + ItemsFrom(items, i) == "[" + ShowItems(items)
    {
      ItemsTurn(items, i);
      var item := Display(items[i]);
      Pushed(text, if i > 0 then ", " else [], item, ItemsFrom(items, i + 1));
      if i > 0 {
        text := text + ", ";
      }
      text := text + item;
      i := i + 1;
    }
    ItemsStart(items);
    text := text + "]";
  }

  lemma ItemsStart(items: seq<Value>)
    requires forall k :: 0 <= k < |items| ==> Showable(items[k])
    ensures ItemsFrom(items, 0) == ShowItems(items) && ItemsFrom(items, |items|) == []
  {
    hide Show, Showable;
    assert items[0..] == items;
  }

  method DisplayEntries(v: Value) returns (text: string)
    requires v.Map? && Showable(v)
    ensures text == "{" + ShowEntries(v, SortedStrings(v.entries.Keys)) + "}"
    decreases v, 0
  {
    hide Show, Showable, ShowEntries, EntriesFrom, SortedStrings;
    var ks := SortedStrings(v.entries.Keys);
    text := "{";
    EntriesStart(v, ks);
    var i := 0;
    while i < |ks|
      invariant 0 <= i <= |ks| && text + EntriesFrom(v, ks, i) == "{" + ShowEntries(v, ks)
    {
      EntryShowable(v, ks[i]);
      EntriesTurn(v, ks, i);
      var value := Display(v.entries[ks[i]]);
      Pushed(text, if i > 0 then ", " else [], ks[i] + ": " + value, EntriesFrom(v, ks, i + 1));
      if i > 0 {
        text := text + ", ";
      }
      text := text + (ks[i] + ": " + value);
      i := i + 1;
    }
    text := text + "}";
  }

  lemma EntryShowable(v: Value, k: string)
    requires v.Map? && Showable(v) && k in v.entries
    ensures Showable(v.entries[k])
  {
  }

  lemma Pushed(text: string, separator: string, part: string, later: string)
    ensures text + (separator + part + later) == text + separator + part + later
    ensures text + [] == text
  {
  }

  lemma EntriesStart(v: Value, ks: seq<string>)
    requires v.Map? && Showable(v) && forall k :: k in ks ==> k in v.entries
    ensures EntriesFrom(v, ks, 0) == ShowEntries(v, ks) && EntriesFrom(v, ks, |ks|) == []
  {
    hide Show, Showable;
    assert ks[0..] == ks;
  }

  // ----- what the text stands for -----

  function ExprOf(v: Value): Expression
    requires Exportable(v)
    decreases v
  {
    match v
    case Null => Lit(LitNull)
    case Bool(b) => Lit(LitBool(b))
    case Integer(i) => if i < 0 then Unary(Neg, Lit(LitInteger(-i))) else Lit(LitInteger(i))
    case Str(s) => Lit(LitString(s))
    case List(items) => ListExpr(ExprsOf(items))
    case Map(m) => MapExpr(EntriesOf(v, SortedStrings(m.Keys)))
  }

  lemma MapExportable(v: Value, ks: seq<string>)
    requires v.Map? && Exportable(v) && forall k :: k in ks ==> k in v.entries
    ensures EntriesExportable(v, ks) && forall k :: k in ks ==> KeywordOf(k).None?
  {
    hide KeywordOf;
  }

  lemma EntryParts(v: Value, ks: seq<string>)
    requires EntriesExportable(v, ks) && ks != []
    ensures WordKey(ks[0]) && Exportable(v.entries[ks[0]]) && EntriesExportable(v, ks[1..])
    ensures var n := |ks| - 1; Exportable(v.entries[ks[n]]) && EntriesExportable(v, ks[..n])
  {
    hide Exportable, WordKey;
  }

  function ExprsOf(items: seq<Value>): (r: seq<Expression>)
    requires forall i :: 0 <= i < |items| ==> Exportable(items[i])
    ensures |r| == |items|
    decreases items
  {
    if items == [] then [] else [ExprOf(items[0])] + ExprsOf(items[1..])
  }

  function EntriesOf(v: Value, ks: seq<string>): (r: seq<Entry>)
    requires EntriesExportable(v, ks)
    ensures |r| == |ks|
    decreases v, |ks|
  {
    if ks == [] then [] else [Entry(ks[0], ExprOf(v.entries[ks[0]]))] + EntriesOf(v, ks[1..])
  }

  lemma {:induction false} ExportableShowable(v: Value)
    requires Exportable(v)
    ensures Showable(v)
    decreases v
  {
    match v
    case List(items) =>
      forall i | 0 <= i < |items| ensures Showable(items[i]) {
        ExportableShowable(items[i]);
      }
    case Map(m) =>
      forall k | k in m ensures Showable(m[k]) {
        ExportableShowable(m[k]);
      }
    case _ =>
  }

  // ----- lexing the text -----

  /** What can follow a value: nothing, or a comma or a closing bracket. */
  predicate Delimited(s: string) {
    s == [] || s[0] == ',' || s[0] == ']' || s[0] == '}'
  }

  lemma {:induction false} DecimalValue(n: nat)
    ensures DigitsValue(Decimal(n)) == n
  {
    if n >= 10 {
      DecimalValue(n / 10);
      assert Decimal(n)[..|Decimal(n)| - 1] == Decimal(n / 10);
    } else {
      assert Decimal(n)[..0] == [];
    }
  }

  /** One token, where no whitespace precedes it. */
  lemma LexOne(s: string, t: Token, rest: string, floats: FloatParser)
    requires s != [] && !IsWhitespace(s[0]) && LexToken(s, floats) == Some(Lexed(t, rest))
    ensures Tokenize(s, floats) == Prepend([t], Tokenize(rest, floats))
  {
    hide LexToken;
    RunStep(s, IsWhitespace, 0);
    assert s[0..] == s;
    TokenShrinks(s, floats);
    TokenizeStep(s, floats);
  }

  lemma {:induction false} SpaceRun(s: string)
    ensures Run(" " + s, IsWhitespace) == 1 + Run(s, IsWhitespace)
  {
    assert (" " + s)[1..] == s;
  }

  lemma LexSpace(s: string, floats: FloatParser)
    ensures Tokenize(" " + s, floats) == Tokenize(s, floats)
  {
    hide LexToken;
    SpaceRun(s);
    var n := Run(s, IsWhitespace);
    assert (" " + s)[1 + n..] == s[n..];
    assert NextToken(" " + s, floats) == NextToken(s, floats);
    TokenizeStep(s, floats);
    TokenizeStep(" " + s, floats);
  }

  /** A single-character symbol. */
  lemma LexSymbolChar(c: char, t: Symbol, rest: string, floats: FloatParser)
    requires (c, t) in {('[', LBracket), (']', RBracket), ('{', LBrace), ('}', RBrace), (',', Comma), (':', Colon)}
    ensures Tokenize([c] + rest, floats) == Prepend([Sym(t)], Tokenize(rest, floats))
  {
    var s := [c] + rest;
    assert s[0] == c && s[1..] == rest;
    assert LexToken(s, floats) == Some(Lexed(Sym(t), rest));
    LexOne(s, Sym(t), rest, floats);
  }

  lemma LexWordChars(word: string, rest: string, floats: FloatParser)
    requires word != [] && StartsWord(word[0]) && forall i :: 0 <= i < |word| ==> InWord(word[i])
    requires rest == [] || !InWord(rest[0])
    ensures Tokenize(word + rest, floats) == Prepend([WordToken(word)], Tokenize(rest, floats))
  {
    hide KeywordOf;
    var s := word + rest;
    RunStep(s, InWord, |word|);
    assert s[..|word|] == word && s[|word|..] == rest;
    assert LexToken(s, floats) == Some(Lexed(WordToken(word), rest));
    LexOne(s, WordToken(word), rest, floats);
  }

  lemma NumberPlain(s: string, n: nat)
    requires 0 < n <= |s| && Run(s, IsDigit) == n && IsDigit(s[0])
    requires n == |s| || s[n] == ',' || s[n] == ']' || s[n] == '}'
    ensures NumberExtent(s) == Some((n, false))
  {
    assert MantissaExtent(s) == (n, false);
    assert s[n..] == [] || s[n..][0] == s[n];
  }

  lemma LexDecimal(n: nat, rest: string, floats: FloatParser)
    requires n <= I64_MAX && Delimited(rest)
    ensures Tokenize(Decimal(n) + rest, floats) == Prepend([IntegerLit(n)], Tokenize(rest, floats))
  {
    hide NumberExtent, Decimal, DigitsValue;
    var d := Decimal(n);
    var s := d + rest;
    RunStep(s, IsDigit, |d|);
    NumberPlain(s, |d|);
    assert s[..|d|] == d && s[|d|..] == rest;
    DecimalValue(n);
    assert LexToken(s, floats) == Some(Lexed(IntegerLit(n), rest));
    LexOne(s, IntegerLit(n), rest, floats);
  }

  lemma LexMinus(rest: string, floats: FloatParser)
    requires rest != [] && IsDigit(rest[0])
    ensures Tokenize("-" + rest, floats) == Prepend([Sym(Minus)], Tokenize(rest, floats))
  {
    var s := "-" + rest;
    assert s[0] == '-' && s[1..] == rest;
    assert LexToken(s, floats) == Some(Lexed(Sym(Minus), rest));
    LexOne(s, Sym(Minus), rest, floats);
  }

  lemma {:induction false} LexQuoted(text: string, s: string, rest: string)
    requires '\'' !in s && !Begins(rest, '\'')
    ensures LexString(text, s + "'" + rest) == Some(Lexed(StringLit(text + s), rest))
    decreases |s|
  {
    var t := s + "'" + rest;
    if s == [] {
      assert t == "'" + rest && t[1..] == rest && text + s == text;
    } else {
      assert t[0] == s[0] && t[1..] == s[1..] + "'" + rest;
      LexQuoted(text + [s[0]], s[1..], rest);
      assert text + [s[0]] + s[1..] == text + s;
    }
  }

  lemma LexStringText(s: string, rest: string, floats: FloatParser)
    requires '\'' !in s && Delimited(rest)
    ensures Tokenize("'" + s + "'" + rest, floats) == Prepend([StringLit(s)], Tokenize(rest, floats))
  {
    hide LexString;
    var t := "'" + s + "'" + rest;
    assert t[0] == '\'' && t[1..] == s + "'" + rest;
    LexQuoted([], s, rest);
    assert [] + s == s;
    LexOne(t, StringLit(s), rest, floats);
  }

  lemma Words()
    ensures WordToken("NULL") == Kw(KwNull) && WordToken("true") == Kw(KwTrue) && WordToken("false") == Kw(KwFalse)
  {
    assert Upper("NULL") == "NULL";
    assert Upper("true") == "TRUE";
    assert Upper("false") == "FALSE";
  }

  // ----- values -----

  /** The text of a value lexes to the tokens the printer gives its expression. */
  lemma {:induction false} LexShown(v: Value, rest: string, floats: FloatParser)
    requires Exportable(v) && Showable(v) && Delimited(rest)
    ensures Tokenize(Show(v) + rest, floats) == Prepend(Bare(ExprOf(v)), Tokenize(rest, floats))
    decreases v
  {
    hide Tokenize, KeywordOf, Prepend;
    match v
    case Null =>
      Words();
      LexWordChars("NULL", rest, floats);
    case Bool(b) =>
      Words();
      LexWordChars(Show(v), rest, floats);
    case Integer(i) => LexInteger(i, rest, floats);
    case Str(s) => LexStringText(s, rest, floats);
    case List(items) => LexList(v, rest, floats);
    case Map(m) => LexMap(v, rest, floats);
  }

  lemma LexInteger(i: i64, rest: string, floats: FloatParser)
    requires i != I64_MIN && Delimited(rest)
    ensures Tokenize(Show(Integer(i)) + rest, floats) == Prepend(Bare(ExprOf(Integer(i))), Tokenize(rest, floats))
  {
    hide Tokenize, Decimal, Prepend;
    if i >= 0 {
      LexDecimal(i, rest, floats);
    } else {
      var n: int := -(i as int);
      var d := Decimal(n);
      assert Show(Integer(i)) + rest == "-" + (d + rest);
      LexMinus(d + rest, floats);
      LexDecimal(n, rest, floats);
      PrependTwice([Sym(Minus)], [IntegerLit(n)], Tokenize(rest, floats));
      var magnitude := Lit(LitInteger(n));
      assert Bare(magnitude) == [IntegerLit(n)] && Print(magnitude, UNARY) == [IntegerLit(n)];
    }
  }

  lemma {:induction false} JoinText(first: string, later: string, rest: string)
    ensures first + (", " + later) + rest == first + ("," + (" " + (later + rest)))
  {
    var comma := ", ";
    assert comma == "," + " ";
    assert comma + later + rest == "," + (" " + (later + rest));
    assert first + (comma + later) + rest == first + (comma + later + rest);
  }

  lemma {:induction false} ShowItemsStep(items: seq<Value>)
    requires items != [] && forall i :: 0 <= i < |items| ==> Showable(items[i])
    ensures ShowItems(items) == (if |items| == 1 then Show(items[0]) else Show(items[0]) + (", " + ShowItems(items[1..])))
  {
    hide Show, Showable;
    assert Show(items[0]) + [] == Show(items[0]);
  }

  lemma {:induction false} ItemsText(items: seq<Value>, rest: string)
    requires items != [] && forall i :: 0 <= i < |items| ==> Showable(items[i])
    ensures ShowItems(items) + rest ==
              Show(items[0]) + (if |items| == 1 then rest else "," + (" " + (ShowItems(items[1..]) + rest)))
  {
    hide *;
    ShowItemsStep(items);
    if |items| > 1 {
      JoinText(Show(items[0]), ShowItems(items[1..]), rest);
    }
  }

  lemma {:induction false} ItemsTokens(items: seq<Value>)
    requires items != [] && forall i :: 0 <= i < |items| ==> Exportable(items[i])
    ensures |items| == 1 ==> PrintItems(ExprsOf(items)) == Print(ExprOf(items[0]), OR)
    ensures |items| > 1 ==>
              (PrintItems(ExprsOf(items)) == Print(ExprOf(items[0]), OR) + ([Sym(Comma)] + PrintItems(ExprsOf(items[1..]))))
  {
    hide Print, ExprOf, Exportable;
    assert ExprsOf(items)[1..] == ExprsOf(items[1..]);
    assert Print(ExprOf(items[0]), OR) + [] == Print(ExprOf(items[0]), OR);
  }

  lemma {:induction false} LexItems(items: seq<Value>, rest: string, floats: FloatParser)
    requires forall i :: 0 <= i < |items| ==> Exportable(items[i]) && Showable(items[i])
    requires Delimited(rest)
    ensures Tokenize(ShowItems(items) + rest, floats) == Prepend(PrintItems(ExprsOf(items)), Tokenize(rest, floats))
    decreases items
  {
    hide Tokenize, Show, Bare, ExprOf, Exportable, Showable, Prepend, ShowItems, PrintItems, ExprsOf;
    if items == [] {
      NoItems(rest);
      PrependTwice([], [], Tokenize(rest, floats));
    } else {
      ItemsText(items, rest);
      ItemsTokens(items);
      if |items| == 1 {
        LexShown(items[0], rest, floats);
        PrintWhole(items[0]);
      } else {
        var later := ShowItems(items[1..]) + rest;
        LexShown(items[0], "," + (" " + later), floats);
        LexSymbolChar(',', Comma, " " + later, floats);
        LexSpace(later, floats);
        LexItems(items[1..], rest, floats);
        PrintWhole(items[0]);
        PrependThrice(Print(ExprOf(items[0]), OR), Sym(Comma), PrintItems(ExprsOf(items[1..])), Tokenize(rest, floats));
      }
    }
  }

  lemma NoItems(rest: string)
    ensures ShowItems([]) + rest == rest && PrintItems(ExprsOf([])) == []
  {
  }

  lemma PrintWhole(v: Value)
    requires Exportable(v)
    ensures Print(ExprOf(v), OR) == Bare(ExprOf(v))
  {
    hide Bare, ExprOf;
  }

  lemma PrependThrice(a: seq<Token>, t: Token, b: seq<Token>, more: Option<seq<Token>>)
    ensures Prepend(a, Prepend([t], Prepend(b, more))) == Prepend(a + ([t] + b), more)
    ensures Prepend(a, Prepend(b, more)) == Prepend(a + b, more)
  {
    if more.Some? {
      assert a + ([t] + (b + more.value)) == (a + ([t] + b)) + more.value;
      assert a + (b + more.value) == (a + b) + more.value;
    }
  }

  lemma {:induction false} LexList(v: Value, rest: string, floats: FloatParser)
    requires v.List? && Exportable(v) && Showable(v) && Delimited(rest)
    ensures Tokenize(Show(v) + rest, floats) == Prepend(Bare(ExprOf(v)), Tokenize(rest, floats))
    decreases v, 0
  {
    hide Tokenize, ShowItems, PrintItems, ExprsOf, Prepend;
    var inner := ShowItems(v.items) + ("]" + rest);
    Wrapped("[", ShowItems(v.items), "]", rest);
    LexSymbolChar('[', LBracket, inner, floats);
    LexItems(v.items, "]" + rest, floats);
    LexSymbolChar(']', RBracket, rest, floats);
    var items := PrintItems(ExprsOf(v.items));
    assert Bare(ExprOf(v)) == [Sym(LBracket)] + items + [Sym(RBracket)];
    Bracketed(Sym(LBracket), items, Sym(RBracket), Tokenize(rest, floats));
  }

  lemma Bracketed(open: Token, inner: seq<Token>, close: Token, more: Option<seq<Token>>)
    ensures Prepend([open], Prepend(inner, Prepend([close], more))) == Prepend([open] + inner + [close], more)
  {
    if more.Some? {
      assert [open] + (inner + ([close] + more.value)) == ([open] + inner + [close]) + more.value;
    }
  }

  lemma {:induction false} KeyText(k: string, value: string, more: string)
    ensures k + ": " + value + more == k + (":" + (" " + (value + more)))
  {
    var colon := ": ";
    assert colon == ":" + " ";
    assert colon + value + more == ":" + (" " + (value + more));
    assert k + colon + value + more == k + (colon + value + more);
  }

  lemma {:induction false} ShowEntriesStep(v: Value, ks: seq<string>)
    requires v.Map? && Showable(v) && ks != [] && forall k :: k in ks ==> k in v.entries
    ensures ShowEntries(v, ks) ==
              ks[0] + ": " + Show(v.entries[ks[0]]) + (if |ks| == 1 then [] else ", " + ShowEntries(v, ks[1..]))
  {
    hide Show;
  }

  lemma {:induction false} EntriesText(v: Value, ks: seq<string>, rest: string)
    requires v.Map? && Showable(v) && ks != [] && forall k :: k in ks ==> k in v.entries
    requires Showable(v.entries[ks[0]])
    ensures ShowEntries(v, ks) + rest ==
              ks[0] + (":" + (" " + (Show(v.entries[ks[0]])
                + (if |ks| == 1 then rest else "," + (" " + (ShowEntries(v, ks[1..]) + rest))))))
  {
    hide *;
    ShowEntriesStep(v, ks);
    var key, value := ks[0], Show(v.entries[ks[0]]);
    if |ks| > 1 {
      var later := ShowEntries(v, ks[1..]);
      JoinText(key + ": " + value, later, rest);
      KeyText(key, value, "," + (" " + (later + rest)));
    } else {
      assert key + ": " + value + [] == key + ": " + value;
      KeyText(key, value, rest);
    }
  }

  lemma Regroup(a: seq<Token>, b: seq<Token>, c: seq<Token>)
    ensures a + b + c == a + (b + c)
  {
  }

  /** The tokens of written entries: as the printer's, but a key may be a keyword. */
  function EntryTokens(es: seq<Entry>): seq<Token> {
    if es == [] then []
    else
      [WordToken(es[0].key), Sym(Colon)]
      + (Print(es[0].value, OR) + (if |es| == 1 then [] else [Sym(Comma)] + EntryTokens(es[1..])))
  }

  lemma {:induction false} PlainTokens(es: seq<Entry>)
    requires forall i :: 0 <= i < |es| ==> KeywordOf(es[i].key).None?
    ensures EntryTokens(es) == PrintEntries(es)
  {
    hide Print, KeywordOf;
    if es != [] {
      PlainTokens(es[1..]);
      Regroup([Ident(es[0].key), Sym(Colon)], Print(es[0].value, OR),
              if |es| == 1 then [] else [Sym(Comma)] + PrintEntries(es[1..]));
    }
  }

  lemma {:induction false} EntriesOfStep(v: Value, ks: seq<string>)
    requires EntriesExportable(v, ks) && ks != [] && Exportable(v.entries[ks[0]]) && EntriesExportable(v, ks[1..])
    ensures EntriesOf(v, ks)[0] == Entry(ks[0], ExprOf(v.entries[ks[0]])) && EntriesOf(v, ks)[1..] == EntriesOf(v, ks[1..])
  {
    hide ExprOf, Exportable, EntriesExportable;
  }

  lemma {:induction false} EntriesTokens(v: Value, ks: seq<string>)
    requires EntriesExportable(v, ks) && ks != [] && Exportable(v.entries[ks[0]]) && EntriesExportable(v, ks[1..])
    ensures EntryTokens(EntriesOf(v, ks)) ==
              [WordToken(ks[0]), Sym(Colon)] + (Print(ExprOf(v.entries[ks[0]]), OR)
                + (if |ks| == 1 then [] else [Sym(Comma)] + EntryTokens(EntriesOf(v, ks[1..]))))
  {
    hide Print, ExprOf, EntriesOf, Exportable, EntriesExportable, KeywordOf;
    EntriesOfStep(v, ks);
  }

  lemma LexKey(k: string, later: string, floats: FloatParser)
    requires WordKey(k)
    ensures Tokenize(k + (":" + (" " + later)), floats) == Prepend([WordToken(k), Sym(Colon)], Tokenize(later, floats))
  {
    hide Tokenize, KeywordOf, Prepend;
    LexWordChars(k, ":" + (" " + later), floats);
    LexSymbolChar(':', Colon, " " + later, floats);
    LexSpace(later, floats);
    PrependTwice([WordToken(k)], [Sym(Colon)], Tokenize(later, floats));
    assert [WordToken(k)] + [Sym(Colon)] == [WordToken(k), Sym(Colon)];
  }

  /** The text of entries lexes to their tokens. */
  lemma {:induction false} LexEntries(v: Value, ks: seq<string>, rest: string, floats: FloatParser)
    requires EntriesExportable(v, ks) && Showable(v) && Delimited(rest)
    ensures Tokenize(ShowEntries(v, ks) + rest, floats) == Prepend(EntryTokens(EntriesOf(v, ks)), Tokenize(rest, floats))
    decreases v, |ks|
  {
    hide Tokenize, Show, Bare, ExprOf, Exportable, Showable, Prepend, ShowEntries, EntryTokens, EntriesOf, WordKey, Print,
      WordToken;
    if ks == [] {
      NoEntriesText(v, rest);
      PrependTwice([], [], Tokenize(rest, floats));
    } else {
      var value := v.entries[ks[0]];
      var more := if |ks| == 1 then rest else "," + (" " + (ShowEntries(v, ks[1..]) + rest));
      EntryParts(v, ks);
      EntryShowable(v, ks[0]);
      EntriesText(v, ks, rest);
      EntriesTokens(v, ks);
      LexKey(ks[0], Show(value) + more, floats);
      LexShown(value, more, floats);
      PrintWhole(value);
      var head, first := [WordToken(ks[0]), Sym(Colon)], Print(ExprOf(value), OR);
      if |ks| == 1 {
        PrependThrice(head, Sym(Comma), first, Tokenize(rest, floats));
        assert first + [] == first;
      } else {
        var later := ShowEntries(v, ks[1..]) + rest;
        LexSymbolChar(',', Comma, " " + later, floats);
        LexSpace(later, floats);
        LexEntries(v, ks[1..], rest, floats);
        var tail := EntryTokens(EntriesOf(v, ks[1..]));
        PrependThrice(first, Sym(Comma), tail, Tokenize(rest, floats));
        PrependThrice(head, Sym(Comma), first + ([Sym(Comma)] + tail), Tokenize(rest, floats));
      }
    }
  }

  lemma NoEntriesText(v: Value, rest: string)
    requires v.Map? && Showable(v)
    ensures ShowEntries(v, []) + rest == rest && EntryTokens(EntriesOf(v, [])) == []
  {
  }

  lemma Wrapped(open: string, inner: string, close: string, rest: string)
    ensures open + inner + close + rest == open + (inner + (close + rest))
  {
    assert inner + close + rest == inner + (close + rest);
    assert open + inner + close + rest == open + (inner + close + rest);
  }

  lemma {:induction false} EntryKeys(v: Value, ks: seq<string>)
    requires EntriesExportable(v, ks)
    ensures forall i :: 0 <= i < |ks| ==> EntriesOf(v, ks)[i].key == ks[i]
    decreases |ks|
  {
    hide ExprOf, Exportable, WordKey;
    if ks != [] {
      EntryKeys(v, ks[1..]);
    }
  }

  lemma MapPrinted(v: Value, ks: seq<string>)
    requires v.Map? && Exportable(v) && ks == SortedStrings(v.entries.Keys) && EntriesExportable(v, ks)
    requires forall k :: k in ks ==> KeywordOf(k).None?
    ensures Bare(ExprOf(v)) == [Sym(LBrace)] + EntryTokens(EntriesOf(v, ks)) + [Sym(RBrace)]
  {
    hide PrintEntries, EntryTokens, EntriesOf, SortedStrings, EntriesExportable, KeywordOf;
    EntryKeys(v, ks);
    PlainTokens(EntriesOf(v, ks));
    assert ExprOf(v) == MapExpr(EntriesOf(v, ks));
  }

  /** A braced map of word keys lexes to its entries' tokens in braces. */
  lemma {:induction false} LexBraced(v: Value, ks: seq<string>, rest: string, floats: FloatParser)
    requires EntriesExportable(v, ks) && Showable(v) && Delimited(rest)
    ensures Tokenize("{" + ShowEntries(v, ks) + "}" + rest, floats) ==
              Prepend([Sym(LBrace)] + EntryTokens(EntriesOf(v, ks)) + [Sym(RBrace)], Tokenize(rest, floats))
    decreases v, |ks| + 1
  {
    hide Tokenize, ShowEntries, EntryTokens, EntriesOf, Prepend, WordKey, Exportable, Showable;
    Wrapped("{", ShowEntries(v, ks), "}", rest);
    LexSymbolChar('{', LBrace, ShowEntries(v, ks) + ("}" + rest), floats);
    LexEntries(v, ks, "}" + rest, floats);
    LexSymbolChar('}', RBrace, rest, floats);
    Bracketed(Sym(LBrace), EntryTokens(EntriesOf(v, ks)), Sym(RBrace), Tokenize(rest, floats));
  }

  lemma {:induction false} LexMap(v: Value, rest: string, floats: FloatParser)
    requires v.Map? && Exportable(v) && Showable(v) && Delimited(rest)
    ensures Tokenize(Show(v) + rest, floats) == Prepend(Bare(ExprOf(v)), Tokenize(rest, floats))
    decreases v, |SortedStrings(v.entries.Keys)| + 2
  {
    hide Tokenize, Bare, ShowEntries, EntryTokens, EntriesOf, ExprOf, Prepend, Exportable, EntriesExportable, Showable,
      SortedStrings, KeywordOf;
    var ks := SortedStrings(v.entries.Keys);
    MapExportable(v, ks);
    MapPrinted(v, ks);
    LexBraced(v, ks, rest, floats);
  }

  // ----- parsing and evaluating the tokens -----

  lemma {:induction false} ExprWithin(v: Value, depth: nat)
    requires Exportable(v) && depth + 1 <= MAX_DEPTH
    ensures Producible(ExprOf(v)) && Within(ExprOf(v), OR, depth)
    decreases v
  {
    match v
    case List(items) => ItemsWithin(items, depth);
    case Map(m) =>
      MapExportable(v, SortedStrings(m.Keys));
      EntriesWithin(v, SortedStrings(m.Keys), depth);
    case Integer(i) =>
      if i < 0 {
        var magnitude := Lit(LitInteger(-i));
        assert Within(magnitude, UNARY, depth + 1);
        assert WithinBare(Unary(Neg, magnitude), depth);
      }
    case _ =>
  }

  lemma {:induction false} ItemsWithin(items: seq<Value>, depth: nat)
    requires depth + 1 <= MAX_DEPTH && forall i :: 0 <= i < |items| ==> Exportable(items[i])
    ensures forall i :: 0 <= i < |items| ==> Producible(ExprsOf(items)[i]) && Within(ExprsOf(items)[i], OR, depth)
    decreases items
  {
    hide Producible, Within, Exportable, ExprOf;
    if items != [] {
      ExprWithin(items[0], depth);
      ItemsWithin(items[1..], depth);
    }
  }

  lemma {:induction false} EntriesWithin(v: Value, ks: seq<string>, depth: nat)
    requires EntriesExportable(v, ks) && depth + 1 <= MAX_DEPTH
    ensures forall i :: 0 <= i < |ks| ==>
              Producible(EntriesOf(v, ks)[i].value) && Within(EntriesOf(v, ks)[i].value, OR, depth)
    decreases v, |ks|
  {
    hide Producible, Within, ExprOf;
    if ks != [] {
      ExprWithin(v.entries[ks[0]], depth);
      EntriesWithin(v, ks[1..], depth);
    }
  }

  const NO_ROW: Record := Record([], [])

  lemma {:induction false} EvaluatesBack(v: Value, rt: Runtime)
    requires Exportable(v)
    ensures Evaluate(ExprOf(v), NO_ROW, rt) == Success(v)
    decreases v
  {
    hide *;
    if v.List? {
      ListParts(v);
      ItemsEvaluateBack(v.items, rt);
      ListEvaluates(v, rt);
    } else if v.Map? {
      MapExportable(v, SortedStrings(v.entries.Keys));
      EntriesEvaluateBack(v, SortedStrings(v.entries.Keys), rt);
      MapEvaluates(v, rt);
    } else {
      ScalarEvaluates(v, rt);
    }
  }

  lemma ListParts(v: Value)
    requires v.List? && Exportable(v)
    ensures forall i :: 0 <= i < |v.items| ==> Exportable(v.items[i])
  {
  }

  lemma {:induction false} ListEvaluates(v: Value, rt: Runtime)
    requires v.List? && Exportable(v) && (forall i :: 0 <= i < |v.items| ==> Exportable(v.items[i]))
    requires EvaluateAll(ExprsOf(v.items), NO_ROW, rt) == Success(v.items)
    ensures Evaluate(ExprOf(v), NO_ROW, rt) == Success(v)
  {
    hide Exportable, ExprsOf, EvaluateAll;
    assert ExprOf(v) == ListExpr(ExprsOf(v.items));
  }

  lemma {:induction false} MapEvaluates(v: Value, rt: Runtime)
    requires v.Map? && Exportable(v) && EntriesExportable(v, SortedStrings(v.entries.Keys))
    requires var ks := SortedStrings(v.entries.Keys);
             EvaluateEntries(EntriesOf(v, ks), NO_ROW, rt) == Success(Restricted(v.entries, ks))
    ensures Evaluate(ExprOf(v), NO_ROW, rt) == Success(v)
  {
    hide Exportable, EntriesExportable, EntriesOf, EvaluateEntries, SortedStrings;
    var ks := SortedStrings(v.entries.Keys);
    assert ExprOf(v) == MapExpr(EntriesOf(v, ks));
    assert Restricted(v.entries, ks) == v.entries;
  }

  lemma {:induction false} ScalarEvaluates(v: Value, rt: Runtime)
    requires Exportable(v) && !v.List? && !v.Map?
    ensures Evaluate(ExprOf(v), NO_ROW, rt) == Success(v)
  {
    hide ExprsOf, EntriesOf, SortedStrings, EvaluateAll, EvaluateEntries, EvaluateArms, EvalBinary;
    if v.Integer? && v.i < 0 {
      var magnitude := Lit(LitInteger(-v.i));
      assert ExprOf(v) == Unary(Neg, magnitude);
      assert Evaluate(magnitude, NO_ROW, rt) == Success(Integer(-v.i));
    }
  }

  lemma {:induction false} ItemsEvaluateBack(items: seq<Value>, rt: Runtime)
    requires forall i :: 0 <= i < |items| ==> Exportable(items[i])
    ensures EvaluateAll(ExprsOf(items), NO_ROW, rt) == Success(items)
    decreases items
  {
    hide Evaluate, Exportable, ExprOf;
    if items != [] {
      EvaluatesBack(items[0], rt);
      ItemsEvaluateBack(items[1..], rt);
      assert ExprsOf(items)[1..] == ExprsOf(items[1..]);
      assert items == [items[0]] + items[1..];
    }
  }

  ghost function Restricted(m: Props, ks: seq<string>): Props {
    map k | k in m && k in ks :: m[k]
  }

  lemma {:induction false} EntriesOfLast(v: Value, ks: seq<string>)
    requires EntriesExportable(v, ks) && ks != []
    requires var n := |ks| - 1; EntriesExportable(v, ks[..n]) && Exportable(v.entries[ks[n]])
    ensures var n := |ks| - 1;
            && EntriesOf(v, ks)[..n] == EntriesOf(v, ks[..n])
            && EntriesOf(v, ks)[n] == Entry(ks[n], ExprOf(v.entries[ks[n]]))
    decreases |ks|
  {
    hide ExprOf, Exportable, WordKey;
    var n := |ks| - 1;
    if n > 0 {
      EntriesOfLast(v, ks[1..]);
      assert ks[1..][..n - 1] == ks[..n][1..];
    }
  }

  /** Entries for distinct keys evaluate to the map restricted to them. */
  lemma {:induction false} EntriesEvaluateBack(v: Value, ks: seq<string>, rt: Runtime)
    requires EntriesExportable(v, ks)
    ensures EvaluateEntries(EntriesOf(v, ks), NO_ROW, rt) == Success(Restricted(v.entries, ks))
    decreases v, |ks|
  {
    if ks == [] {
      NoEntriesEvaluate(v, rt);
    } else {
      hide *;
      var n := |ks| - 1;
      EntryParts(v, ks);
      EntriesOfLast(v, ks);
      EntriesEvaluateBack(v, ks[..n], rt);
      MapEntry(v, ks);
      EvaluatesBack(v.entries[ks[n]], rt);
      EntryEvaluates(v, ks, rt);
    }
  }

  lemma MapEntry(v: Value, ks: seq<string>)
    requires EntriesExportable(v, ks) && ks != []
    ensures v.Map? && ks[|ks| - 1] in v.entries
  {
  }

  lemma NoEntriesEvaluate(v: Value, rt: Runtime)
    requires v.Map?
    ensures EvaluateEntries(EntriesOf(v, []), NO_ROW, rt) == Success(Restricted(v.entries, []))
  {
    assert Restricted(v.entries, []) == map[];
  }

  lemma {:induction false} EntryEvaluates(v: Value, ks: seq<string>, rt: Runtime)
    requires EntriesExportable(v, ks) && ks != []
    requires var n := |ks| - 1;
             && EntriesExportable(v, ks[..n])
             && Exportable(v.entries[ks[n]])
             && EntriesOf(v, ks)[..n] == EntriesOf(v, ks[..n])
             && EntriesOf(v, ks)[n] == Entry(ks[n], ExprOf(v.entries[ks[n]]))
             && EvaluateEntries(EntriesOf(v, ks[..n]), NO_ROW, rt) == Success(Restricted(v.entries, ks[..n]))
             && Evaluate(ExprOf(v.entries[ks[n]]), NO_ROW, rt) == Success(v.entries[ks[n]])
    ensures EvaluateEntries(EntriesOf(v, ks), NO_ROW, rt) == Success(Restricted(v.entries, ks))
  {
    hide Evaluate, ExprOf, EntriesOf, Exportable, WordKey;
    var n := |ks| - 1;
    assert Restricted(v.entries, ks) == Restricted(v.entries, ks[..n])[ks[n] := v.entries[ks[n]]];
  }

  // ----- keys -----

  /** Entries as the property-map parser reads them: each key by its name, None where one has none. */
  function ReadKeys(es: seq<Entry>): Option<seq<Entry>> {
    if es == [] then Some([])
    else
      match KeyName(es[0].key)
      case None => None
      case Some(name) =>
        match ReadKeys(es[1..]) case None => None case Some(later) => Some([Entry(name, es[0].value)] + later)
  }

  /** The entries come back if and only if each key is its own name; they are read at all if and only if each has one. */
  lemma {:induction false} ReadKeysExact(es: seq<Entry>)
    ensures ReadKeys(es).Some? <==> forall i :: 0 <= i < |es| ==> KeyName(es[i].key).Some?
    ensures ReadKeys(es) == Some(es) <==> forall i :: 0 <= i < |es| ==> KeyName(es[i].key) == Some(es[i].key)
    ensures ReadKeys(es).Some? ==> |ReadKeys(es).value| == |es|
  {
    hide KeyName;
    if es != [] {
      var later := es[1..];
      ReadKeysExact(later);
      assert es == [es[0]] + later;
      assert forall i :: 0 <= i < |later| ==> later[i] == es[i + 1];
      assert forall i :: 0 < i < |es| ==> es[i] == later[i - 1];
      if ReadKeys(es).Some? {
        assert ReadKeys(es).value[1..] == ReadKeys(later).value;
      }
    }
  }

  lemma KeyedStep(before: seq<Entry>, entry: Entry, ts: seq<Token>, more: seq<Token>)
    requires ParseExpression(ts, 0) == Some(Parsed(entry.value, more))
    ensures ParseEntries(before, [WordToken(entry.key), Sym(Colon)] + ts, true, 0) ==
              match KeyName(entry.key)
              case None => None
              case Some(name) =>
                if Peek(more) == Sym(Comma) then ParseEntries(before + [Entry(name, entry.value)], more[1..], true, 0)
                else Some(Parsed(before + [Entry(name, entry.value)], more))
  {
    hide ParseExpression, WordToken, NameOf;
    var all := [WordToken(entry.key), Sym(Colon)] + ts;
    assert Peek(all) == WordToken(entry.key) && Peek(all[1..]) == Sym(Colon) && all[2..] == ts;
  }

  lemma {:induction false} EntryTokensShape(es: seq<Entry>, rest: seq<Token>)
    requires es != []
    ensures EntryTokens(es) + rest ==
              [WordToken(es[0].key), Sym(Colon)] + (Print(es[0].value, OR) + AfterFirst(es, EntryTokens(es[1..]), rest))
  {
    hide Print, WordToken;
  }

  /** The property-map parser on written entries. */
  lemma {:induction false} ParseKeyed(before: seq<Entry>, es: seq<Entry>, rest: seq<Token>)
    requires es != [] && forall i :: 0 <= i < |es| ==> Producible(es[i].value) && Within(es[i].value, OR, 0)
    requires !Continues(OR, Peek(rest)) && Peek(rest) != Sym(Comma)
    ensures ParseEntries(before, EntryTokens(es) + rest, true, 0) ==
              match ReadKeys(es) case None => None case Some(read) => Some(Parsed(before + read, rest))
    decreases |es|
  {
    hide ParseExpression, Print, Within, Producible, EntryTokens, ParseEntries, Opens, KeyName, WordToken;
    var later := EntryTokens(es[1..]);
    var more := AfterFirst(es, later, rest);
    EntryTokensShape(es, rest);
    Front(Sym(Comma), later + rest);
    ParseWhole(es[0].value, 0, more);
    KeyedStep(before, es[0], Print(es[0].value, OR) + more, more);
    if KeyName(es[0].key).Some? {
      var first := Entry(KeyName(es[0].key).value, es[0].value);
      if |es| > 1 {
        ParseKeyed(before + [first], es[1..], rest);
        if ReadKeys(es[1..]).Some? {
          assert before + [first] + ReadKeys(es[1..]).value == before + ([first] + ReadKeys(es[1..]).value);
        }
      } else {
        assert [first] + [] == [first];
      }
    }
  }

  predicate AllNamed(m: Props) {
    forall k | k in m :: KeyName(k).Some?
  }

  /** Each key is read as itself: it is no keyword, or one whose lower-case name it is. */
  predicate KeysReadBack(m: Props) {
    forall k | k in m :: KeyName(k) == Some(k)
  }

  /**
   The round trip of a property map: its exported text lexes, the property-map
   parser reads the tokens to the end if and only if every key has a name, gives
   the written entries if and only if every key is its own name, and evaluating
   these gives the map.
   */
  lemma {:induction false} ExportRoundTrip(m: Props, floats: FloatParser, rt: Runtime)
    requires ExportableMap(m) && Showable(Map(m)) && m != map[]
    ensures var ks := SortedStrings(m.Keys);
            var tokens := Tokenize(FormatProperties(m), floats);
            && tokens.Some?
            && EntriesExportable(Map(m), ks)
            && var parsed := ParsePropertyMap(tokens.value, 0);
            && (parsed.Some? <==> AllNamed(m))
            && (parsed.Some? ==> parsed.value.rest == [Eof])
            && (parsed == Some(Parsed(EntriesOf(Map(m), ks), [Eof])) <==> KeysReadBack(m))
            && (KeysReadBack(m) ==> EvaluateEntries(parsed.value.value, NO_ROW, rt) == Success(m))
  {
    hide Tokenize, FormatProperties, EntryTokens, EntriesOf, SortedStrings, Exportable, Showable, ParsePropertyMap,
      EvaluateEntries,
      Producible, Within, Restricted, KeyName, WordKey, ReadKeys;
    var v, ks := Map(m), SortedStrings(m.Keys);
    assert EntriesExportable(v, ks);
    FormatLexes(m, floats);
    EntryKeys(v, ks);
    EntriesWithin(v, ks, 0);
    NonEmptyKeys(m);
    ParseMapText(EntriesOf(v, ks));
    ReadKeysExact(EntriesOf(v, ks));
    assert AllNamed(m) <==> forall i :: 0 <= i < |ks| ==> KeyName(ks[i]).Some?;
    assert KeysReadBack(m) <==> forall i :: 0 <= i < |ks| ==> KeyName(ks[i]) == Some(ks[i]);
    EntriesEvaluateBack(v, ks, rt);
    AllRestricted(m);
  }

  lemma {:induction false} AllRestricted(m: Props)
    ensures Restricted(m, SortedStrings(m.Keys)) == m
  {
  }

  lemma {:induction false} FormatLexes(m: Props, floats: FloatParser)
    requires ExportableMap(m) && Showable(Map(m)) && m != map[]
    requires EntriesExportable(Map(m), SortedStrings(m.Keys))
    ensures Tokenize(FormatProperties(m), floats) ==
              Some([Sym(LBrace)] + EntryTokens(EntriesOf(Map(m), SortedStrings(m.Keys))) + [Sym(RBrace)] + [Eof])
  {
    hide Tokenize, ShowEntries, EntryTokens, EntriesOf, Exportable, Showable, Prepend, SortedStrings, WordKey;
    var v, ks := Map(m), SortedStrings(m.Keys);
    LexBraced(v, ks, [], floats);
    assert "{" + ShowEntries(v, ks) + "}" + [] == FormatProperties(m);
    EmptyText(floats);
    EofIs([Sym(LBrace)] + EntryTokens(EntriesOf(v, ks)) + [Sym(RBrace)]);
  }

  lemma EmptyText(floats: FloatParser)
    ensures Tokenize([], floats) == Some([Eof])
  {
  }

  lemma EofIs(ts: seq<Token>)
    ensures Prepend(ts, Some([Eof])) == Some(ts + [Eof])
  {
  }

  lemma NonEmptyKeys(m: Props)
    requires m != map[]
    ensures SortedStrings(m.Keys) != []
  {
    var k :| k in m;
    assert k in SortedStrings(m.Keys);
  }

  lemma {:induction false} ParseMapText(es: seq<Entry>)
    requires es != [] && forall i :: 0 <= i < |es| ==> Producible(es[i].value) && Within(es[i].value, OR, 0)
    ensures ParsePropertyMap([Sym(LBrace)] + EntryTokens(es) + [Sym(RBrace)] + [Eof], 0) ==
              match ReadKeys(es) case None => None case Some(read) => Some(Parsed(read, [Eof]))
  {
    hide ParseEntries, EntryTokens, Producible, Within, ReadKeys;
    var close: seq<Token> := [Sym(RBrace)] + [Eof];
    var inner := EntryTokens(es) + close;
    assert [Sym(LBrace)] + EntryTokens(es) + [Sym(RBrace)] + [Eof] == [Sym(LBrace)] + inner;
    Front(Sym(LBrace), inner);
    Front(Sym(RBrace), [Eof]);
    StartsWithWord(es, close);
    ParseKeyed([], es, close);
    if ReadKeys(es).Some? {
      assert [] + ReadKeys(es).value == ReadKeys(es).value;
    }
  }

  lemma StartsWithWord(es: seq<Entry>, rest: seq<Token>)
    requires es != []
    ensures Peek(EntryTokens(es) + rest) == WordToken(es[0].key) != Sym(RBrace)
  {
    hide Print, KeywordOf;
  }

  /** `order` is read back as itself, `Order` as `order`, and `mandatory` as no key at all. */
  lemma KeywordKeys()
    ensures KeyName("order") == Some("order") && KeyName("Order") == Some("order") && KeyName("mandatory") == None
  {
    hide KeywordOf, WordToken;
    OrderIsKeyword();
    MandatoryIsKeyword();
  }

  lemma MandatoryIsKeyword()
    ensures WordToken("mandatory") == Kw(KwMandatory)
  {
    assert Upper("mandatory") == "MANDATORY";
  }

  lemma OrderIsKeyword()
    ensures WordToken("order") == Kw(KwOrder) && WordToken("Order") == Kw(KwOrder)
  {
    assert Upper("order") == "ORDER" && Upper("Order") == "ORDER";
  }

  // ----- exactly which strings, and the least integer -----

  function Quotes(s: string): nat {
    if s == [] then 0 else (if s[0] == '\'' then 1 else 0) + Quotes(s[1..])
  }

  lemma {:induction false} QuotesConcat(a: string, b: string)
    ensures Quotes(a + b) == Quotes(a) + Quotes(b)
  {
    if a == [] {
      assert a + b == b;
    } else {
      assert (a + b)[1..] == a[1..] + b;
      QuotesConcat(a[1..], b);
    }
  }

  lemma {:induction false} NoQuotes(s: string)
    ensures Quotes(s) == 0 <==> '\'' !in s
  {
    if s != [] {
      NoQuotes(s[1..]);
      assert s == [s[0]] + s[1..];
    }
  }

  /** Each quote of a string literal's content takes two characters of the text. */
  lemma {:induction false} StringAccounted(text: string, s: string)
    requires LexString(text, s).Some?
    ensures var l := LexString(text, s).value;
            && l.token.StringLit? && Quotes(text) <= Quotes(l.token.s)
            && |l.token.s| + Quotes(l.token.s) + |l.rest| + 1 == |text| + Quotes(text) + |s|
    decreases |s|
  {
    if s[0] != '\'' {
      QuotesConcat(text, [s[0]]);
      assert [s[0]][1..] == [];
      StringAccounted(text + [s[0]], s[1..]);
    } else if Begins(s[1..], '\'') {
      QuotesConcat(text, "'");
      assert "'"[1..] == [];
      StringAccounted(text + "'", s[2..]);
    }
  }

  /** A string comes back from its text, with nothing left over, if and only if it has no quote. */
  lemma QuotedIffNoQuotes(s: string)
    ensures LexString([], s + "'") == Some(Lexed(StringLit(s), [])) <==> '\'' !in s
  {
    if '\'' !in s {
      LexQuoted([], s, []);
      assert s + "'" + [] == s + "'" && [] + s == s;
    }
    if LexString([], s + "'") == Some(Lexed(StringLit(s), [])) {
      StringAccounted([], s + "'");
      NoQuotes(s);
    }
  }

  lemma TooLarge(n: nat, rest: string, floats: FloatParser)
    requires n > I64_MAX && Delimited(rest)
    ensures LexToken(Decimal(n) + rest, floats) == None
  {
    hide NumberExtent, Decimal, DigitsValue;
    var d := Decimal(n);
    var s := d + rest;
    RunStep(s, IsDigit, |d|);
    NumberPlain(s, |d|);
    assert s[..|d|] == d;
    DecimalValue(n);
  }

  lemma NoToken(s: string, floats: FloatParser)
    requires s != [] && !IsWhitespace(s[0]) && LexToken(s, floats) == None
    ensures Tokenize(s, floats) == None
  {
    hide LexToken;
    RunStep(s, IsWhitespace, 0);
    assert s[0..] == s;
    TokenizeStep(s, floats);
  }

  /** The text of the least integer does not lex: its magnitude is no 64-bit integer. */
  lemma LeastIntegerFails(rest: string, floats: FloatParser)
    requires Delimited(rest)
    ensures Tokenize(Show(Integer(I64_MIN)) + rest, floats) == None
  {
    hide Tokenize, Decimal, LexToken;
    var n: nat := 0x8000_0000_0000_0000;
    var s := Decimal(n) + rest;
    assert Show(Integer(I64_MIN)) + rest == "-" + s;
    LexMinus(s, floats);
    TooLarge(n, rest, floats);
    NoToken(s, floats);
  }
}
