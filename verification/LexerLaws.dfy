/** What each kind of text lexes to, in terms of the characters themselves. */
module LexerLaws {
  import opened Bytes
  import opened Wrappers
  import opened Syntax
  import opened Grammar
  import opened Lexers

  // ----- spaces and words -----

  /** Spaces, tabs, line ends and form feeds stand for nothing, and nothing else is skipped. */
  lemma BlankMeaning(blank: string, s: string, floats: FloatParser)
    requires forall c :: c in blank ==> c == ' ' || c == '\t' || c == '\n' || c == '\r' || c as int == 0x0C
    requires s != [] ==> s[0] != ' ' && s[0] != '\t' && s[0] != '\n' && s[0] != '\r' && s[0] as int != 0x0C
    ensures NextToken(blank + s, floats) == LexToken(s, floats)
  {
    assert forall i :: 0 <= i < |blank| ==> (blank + s)[i] == blank[i] && blank[i] in blank;
    RunStep(blank + s, IsWhitespace, |blank|);
    assert (blank + s)[|blank|..] == s;
  }

  /** The text is a word: letters, digits and underscores, no digit first, and the rest does not go on with it. */
  predicate Word(text: string, rest: string) {
    && text != [] && !('0' <= text[0] <= '9')
    && (forall c :: c in text ==> 'a' <= c <= 'z' || 'A' <= c <= 'Z' || '0' <= c <= '9' || c == '_')
    && (rest != [] ==> !('a' <= rest[0] <= 'z') && !('A' <= rest[0] <= 'Z') && !('0' <= rest[0] <= '9') && rest[0] != '_')
  }

  lemma WordRun(text: string, rest: string)
    requires Word(text, rest)
    ensures Run(text + rest, InWord) == |text| && (text + rest)[..|text|] == text && (text + rest)[|text|..] == rest
    ensures StartsWord(text[0]) && (text + rest)[0] == text[0]
  {
    assert text[0] in text && forall i :: 0 <= i < |text| ==> (text + rest)[i] == text[i] && text[i] in text;
    RunStep(text + rest, InWord, |text|);
  }

  /** A whole word is one token: the keyword it is spelled like, or else an identifier as written. */
  lemma WordMeaning(text: string, rest: string, floats: FloatParser)
    requires Word(text, rest)
    ensures LexToken(text + rest, floats) ==
              Some(Lexed(match KeywordOf(text) case Some(k) => Kw(k) case None => Ident(text), rest))
  {
    hide KeywordOf, Run;
    WordRun(text, rest);
  }

  /** A dollar sign and a word are a parameter; a dollar sign alone is an error. */
  lemma ParameterMeaning(text: string, rest: string, floats: FloatParser)
    ensures Word(text, rest) ==> LexToken("$" + (text + rest), floats) == Some(Lexed(Param(text), rest))
    ensures rest == [] || !('a' <= rest[0] <= 'z' || 'A' <= rest[0] <= 'Z' || rest[0] == '_') ==>
              LexToken("$" + rest, floats) == None
  {
    hide Run, LexBlockComment, LexString, SymbolOf, LexNumber;
    assert ("$" + (text + rest))[1..] == text + rest && ("$" + rest)[1..] == rest;
    if Word(text, rest) {
      WordRun(text, rest);
    }
  }

  // ----- strings and comments -----

  /** The characters of a string as they are written: each quote twice. */
  function Quoted(text: string): string {
    if text == [] then [] else (if text[0] == '\'' then "''" else [text[0]]) + Quoted(text[1..])
  }

  lemma {:induction false} StringReads(before: string, text: string, rest: string)
    requires rest == [] || rest[0] != '\''
    ensures LexString(before, Quoted(text) + ("'" + rest)) == Some(Lexed(StringLit(before + text), rest))
    decreases |text|
  {
    var s := Quoted(text) + ("'" + rest);
    if text == [] {
      assert s == "'" + rest && s[1..] == rest && before + text == before;
    } else {
      var more := Quoted(text[1..]) + ("'" + rest);
      assert text == [text[0]] + text[1..];
      if text[0] == '\'' {
        assert s == "''" + more && s[1..][0] == '\'' && s[2..] == more;
        StringReads(before + "'", text[1..], rest);
        assert before + "'" + text[1..] == before + text;
      } else {
        assert s == [text[0]] + more && s[1..] == more;
        StringReads(before + [text[0]], text[1..], rest);
        assert before + [text[0]] + text[1..] == before + text;
      }
    }
  }

  /** The characters are the text as it is written, a closing quote and the rest. */
  predicate Written(text: string, rest: string, s: string) {
    s == Quoted(text) + ("'" + rest)
  }

  lemma WrittenMore(c: char, text: string, rest: string, s: string)
    requires Written(text, rest, s)
    ensures Written([c] + text, rest, if c == '\'' then "''" + s else [c] + s)
  {
    assert ([c] + text)[1..] == text;
    var mark := if c == '\'' then "''" else [c];
    assert mark + Quoted(text) + ("'" + rest) == mark + (Quoted(text) + ("'" + rest));
  }

  /** Whatever is read as a string was written with each quote twice, up to a single quote. */
  lemma {:induction false} StringWasWritten(before: string, s: string) returns (text: string)
    requires LexString(before, s).Some?
    ensures LexString(before, s).value.token == StringLit(before + text)
    ensures Written(text, LexString(before, s).value.rest, s)
    ensures LexString(before, s).value.rest == [] || LexString(before, s).value.rest[0] != '\''
    decreases |s|
  {
    hide Written, Quoted;
    if s[0] == '\'' && !Begins(s[1..], '\'') {
      text := [];
      assert before + text == before;
      WrittenEnd(s);
    } else {
      var more := StringWasWritten(before + [s[0]], if s[0] == '\'' then s[2..] else s[1..]);
      text := [s[0]] + more;
      assert before + [s[0]] + more == before + text;
      WrittenMore(s[0], more, LexString(before, s).value.rest, if s[0] == '\'' then s[2..] else s[1..]);
      assert s == (if s[0] == '\'' then "''" + s[2..] else [s[0]] + s[1..]);
    }
  }

  lemma WrittenEnd(s: string)
    requires s != [] && s[0] == '\''
    ensures Written([], s[1..], s)
  {
    assert s == [] + ("'" + s[1..]);
  }

  /** A string literal is read back exactly when its quotes are doubled: both directions. */
  lemma StringMeaning(text: string, rest: string, floats: FloatParser, s: string)
    ensures rest == [] || rest[0] != '\'' ==>
              LexToken("'" + (Quoted(text) + ("'" + rest)), floats) == Some(Lexed(StringLit(text), rest))
    ensures s != [] && s[0] == '\'' && LexToken(s, floats) == Some(Lexed(StringLit(text), rest)) ==>
              s == "'" + (Quoted(text) + ("'" + rest)) && (rest == [] || rest[0] != '\'')
  {
    hide LexString;
    var whole := "'" + (Quoted(text) + ("'" + rest));
    assert whole[1..] == Quoted(text) + ("'" + rest);
    if rest == [] || rest[0] != '\'' {
      StringReads([], text, rest);
      assert [] + text == text;
    }
    if s != [] && s[0] == '\'' && LexToken(s, floats) == Some(Lexed(StringLit(text), rest)) {
      var read := StringWasWritten([], s[1..]);
      assert [] + read == read == text;
      assert s == "'" + s[1..];
    }
  }

  /** Two dashes start a comment up to the end of the line, which stays. */
  lemma LineCommentMeaning(text: string, rest: string, floats: FloatParser)
    requires '\n' !in text && (rest != [] ==> rest[0] == '\n')
    ensures LexToken("--" + (text + rest), floats) == Some(Lexed(Comment(text), rest))
  {
    var s := "--" + (text + rest);
    assert s[1..][0] == '-' && s[2..] == text + rest;
    LineExtent(text, rest);
  }

  lemma LineExtent(text: string, rest: string)
    requires '\n' !in text && (rest != [] ==> rest[0] == '\n')
    ensures LexLineComment(text + rest) == Lexed(Comment(text), rest)
  {
    var s := text + rest;
    assert forall i :: 0 <= i < |text| ==> s[i] == text[i] && text[i] in text;
    assert rest != [] ==> s[|text|] == rest[0];
    assert s[..|text|] == text && s[|text|..] == rest;
  }

  /** A slash and a star start a comment up to the first star and slash after them. */
  lemma BlockCommentMeaning(text: string, rest: string, floats: FloatParser)
    requires forall i :: 0 <= i < |text| && text[i] == '*' ==> i + 1 < |text| && text[i + 1] != '/'
    ensures LexToken("/*" + (text + ("*/" + rest)), floats) == Some(Lexed(Comment(text), rest))
    ensures LexToken("/*" + text, floats) == None
  {
    var s, open := "/*" + (text + ("*/" + rest)), "/*" + text;
    assert s[1..][0] == '*' && s[2..] == text + ("*/" + rest) && open[1..][0] == '*' && open[2..] == text;
    BlockReads([], text, rest);
    BlockOpen([], text);
    assert [] + text == text;
    hide LexBlockComment;
  }

  lemma {:induction false} BlockReads(before: string, text: string, rest: string)
    requires forall i :: 0 <= i < |text| && text[i] == '*' ==> i + 1 < |text| && text[i + 1] != '/'
    ensures LexBlockComment(before, text + ("*/" + rest)) == Some(Lexed(Comment(before + text), rest))
    decreases |text|
  {
    var s := text + ("*/" + rest);
    if text == [] {
      assert s == "*/" + rest && s[1..][0] == '/' && s[2..] == rest && before + text == before;
    } else {
      assert s[1..] == text[1..] + ("*/" + rest) && text == [text[0]] + text[1..];
      BlockReads(before + [text[0]], text[1..], rest);
      assert before + [text[0]] + text[1..] == before + text;
    }
  }

  lemma {:induction false} BlockOpen(before: string, text: string)
    requires forall i :: 0 <= i < |text| && text[i] == '*' ==> i + 1 < |text| ==> text[i + 1] != '/'
    ensures LexBlockComment(before, text) == None
    decreases |text|
  {
    if text != [] {
      BlockOpen(before + [text[0]], text[1..]);
    }
  }

  // ----- numbers -----

  predicate Digits(s: string) {
    forall c :: c in s ==> '0' <= c <= '9'
  }

  /** No digit comes next. */
  predicate NoDigit(rest: string) {
    rest != [] ==> !('0' <= rest[0] <= '9')
  }

  /** A dot and a digit after it do not come next. */
  predicate NoFraction(rest: string) {
    |rest| > 1 && rest[0] == '.' ==> !('0' <= rest[1] <= '9')
  }

  predicate NoMark(rest: string) {
    rest != [] ==> rest[0] != 'e' && rest[0] != 'E'
  }

  lemma DigitRun(digits: string, rest: string)
    requires Digits(digits) && NoDigit(rest)
    ensures Run(digits + rest, IsDigit) == |digits|
  {
    assert forall i :: 0 <= i < |digits| ==> (digits + rest)[i] == digits[i] && digits[i] in digits;
    RunStep(digits + rest, IsDigit, |digits|);
  }

  /** Nothing, or a dot and digits. */
  predicate Fraction(s: string) {
    s == [] || (|s| > 1 && s[0] == '.' && Digits(s[1..]))
  }

  /** The mark, a sign or none, and digits. */
  predicate Exponent(mark: char, sign: string, digits: string) {
    (mark == 'e' || mark == 'E') && (sign == "" || sign == "+" || sign == "-") && digits != [] && Digits(digits)
  }

  lemma MantissaRead(whole: string, fraction: string, rest: string)
    requires Digits(whole) && Fraction(fraction) && NoDigit(rest)
    requires fraction == [] ==> NoFraction(rest)
    ensures MantissaExtent(whole + (fraction + rest)) == (|whole + fraction|, fraction != [])
  {
    var s := whole + (fraction + rest);
    assert NoDigit(fraction + rest);
    DigitRun(whole, fraction + rest);
    hide Run;
    if fraction != [] {
      assert fraction[1] in fraction[1..];
      assert s[|whole|] == fraction[0] && s[|whole| + 1] == fraction[1];
      assert s[|whole| + 1..] == fraction[1..] + rest;
      DigitRun(fraction[1..], rest);
    } else {
      assert |rest| > 1 ==> s[|whole|] == rest[0] && s[|whole| + 1] == rest[1];
    }
  }

  lemma ExponentRead(mark: char, sign: string, digits: string, rest: string)
    requires Exponent(mark, sign, digits) && NoDigit(rest)
    ensures ExponentExtent([mark] + (sign + (digits + rest))) == Some(|[mark] + sign + digits|)
  {
    var s := [mark] + (sign + (digits + rest));
    assert digits[0] in digits && (digits + rest)[0] == digits[0];
    assert s[1..] == sign + (digits + rest);
    DigitRun(digits, rest);
    hide Run;
    if sign != "" {
      assert s[1..][0] == sign[0] && s[2..] == digits + rest;
    } else {
      assert s[1..] == digits + rest;
    }
  }

  lemma NumberStarts(digits: string, more: string)
    requires digits != [] && Digits(digits)
    ensures IsDigit((digits + more)[0])
  {
    assert digits[0] in digits && (digits + more)[0] == digits[0];
  }

  /** Digits alone are an integer, up to the greatest one of 64 bits. */
  lemma WholeMeaning(digits: string, rest: string, floats: FloatParser)
    requires digits != [] && Digits(digits) && NoDigit(rest) && NoFraction(rest) && NoMark(rest)
    ensures (forall i :: 0 <= i < |digits| ==> IsDigit(digits[i]))
            && LexToken(digits + rest, floats) ==
               if DigitsValue(digits) <= 0x7FFF_FFFF_FFFF_FFFF then Some(Lexed(IntegerLit(DigitsValue(digits)), rest)) else None
  {
    assert forall i :: 0 <= i < |digits| ==> digits[i] in digits;
    WholeExtent(digits, rest);
    hide *;
    WholeRead(digits, rest, digits + rest, floats);
  }

  lemma WholeExtent(digits: string, rest: string)
    requires digits != [] && Digits(digits) && NoDigit(rest) && NoFraction(rest) && NoMark(rest)
    ensures IsDigit((digits + rest)[0]) && NumberExtent(digits + rest) == Some((|digits|, false))
  {
    NumberStarts(digits, rest);
    MantissaRead(digits, [], rest);
    Parted(digits, rest, digits + rest);
    assert digits + ([] + rest) == digits + rest && digits + [] == digits;
    hide MantissaExtent, ExponentExtent, Run, Digits;
  }

  lemma WholeRead(digits: string, rest: string, s: string, floats: FloatParser)
    requires forall i :: 0 <= i < |digits| ==> IsDigit(digits[i])
    requires s == digits + rest && s != [] && IsDigit(s[0]) && NumberExtent(s) == Some((|digits|, false))
    ensures LexToken(s, floats) ==
              if DigitsValue(digits) <= 0x7FFF_FFFF_FFFF_FFFF then Some(Lexed(IntegerLit(DigitsValue(digits)), rest)) else None
  {
    hide NumberExtent, LexBlockComment, LexString, LexWord, LexParameter, LexLineComment, SymbolOf, DigitsValue;
    Parted(digits, rest, s);
  }

  /** Digits with a fraction, an exponent or both are the float their text is parsed as, or an error. */
  lemma FloatMeaning(whole: string, fraction: string, mark: char, sign: string, digits: string, rest: string,
                     floats: FloatParser)
    requires whole != [] && Digits(whole) && Fraction(fraction) && NoDigit(rest)
    ensures fraction != [] && NoMark(rest) ==>
              LexToken(whole + (fraction + rest), floats) ==
                match floats(whole + fraction) case Some(bits) => Some(Lexed(FloatLit(bits), rest)) case None => None
    ensures Exponent(mark, sign, digits) ==>
              LexToken(whole + (fraction + ([mark] + (sign + (digits + rest)))), floats) ==
                match floats(whole + fraction + ([mark] + sign + digits))
                case Some(bits) => Some(Lexed(FloatLit(bits), rest))
                case None => None
  {
    hide *;
    if fraction != [] && NoMark(rest) {
      PlainExtent(whole, fraction, rest);
      FloatRead(whole + fraction, rest, whole + (fraction + rest), floats);
    }
    if Exponent(mark, sign, digits) {
      var more := [mark] + (sign + (digits + rest));
      MarkedExtent(whole, fraction, mark, sign, digits, rest);
      Reassociated(whole + fraction, mark, sign, digits, rest);
      assert whole + (fraction + more) == (whole + fraction) + more;
      FloatRead(whole + fraction + ([mark] + sign + digits), rest, whole + (fraction + more), floats);
    }
  }

  lemma Reassociated(mantissa: string, mark: char, sign: string, digits: string, rest: string)
    ensures mantissa + ([mark] + (sign + (digits + rest))) == (mantissa + ([mark] + sign + digits)) + rest
  {
  }

  lemma FloatRead(text: string, rest: string, s: string, floats: FloatParser)
    requires s == text + rest && s != [] && IsDigit(s[0]) && NumberExtent(s) == Some((|text|, true))
    ensures LexToken(s, floats) ==
              match floats(text) case Some(bits) => Some(Lexed(FloatLit(bits), rest)) case None => None
  {
    hide NumberExtent, LexBlockComment, LexString, LexWord, LexParameter, LexLineComment, SymbolOf;
    Parted(text, rest, s);
  }

  lemma PlainExtent(whole: string, fraction: string, rest: string)
    requires whole != [] && Digits(whole) && Fraction(fraction) && fraction != [] && NoDigit(rest) && NoMark(rest)
    ensures var s := whole + (fraction + rest);
            s == whole + fraction + rest && IsDigit(s[0]) && NumberExtent(s) == Some((|whole + fraction|, true))
  {
    hide MantissaExtent, ExponentExtent, Run, Digits;
    NumberStarts(whole, fraction + rest);
    MantissaRead(whole, fraction, rest);
    Parted(whole + fraction, rest, whole + (fraction + rest));
  }

  lemma MarkedExtent(whole: string, fraction: string, mark: char, sign: string, digits: string, rest: string)
    requires whole != [] && Digits(whole) && Fraction(fraction) && Exponent(mark, sign, digits) && NoDigit(rest)
    ensures var s := whole + (fraction + ([mark] + (sign + (digits + rest))));
            && IsDigit(s[0])
            && NumberExtent(s) == Some((|whole + fraction + ([mark] + sign + digits)|, true))
  {
    hide MantissaExtent, ExponentExtent, Run, Digits;
    var more := [mark] + (sign + (digits + rest));
    NumberStarts(whole, fraction + more);
    MantissaRead(whole, fraction, more);
    ExponentRead(mark, sign, digits, rest);
    Parted(whole + fraction, more, whole + (fraction + more));
    assert more[0] == mark;
  }

  lemma Parted(a: string, b: string, s: string)
    requires s == a + b
    ensures s[..|a|] == a && s[|a|..] == b
  {
  }

  // ----- symbols -----

  lemma OneSymbol(t: Symbol, u: Symbol, text: string)
    requires Spells(t, text) && Spells(u, text)
    ensures t == u
  {
    var c := text[0];
    var d := if |text| > 1 then text[1] else ' ';
  }

  /** A symbol is read where it is spelled, unless a longer one or a comment is. */
  lemma SymbolMeaning(t: Symbol, text: string, rest: string, floats: FloatParser)
    requires Spells(t, text) && !("--" <= text + rest) && !("/*" <= text + rest)
    requires forall u, longer :: Spells(u, longer) && longer <= text + rest ==> |longer| <= |text|
    ensures LexToken(text + rest, floats) == Some(Lexed(Sym(t), rest))
  {
    var s := text + rest;
    SpellingSize(t, text);
    SymbolIsLongest(s);
    Parted(text, rest, s);
    assert text <= s;
    hide SymbolOf, LexBlockComment, LexString, LexNumber, LexWord, LexParameter, LexLineComment;
    var n := SymbolOf(s).value.1;
    assert s[..n] <= s && |s[..n]| == n;
    assert s[..n] == text;
    OneSymbol(SymbolOf(s).value.0, t, text);
    NoComment(s);
    SymbolFirst(t, text);
    assert s[0] == text[0];
  }

  lemma NoComment(s: string)
    requires s != [] && !("--" <= s) && !("/*" <= s)
    ensures !(s[0] == '-' && Begins(s[1..], '-')) && !(s[0] == '/' && Begins(s[1..], '*'))
  {
    if |s| > 1 {
      assert s[1..][0] == s[1] && s[..2] == [s[0], s[1]];
    }
  }

  lemma SymbolFirst(t: Symbol, text: string)
    requires Spells(t, text)
    ensures text != [] && text[0] != '\'' && !IsDigit(text[0]) && !StartsWord(text[0]) && text[0] != '$'
  {
  }
}
