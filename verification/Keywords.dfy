/** How keywords are spelled, as a table apart from the lexer's and the parser's own. */
module Keywords {
  import opened Bytes
  import opened Wrappers
  import opened Syntax
  import opened Grammar
  import opened Lexers

  function Spelling(k: Keyword): string {
    match k
    case KwNull => "NULL" case KwTrue => "TRUE" case KwFalse => "FALSE" case KwMatch => "MATCH"
    case KwWhere => "WHERE" case KwReturn => "RETURN" case KwCreate => "CREATE" case KwInsert => "INSERT"
    case KwDelete => "DELETE" case KwSet => "SET" case KwRemove => "REMOVE" case KwDrop => "DROP"
    case KwGraph => "GRAPH" case KwType => "TYPE" case KwNode => "NODE" case KwEdge => "EDGE" case KwNot => "NOT"
    case KwAnd => "AND" case KwOr => "OR" case KwXor => "XOR" case KwIs => "IS" case KwIn => "IN"
    case KwLike => "LIKE" case KwAs => "AS" case KwBy => "BY" case KwOrder => "ORDER" case KwAsc => "ASC"
    case KwDesc => "DESC" case KwLimit => "LIMIT" case KwOffset => "OFFSET" case KwGroup => "GROUP"
    case KwHaving => "HAVING" case KwWith => "WITH" case KwLet => "LET" case KwFor => "FOR"
    case KwFilter => "FILTER" case KwCall => "CALL" case KwYield => "YIELD" case KwOptional => "OPTIONAL"
    case KwMandatory => "MANDATORY" case KwExists => "EXISTS" case KwCase => "CASE" case KwWhen => "WHEN"
    case KwThen => "THEN" case KwElse => "ELSE" case KwEnd => "END" case KwUnion => "UNION"
    case KwIntersect => "INTERSECT" case KwExcept => "EXCEPT" case KwAll => "ALL" case KwDistinct => "DISTINCT"
    case KwCount => "COUNT" case KwSum => "SUM" case KwAvg => "AVG" case KwMin => "MIN" case KwMax => "MAX"
    case KwCollect => "COLLECT" case KwWalk => "WALK" case KwTrail => "TRAIL" case KwSimple => "SIMPLE"
    case KwAcyclic => "ACYCLIC" case KwShortest => "SHORTEST" case KwPath => "PATH" case KwAny => "ANY"
    case KwCommit => "COMMIT" case KwRollback => "ROLLBACK" case KwBegin => "BEGIN" case KwIf => "IF"
    case KwDetach => "DETACH" case KwNodetach => "NODETACH" case KwCost => "COST" case KwOf => "OF"
    case KwTo => "TO" case KwFrom => "FROM" case KwIndex => "INDEX" case KwUnique => "UNIQUE" case KwOn => "ON"
    case KwList => "LIST"
  }

  lemma KeywordIsSpelled(word: string)
    ensures KeywordOf(word).Some? ==> Same(Upper(word), Spelling(KeywordOf(word).value))
  {
    hide Upper, Same;
  }

  /** The word is one of the spellings. */
  predicate Listed(w: string) {
    Same(w, "NULL") || Same(w, "TRUE") || Same(w, "FALSE") || Same(w, "MATCH") || Same(w, "WHERE")
      || Same(w, "RETURN") || Same(w, "CREATE") || Same(w, "INSERT") || Same(w, "DELETE") || Same(w, "SET")
      || Same(w, "REMOVE") || Same(w, "DROP") || Same(w, "GRAPH") || Same(w, "TYPE") || Same(w, "NODE")
      || Same(w, "EDGE") || Same(w, "NOT") || Same(w, "AND") || Same(w, "OR") || Same(w, "XOR")
      || Same(w, "IS") || Same(w, "IN") || Same(w, "LIKE") || Same(w, "AS") || Same(w, "BY")
      || Same(w, "ORDER") || Same(w, "ASC") || Same(w, "DESC") || Same(w, "LIMIT") || Same(w, "OFFSET")
      || Same(w, "GROUP") || Same(w, "HAVING") || Same(w, "WITH") || Same(w, "LET") || Same(w, "FOR")
      || Same(w, "FILTER") || Same(w, "CALL") || Same(w, "YIELD") || Same(w, "OPTIONAL")
      || Same(w, "MANDATORY") || Same(w, "EXISTS") || Same(w, "CASE") || Same(w, "WHEN") || Same(w, "THEN")
      || Same(w, "ELSE") || Same(w, "END") || Same(w, "UNION") || Same(w, "INTERSECT") || Same(w, "EXCEPT")
      || Same(w, "ALL") || Same(w, "DISTINCT") || Same(w, "COUNT") || Same(w, "SUM") || Same(w, "AVG")
      || Same(w, "MIN") || Same(w, "MAX") || Same(w, "COLLECT") || Same(w, "WALK") || Same(w, "TRAIL")
      || Same(w, "SIMPLE") || Same(w, "ACYCLIC") || Same(w, "SHORTEST") || Same(w, "PATH") || Same(w, "ANY")
      || Same(w, "COMMIT") || Same(w, "ROLLBACK") || Same(w, "BEGIN") || Same(w, "IF") || Same(w, "DETACH")
      || Same(w, "NODETACH") || Same(w, "COST") || Same(w, "OF") || Same(w, "TO") || Same(w, "FROM")
      || Same(w, "INDEX") || Same(w, "UNIQUE") || Same(w, "ON") || Same(w, "LIST")
  }

  lemma ListedIsKeyword(word: string)
    requires Listed(Upper(word))
    ensures KeywordOf(word).Some?
  {
    hide Upper, Same;
  }

  lemma SpellingListed(w: string, k: Keyword)
    requires Same(w, Spelling(k))
    ensures Listed(w)
  {
    hide Same;
  }

  /** A word is a keyword only if it is spelled so, in letters of any case, and whenever some keyword is. */
  lemma KeywordsSpelled(word: string)
    ensures KeywordOf(word).Some? ==> Upper(word) == Spelling(KeywordOf(word).value)
    ensures KeywordOf(word).None? ==> forall k :: Upper(word) != Spelling(k)
  {
    hide KeywordOf, Upper, Spelling, Listed;
    KeywordIsSpelled(word);
    forall k | Upper(word) == Spelling(k) ensures KeywordOf(word).Some? {
      SpellingListed(Upper(word), k);
      ListedIsKeyword(word);
    }
  }

  lemma UpperNames1()
    ensures Same(Upper("match"), "MATCH") && Same(Upper("return"), "RETURN") && Same(Upper("where"), "WHERE")
            && Same(Upper("insert"), "INSERT") && Same(Upper("create"), "CREATE") && Same(Upper("set"), "SET")
            && Same(Upper("delete"), "DELETE") && Same(Upper("detach"), "DETACH")
            && Same(Upper("remove"), "REMOVE") && Same(Upper("drop"), "DROP") && Same(Upper("with"), "WITH")
            && Same(Upper("order"), "ORDER") && Same(Upper("by"), "BY") && Same(Upper("limit"), "LIMIT")
            && Same(Upper("offset"), "OFFSET")
  {
  }

  lemma UpperNames2()
    ensures Same(Upper("asc"), "ASC") && Same(Upper("desc"), "DESC") && Same(Upper("distinct"), "DISTINCT")
            && Same(Upper("as"), "AS") && Same(Upper("and"), "AND") && Same(Upper("or"), "OR")
            && Same(Upper("not"), "NOT") && Same(Upper("xor"), "XOR") && Same(Upper("is"), "IS")
            && Same(Upper("null"), "NULL") && Same(Upper("true"), "TRUE") && Same(Upper("false"), "FALSE")
            && Same(Upper("in"), "IN") && Same(Upper("exists"), "EXISTS") && Same(Upper("case"), "CASE")
  {
  }

  lemma UpperNames3()
    ensures Same(Upper("when"), "WHEN") && Same(Upper("then"), "THEN") && Same(Upper("else"), "ELSE")
            && Same(Upper("end"), "END") && Same(Upper("union"), "UNION") && Same(Upper("all"), "ALL")
            && Same(Upper("optional"), "OPTIONAL") && Same(Upper("call"), "CALL")
            && Same(Upper("yield"), "YIELD") && Same(Upper("like"), "LIKE") && Same(Upper("node"), "NODE")
            && Same(Upper("edge"), "EDGE") && Same(Upper("graph"), "GRAPH") && Same(Upper("type"), "TYPE")
            && Same(Upper("group"), "GROUP")
  {
  }

  lemma UpperNames4()
    ensures Same(Upper("having"), "HAVING") && Same(Upper("let"), "LET") && Same(Upper("for"), "FOR")
            && Same(Upper("filter"), "FILTER") && Same(Upper("count"), "COUNT") && Same(Upper("sum"), "SUM")
            && Same(Upper("avg"), "AVG") && Same(Upper("min"), "MIN") && Same(Upper("max"), "MAX")
            && Same(Upper("collect"), "COLLECT") && Same(Upper("path"), "PATH") && Same(Upper("cost"), "COST")
            && Same(Upper("from"), "FROM") && Same(Upper("to"), "TO")
  {
  }

  lemma NameIsSpelled(k: Keyword)
    ensures KeywordName(k).Some? ==> Same(Upper(KeywordName(k).value), Spelling(k))
  {
    hide Upper, Same;
    UpperNames1();
    UpperNames2();
    UpperNames3();
    UpperNames4();
    match k
    case KwNull => case KwTrue => case KwFalse => case KwMatch => case KwWhere => case KwReturn =>
    case KwCreate => case KwInsert => case KwDelete => case KwSet => case KwRemove => case KwDrop =>
    case KwGraph => case KwType => case KwNode => case KwEdge => case KwNot => case KwAnd => case KwOr =>
    case KwXor => case KwIs => case KwIn => case KwLike => case KwAs => case KwBy => case KwOrder =>
    case KwAsc => case KwDesc => case KwLimit => case KwOffset => case KwGroup => case KwHaving =>
    case KwWith => case KwLet => case KwFor => case KwFilter => case KwCall => case KwYield =>
    case KwOptional => case KwMandatory => case KwExists => case KwCase => case KwWhen => case KwThen =>
    case KwElse => case KwEnd => case KwUnion => case KwIntersect => case KwExcept => case KwAll =>
    case KwDistinct => case KwCount => case KwSum => case KwAvg => case KwMin => case KwMax =>
    case KwCollect => case KwWalk => case KwTrail => case KwSimple => case KwAcyclic => case KwShortest =>
    case KwPath => case KwAny => case KwCommit => case KwRollback => case KwBegin => case KwIf =>
    case KwDetach => case KwNodetach => case KwCost => case KwOf => case KwTo => case KwFrom => case KwIndex =>
    case KwUnique => case KwOn => case KwList =>
  }

  /** The name a keyword has as a key is its spelling, in lower case. */
  lemma NamesSpelled(k: Keyword)
    ensures KeywordName(k).Some? ==> Upper(KeywordName(k).value) == Spelling(k)
  {
    hide KeywordName, Upper, Spelling;
    NameIsSpelled(k);
  }
}
