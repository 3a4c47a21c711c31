/** The `$filter` grammar as a relation between rows of tokens and trees, and the parser as its only reading. */
module FilterWriting {
  import opened Strings
  import opened FilterTypes
  import opened FilterLexemes
  import opened FilterNumerals
  import opened FilterSerializer
  import opened FilterGrammar
  import opened FilterParser

  // The grammar

  /** The token stands for the literal. */
  predicate Denotes(token: Token, value: LiteralValue, dataType: LiteralDataType) {
    && token.kind == LiteralKind(dataType)
    && match dataType
       case NumberType => value == Number(NumeralOf(token.value))
       case BooleanType => value == Boolean(token.value == "true")
       case NullType => value == Null
       case _ => value == Text(token.value)
  }

  /**
   * The tokens from `p` to `q` write the expression by a production of the level: operands of a level write at their own,
   * and whatever writes at the loosest writes at the tightest in parentheses.
   */
  ghost predicate Writes(ts: seq<Token>, p: nat, q: nat, e: FilterExpression, level: Level)
    requires p <= q <= |ts|
    decreases q - p, 10 - Rank(level)
  {
    match level
    case OrLevel => Writes(ts, p, q, e, AndLevel) || WritesLogical(ts, p, q, e, "or", OrLevel, AndLevel)
    case AndLevel => Writes(ts, p, q, e, NotLevel) || WritesLogical(ts, p, q, e, "and", AndLevel, NotLevel)
    case NotLevel =>
      || Writes(ts, p, q, e, ComparisonLevel)
      || (e.Not? && p < q && ts[p].kind == NotOp && Writes(ts, p + 1, q, e.operand, NotLevel))
    case ComparisonLevel => Writes(ts, p, q, e, ArithmeticLevel) || WritesComparison(ts, p, q, e)
    case ArithmeticLevel =>
      || Writes(ts, p, q, e, PrimaryLevel)
      || (e.Arithmetic? && exists m | p <= m < q ::
            && ts[m].kind == ArithmeticOp && ts[m].value == e.operator
            && Writes(ts, p, m, e.left, ArithmeticLevel) && Writes(ts, m + 1, q, e.right, PrimaryLevel))
    case PrimaryLevel =>
      || (e.Literal? && q == p + 1 && Denotes(ts[p], e.value, e.dataType))
      || (e.FunctionCall? && p + 3 <= q && ts[p].kind == FunctionToken && ts[p].value == e.name
          && Encloses(ts, p + 1, q) && WritesList(ts, p + 2, q - 1, e.args))
      || (p + 2 <= q && Encloses(ts, p, q) && Writes(ts, p + 1, q - 1, e, OrLevel))
      || WritesPath(ts, p, q, e)
  }

  predicate Encloses(ts: seq<Token>, p: nat, q: nat)
    requires p + 2 <= q <= |ts|
  {
    ts[p].kind == LParen && ts[q - 1].kind == RParen
  }

  /** Two operands with the word between them, of which the left is of the level itself. */
  ghost predicate WritesLogical(ts: seq<Token>, p: nat, q: nat, e: FilterExpression, word: string, level: Level, tighter: Level)
    requires p <= q <= |ts|
    decreases q - p, 0
  {
    e.Logical? && e.operator == word && exists m | p <= m < q ::
      && ts[m].kind == LogicalOp && ts[m].value == word
      && Writes(ts, p, m, e.left, level) && Writes(ts, m + 1, q, e.right, tighter)
  }

  ghost predicate WritesComparison(ts: seq<Token>, p: nat, q: nat, e: FilterExpression)
    requires p <= q <= |ts|
    decreases q - p, 0
  {
    e.Comparison? && exists m | p <= m < q ::
      && ts[m].kind == ComparisonOp && ts[m].value == e.operator
      && Writes(ts, p, m, e.left, ArithmeticLevel)
      && WritesComparand(ts, m + 1, q, e)
  }

  /** The right side of a comparison: after `in`, a list in parentheses. */
  ghost predicate WritesComparand(ts: seq<Token>, p: nat, q: nat, e: FilterExpression)
    requires p <= q <= |ts| && e.Comparison?
    decreases q - p, 11
  {
    if e.operator == "in" then
      p + 2 <= q && Encloses(ts, p, q) && e.right.Collection? && WritesList(ts, p + 1, q - 1, e.right.items)
    else Writes(ts, p, q, e.right, ArithmeticLevel)
  }

  /** Expressions with commas between. */
  ghost predicate WritesList(ts: seq<Token>, p: nat, q: nat, items: seq<FilterExpression>)
    requires p <= q <= |ts|
    decreases q - p, 11
  {
    if |items| == 0 then p == q
    else if |items| == 1 then Writes(ts, p, q, items[0], OrLevel)
    else exists m | p <= m < q ::
      && ts[m].kind == Comma
      && WritesList(ts, p, m, items[..|items| - 1]) && Writes(ts, m + 1, q, items[|items| - 1], OrLevel)
  }

  /** A name, a path with a slash and a name after it, or a path with a lambda after it. */
  ghost predicate WritesPath(ts: seq<Token>, p: nat, q: nat, e: FilterExpression)
    requires p <= q <= |ts|
    decreases q - p, 0
  {
    || (e.Property? && q == p + 1 && ts[p].kind == PropertyToken && ts[p].value == e.name)
    || (e.Property? && p + 3 <= q && ts[q - 2].kind == Slash && ts[q - 1].kind == PropertyToken
        && exists prefix: string | e.name == prefix + "/" + ts[q - 1].value :: WritesPath(ts, p, q - 2, Property(prefix)))
    || (e.Lambda? && exists m | p <= m < q :: WritesPath(ts, p, m, e.source) && WritesLambda(ts, m, q, e))
  }

  /** A slash, the operator, and in parentheses nothing, or a variable, a colon and a condition. */
  ghost predicate WritesLambda(ts: seq<Token>, p: nat, q: nat, e: FilterExpression)
    requires p <= q <= |ts| && e.Lambda?
    decreases q - p, 0
  {
    && p + 4 <= q && ts[p].kind == Slash && ts[p + 1].kind == LambdaOp && ts[p + 1].value == e.operator
    && Encloses(ts, p + 2, q)
    && if q == p + 4 then e.variable == "" && e.condition == EMPTY_CONDITION
       else p + 6 <= q && ts[p + 3].kind == PropertyToken && ts[p + 3].value == e.variable && ts[p + 4].kind == Colon
            && Writes(ts, p + 5, q - 1, e.condition, OrLevel)
  }

  // What a row starts with

  lemma {:induction false} Starts(ts: seq<Token>, p: nat, q: nat, e: FilterExpression, level: Level)
    requires p <= q <= |ts| && Writes(ts, p, q, e, level)
    ensures p < q && ts[p].kind != RParen && (Rank(level) >= Rank(ComparisonLevel) ==> ts[p].kind != NotOp)
    decreases q - p, 10 - Rank(level)
  {
    hide Denotes, WritesList, WritesComparand, WritesLambda;
    match level
    case OrLevel =>
      if Writes(ts, p, q, e, AndLevel) {
        Starts(ts, p, q, e, AndLevel);
      } else {
        var m: nat :| p <= m < q && ts[m].value == "or" && Writes(ts, p, m, e.left, OrLevel) && Writes(ts, m + 1, q, e.right, AndLevel);
        Starts(ts, p, m, e.left, OrLevel);
      }
    case AndLevel =>
      if Writes(ts, p, q, e, NotLevel) {
        Starts(ts, p, q, e, NotLevel);
      } else {
        var m: nat :| p <= m < q && ts[m].value == "and" && Writes(ts, p, m, e.left, AndLevel) && Writes(ts, m + 1, q, e.right, NotLevel);
        Starts(ts, p, m, e.left, AndLevel);
      }
    case NotLevel =>
      if Writes(ts, p, q, e, ComparisonLevel) {
        Starts(ts, p, q, e, ComparisonLevel);
      }
    case ComparisonLevel =>
      if Writes(ts, p, q, e, ArithmeticLevel) {
        Starts(ts, p, q, e, ArithmeticLevel);
      } else {
        var m: nat :| p <= m < q && ts[m].value == e.operator && Writes(ts, p, m, e.left, ArithmeticLevel)
                   && WritesComparand(ts, m + 1, q, e);
        Starts(ts, p, m, e.left, ArithmeticLevel);
      }
    case ArithmeticLevel =>
      if Writes(ts, p, q, e, PrimaryLevel) {
        Starts(ts, p, q, e, PrimaryLevel);
      } else {
        var m: nat :| p <= m < q && Writes(ts, p, m, e.left, ArithmeticLevel);
        Starts(ts, p, m, e.left, ArithmeticLevel);
      }
    case PrimaryLevel =>
      if WritesPath(ts, p, q, e) {
        PathStarts(ts, p, q, e);
      } else if e.Literal? && q == p + 1 && Denotes(ts[p], e.value, e.dataType) {
        DenotesOne(ts[p], e.value, e.dataType);
      }
  }

  lemma DenotesOne(token: Token, value: LiteralValue, dataType: LiteralDataType)
    requires Denotes(token, value, dataType)
    ensures token.kind != RParen && token.kind != NotOp && LiteralOf(token) == Some(Literal(value, dataType))
  {
  }

  lemma {:induction false} PathStarts(ts: seq<Token>, p: nat, q: nat, e: FilterExpression)
    requires p <= q <= |ts| && WritesPath(ts, p, q, e)
    ensures p < q && ts[p].kind == PropertyToken
    decreases q - p
  {
    hide WritesLambda;
    if e.Lambda? {
      var m: nat :| p <= m < q && WritesPath(ts, p, m, e.source);
      PathStarts(ts, p, m, e.source);
    } else if !(q == p + 1 && ts[p].kind == PropertyToken) {
      var prefix: string :| WritesPath(ts, p, q - 2, Property(prefix));
      PathStarts(ts, p, q - 2, Property(prefix));
    }
  }

  // The parser's rules, one at a time

  /** The token at `q` does not go on with an expression of this level. */
  predicate Stops(ts: seq<Token>, q: nat, level: Level) {
    var kind := KindAt(ts, q);
    && kind != Some(Slash)
    && (Rank(level) <= Rank(ArithmeticLevel) ==> kind != Some(ArithmeticOp))
    && (Rank(level) <= Rank(ComparisonLevel) ==> kind != Some(ComparisonOp))
    && (Rank(level) <= Rank(AndLevel) ==> !IsLogicalAt(ts, q, "and"))
    && (level == OrLevel ==> !IsLogicalAt(ts, q, "or"))
  }

  lemma PathStep(ts: seq<Token>, p: nat, name: string)
    requires p + 1 < |ts| && ts[p].kind == Slash && ts[p + 1].kind == PropertyToken
    ensures PathLoop(ts, p, Property(name)) == PathLoop(ts, p + 2, Property(name + "/" + ts[p + 1].value))
  {
    hide ParseOr, ParseLambda;
  }

  lemma PathStart(ts: seq<Token>, p: nat)
    requires p < |ts| && ts[p].kind == PropertyToken
    ensures ParsePrimary(ts, p) == PathLoop(ts, p + 1, Property(ts[p].value))
  {
    hide PathLoop, ParseOr;
  }

  lemma EmptyLambdaParses(ts: seq<Token>, p: nat, source: FilterExpression)
    requires p + 2 < |ts| && ts[p + 1].kind == LParen && ts[p + 2].kind == RParen
    ensures ParseLambda(ts, p, source) == Success(Parsed(Lambda(ts[p].value, "", source, EMPTY_CONDITION), p + 3))
  {
    hide ParseOr;
  }

  lemma LambdaParses(ts: seq<Token>, p: nat, source: FilterExpression, condition: FilterExpression, q: nat)
    requires p + 3 < |ts| && ts[p + 1].kind == LParen && ts[p + 2].kind == PropertyToken && ts[p + 3].kind == Colon
    requires ParseOr(ts, p + 4) == Success(Parsed(condition, q)) && KindAt(ts, q) == Some(RParen)
    ensures ParseLambda(ts, p, source) == Success(Parsed(Lambda(ts[p].value, ts[p + 2].value, source, condition), q + 1))
  {
    hide ParseOr;
  }

  lemma LambdaStep(ts: seq<Token>, p: nat, source: FilterExpression)
    requires p + 1 < |ts| && ts[p].kind == Slash && ts[p + 1].kind == LambdaOp && ParseLambda(ts, p + 1, source).Success?
    ensures var lambda := ParseLambda(ts, p + 1, source).value;
            PathLoop(ts, p, source) == PathLoop(ts, lambda.next, lambda.value)
  {
    hide ParseLambda;
  }

  lemma FunctionParses(ts: seq<Token>, p: nat, args: seq<FilterExpression>, q: nat)
    requires p + 1 < |ts| && ts[p].kind == FunctionToken && ts[p + 1].kind == LParen
    requires ParseList(ts, p + 2) == Success(Parsed(args, q)) && KindAt(ts, q) == Some(RParen)
    ensures ParsePrimary(ts, p) == Success(Parsed(FunctionCall(ts[p].value, args), q + 1))
  {
    hide ParseList;
  }

  lemma LiteralParses(ts: seq<Token>, p: nat)
    requires p < |ts| && LiteralOf(ts[p]).Some?
    ensures ParsePrimary(ts, p) == Success(Parsed(LiteralOf(ts[p]).value, p + 1))
  {
    hide ParseFunctionCall, PathLoop;
  }

  lemma GroupParses(ts: seq<Token>, p: nat)
    requires p < |ts| && ts[p].kind == LParen && ParseOr(ts, p + 1).Success?
    requires var close := ParseOr(ts, p + 1).value.next; KindAt(ts, close) == Some(RParen)
    ensures var inner := ParseOr(ts, p + 1).value; ParsePrimary(ts, p) == Success(Parsed(inner.value, inner.next + 1))
  {
    hide ParseOr, ParseFunctionCall, PathLoop;
  }

  lemma ArithmeticEnds(ts: seq<Token>, p: nat, e: FilterExpression)
    requires p <= |ts| && KindAt(ts, p) != Some(ArithmeticOp)
    ensures ArithmeticLoop(ts, p, e) == Success(Parsed(e, p))
  {
    hide ParsePrimary;
  }

  lemma ListStarts(ts: seq<Token>, p: nat)
    requires p <= |ts| && KindAt(ts, p) != Some(RParen) && ParseOr(ts, p).Success?
    ensures var first := ParseOr(ts, p).value; ParseList(ts, p) == ListLoop(ts, first.next, [first.value])
  {
    hide ParseOr, ListLoop;
  }

  lemma ListStep(ts: seq<Token>, p: nat, items: seq<FilterExpression>)
    requires p < |ts| && ts[p].kind == Comma && ParseOr(ts, p + 1).Success?
    ensures var item := ParseOr(ts, p + 1).value; ListLoop(ts, p, items) == ListLoop(ts, item.next, items + [item.value])
  {
    hide ParseOr;
  }

  // What is written is parsed

  lemma {:induction false} PathParses(ts: seq<Token>, p: nat, q: nat, e: FilterExpression)
    requires p <= q <= |ts| && WritesPath(ts, p, q, e)
    ensures ParsePrimary(ts, p) == PathLoop(ts, q, e)
    decreases q - p, 0
  {
    hide ParsePrimary, PathLoop, WritesLambda;
    if e.Lambda? {
      var m: nat :| p <= m < q && WritesPath(ts, p, m, e.source) && WritesLambda(ts, m, q, e);
      PathStarts(ts, p, m, e.source);
      PathParses(ts, p, m, e.source);
      WrittenLambdaParses(ts, m, q, e);
    } else if q == p + 1 && ts[p].kind == PropertyToken {
      PathStart(ts, p);
    } else {
      var prefix: string :| e.name == prefix + "/" + ts[q - 1].value && WritesPath(ts, p, q - 2, Property(prefix));
      PathParses(ts, p, q - 2, Property(prefix));
      PathStep(ts, q - 2, prefix);
    }
  }

  lemma {:induction false} WrittenLambdaParses(ts: seq<Token>, p: nat, q: nat, e: FilterExpression)
    requires p <= q <= |ts| && e.Lambda? && WritesLambda(ts, p, q, e)
    ensures PathLoop(ts, p, e.source) == PathLoop(ts, q, e)
    decreases q - p, 0
  {
    hide Writes, PathLoop, ParseLambda, ParseOr;
    if q == p + 4 {
      EmptyLambdaParses(ts, p + 1, e.source);
    } else {
      WholeParses(ts, p + 5, q - 1, e.condition);
      LambdaParses(ts, p + 1, e.source, e.condition, q - 1);
    }
    LambdaStep(ts, p, e.source);
  }

  lemma {:induction false} PrimaryParses(ts: seq<Token>, p: nat, q: nat, e: FilterExpression)
    requires p <= q <= |ts| && Writes(ts, p, q, e, PrimaryLevel) && KindAt(ts, q) != Some(Slash)
    ensures ParsePrimary(ts, p) == Success(Parsed(e, q))
    decreases q - p, 1
  {
    hide ParsePrimary, PathLoop, ParseOr, ParseList, Denotes, WritesPath, WritesList;
    if WritesPath(ts, p, q, e) {
      PathParses(ts, p, q, e);
      PathEnds(ts, q, e);
    } else if e.Literal? && q == p + 1 && Denotes(ts[p], e.value, e.dataType) {
      DenotesOne(ts[p], e.value, e.dataType);
      LiteralParses(ts, p);
    } else if p + 2 <= q && Encloses(ts, p, q) && Writes(ts, p + 1, q - 1, e, OrLevel) {
      hide Writes;
      WholeParses(ts, p + 1, q - 1, e);
      GroupParses(ts, p);
    } else {
      hide Writes;
      WrittenListParses(ts, p + 2, q - 1, e.args);
      FunctionParses(ts, p, e.args, q - 1);
    }
  }

  lemma PathEnds(ts: seq<Token>, p: nat, e: FilterExpression)
    requires p <= |ts| && KindAt(ts, p) != Some(Slash)
    ensures PathLoop(ts, p, e) == Success(Parsed(e, p))
  {
    hide ParseLambda;
  }

  lemma ArithmeticParts(ts: seq<Token>, p: nat, q: nat, e: FilterExpression) returns (m: nat)
    requires p <= q <= |ts| && Writes(ts, p, q, e, ArithmeticLevel) && !Writes(ts, p, q, e, PrimaryLevel)
    ensures e.Arithmetic? && p <= m < q && ts[m].kind == ArithmeticOp && ts[m].value == e.operator
    ensures Writes(ts, p, m, e.left, ArithmeticLevel) && Writes(ts, m + 1, q, e.right, PrimaryLevel)
  {
    hide WritesPath, WritesList, WritesLogical, WritesComparison;
    m :| p <= m < q && ts[m].kind == ArithmeticOp && ts[m].value == e.operator
         && Writes(ts, p, m, e.left, ArithmeticLevel) && Writes(ts, m + 1, q, e.right, PrimaryLevel);
  }

  lemma ArithmeticStep(ts: seq<Token>, p: nat, left: FilterExpression)
    requires p < |ts| && ts[p].kind == ArithmeticOp && ParsePrimary(ts, p + 1).Success?
    ensures var right := ParsePrimary(ts, p + 1).value;
            ArithmeticLoop(ts, p, left) == ArithmeticLoop(ts, right.next, Arithmetic(ts[p].value, left, right.value))
  {
    hide ParsePrimary;
  }

  lemma ArithmeticStarts(ts: seq<Token>, p: nat)
    requires p <= |ts| && ParsePrimary(ts, p).Success?
    ensures var left := ParsePrimary(ts, p).value; ParseArithmetic(ts, p) == ArithmeticLoop(ts, left.next, left.value)
  {
    hide ParsePrimary, ArithmeticLoop;
  }

  lemma {:induction false} WrittenArithmeticParses(ts: seq<Token>, p: nat, q: nat, e: FilterExpression)
    requires p <= q <= |ts| && Writes(ts, p, q, e, ArithmeticLevel) && KindAt(ts, q) != Some(Slash)
    ensures ParseArithmetic(ts, p) == ArithmeticLoop(ts, q, e)
    decreases q - p, 2
  {
    hide Writes, ParsePrimary, ParseArithmetic, ArithmeticLoop;
    if Writes(ts, p, q, e, PrimaryLevel) {
      PrimaryParses(ts, p, q, e);
      ArithmeticStarts(ts, p);
    } else {
      var m := ArithmeticParts(ts, p, q, e);
      WrittenArithmeticParses(ts, p, m, e.left);
      PrimaryParses(ts, m + 1, q, e.right);
      ArithmeticStep(ts, m, e.left);
    }
  }

  lemma {:induction false} WrittenComparisonParses(ts: seq<Token>, p: nat, q: nat, e: FilterExpression)
    requires p <= q <= |ts| && Writes(ts, p, q, e, ComparisonLevel) && Stops(ts, q, ComparisonLevel)
    ensures ParseComparison(ts, p) == Success(Parsed(e, q))
    decreases q - p, 3
  {
    hide ParseArithmetic, ArithmeticLoop, ParseComparand, WritesComparand;
    if Writes(ts, p, q, e, ArithmeticLevel) {
      hide Writes;
      WrittenArithmeticParses(ts, p, q, e);
      ArithmeticEnds(ts, q, e);
    } else {
      var m: nat :| p <= m < q && ts[m].kind == ComparisonOp && ts[m].value == e.operator
                 && Writes(ts, p, m, e.left, ArithmeticLevel) && WritesComparand(ts, m + 1, q, e);
      hide Writes;
      WrittenArithmeticParses(ts, p, m, e.left);
      ArithmeticEnds(ts, m, e.left);
      WrittenComparandParses(ts, m, q, e);
    }
  }

  lemma {:induction false} WrittenComparandParses(ts: seq<Token>, m: nat, q: nat, e: FilterExpression)
    requires m < q <= |ts| && e.Comparison? && ts[m].value == e.operator
    requires WritesComparand(ts, m + 1, q, e) && Stops(ts, q, ComparisonLevel)
    ensures ParseComparand(ts, m, e.left) == Success(Parsed(e, q))
    decreases q - m - 1, 3
  {
    hide Writes, WritesList, ParseArithmetic, ArithmeticLoop, ParseList;
    if e.operator == "in" {
      WrittenListParses(ts, m + 2, q - 1, e.right.items);
    } else {
      WrittenArithmeticParses(ts, m + 1, q, e.right);
      ArithmeticEnds(ts, q, e.right);
    }
  }

  lemma {:induction false} WrittenNotParses(ts: seq<Token>, p: nat, q: nat, e: FilterExpression)
    requires p <= q <= |ts| && Writes(ts, p, q, e, NotLevel) && Stops(ts, q, NotLevel)
    ensures ParseNot(ts, p) == Success(Parsed(e, q))
    decreases q - p, 4
  {
    hide ParseComparison;
    if Writes(ts, p, q, e, ComparisonLevel) {
      hide Writes;
      Starts(ts, p, q, e, ComparisonLevel);
      WrittenComparisonParses(ts, p, q, e);
    } else {
      WrittenNotParses(ts, p + 1, q, e.operand);
    }
  }

  lemma {:induction false} WrittenAndParses(ts: seq<Token>, p: nat, q: nat, e: FilterExpression)
    requires p <= q <= |ts| && Writes(ts, p, q, e, AndLevel) && Stops(ts, q, NotLevel)
    ensures ParseAnd(ts, p) == AndLoop(ts, q, e)
    decreases q - p, 5
  {
    hide ParseNot;
    if Writes(ts, p, q, e, NotLevel) {
      hide Writes;
      WrittenNotParses(ts, p, q, e);
    } else {
      var m: nat :| p <= m < q && ts[m].kind == LogicalOp && ts[m].value == "and"
                 && Writes(ts, p, m, e.left, AndLevel) && Writes(ts, m + 1, q, e.right, NotLevel);
      assert e.Logical? && e.operator == "and";
      hide Writes;
      WrittenAndParses(ts, p, m, e.left);
      WrittenNotParses(ts, m + 1, q, e.right);
    }
  }

  lemma {:induction false} WrittenOrParses(ts: seq<Token>, p: nat, q: nat, e: FilterExpression)
    requires p <= q <= |ts| && Writes(ts, p, q, e, OrLevel) && Stops(ts, q, AndLevel)
    ensures ParseOr(ts, p) == OrLoop(ts, q, e)
    decreases q - p, 6
  {
    hide ParseAnd;
    if Writes(ts, p, q, e, AndLevel) {
      hide Writes;
      WrittenAndParses(ts, p, q, e);
    } else {
      var m: nat :| p <= m < q && ts[m].kind == LogicalOp && ts[m].value == "or"
                 && Writes(ts, p, m, e.left, OrLevel) && Writes(ts, m + 1, q, e.right, AndLevel);
      assert e.Logical? && e.operator == "or";
      hide Writes;
      WrittenOrParses(ts, p, m, e.left);
      WrittenAndParses(ts, m + 1, q, e.right);
    }
  }

  lemma {:induction false} WholeParses(ts: seq<Token>, p: nat, q: nat, e: FilterExpression)
    requires p <= q <= |ts| && Writes(ts, p, q, e, OrLevel) && Stops(ts, q, OrLevel)
    ensures ParseOr(ts, p) == Success(Parsed(e, q))
    decreases q - p, 7
  {
    hide Writes, ParseOr;
    WrittenOrParses(ts, p, q, e);
  }

  lemma {:induction false} WrittenListParses(ts: seq<Token>, p: nat, q: nat, items: seq<FilterExpression>)
    requires p <= q <= |ts| && WritesList(ts, p, q, items) && KindAt(ts, q) == Some(RParen)
    ensures ParseList(ts, p) == Success(Parsed(items, q))
    decreases q - p, 9
  {
    hide Writes, ParseOr;
    if items != [] {
      hide WritesList;
      WrittenItemsParse(ts, p, q, items);
    }
  }

  lemma {:induction false} WrittenItemsParse(ts: seq<Token>, p: nat, q: nat, items: seq<FilterExpression>)
    requires p <= q <= |ts| && WritesList(ts, p, q, items) && items != []
    requires KindAt(ts, q) == Some(RParen) || KindAt(ts, q) == Some(Comma)
    ensures ParseList(ts, p) == ListLoop(ts, q, items)
    decreases q - p, 8
  {
    hide Writes, ParseOr, ParseList, ListLoop;
    if |items| == 1 {
      WholeParses(ts, p, q, items[0]);
      Starts(ts, p, q, items[0], OrLevel);
      ListStarts(ts, p);
      assert items == [items[0]];
    } else {
      var init, item := items[..|items| - 1], items[|items| - 1];
      var m: nat :| p <= m < q && ts[m].kind == Comma && WritesList(ts, p, m, init) && Writes(ts, m + 1, q, item, OrLevel);
      WrittenItemsParse(ts, p, m, init);
      WholeParses(ts, m + 1, q, item);
      ListStep(ts, m, init);
      assert items == init + [item];
    }
  }

  // What is parsed is written

  lemma {:induction false} OrLoopWrites(ts: seq<Token>, p: nat, m: nat, left: FilterExpression)
    requires p < m <= |ts| && Writes(ts, p, m, left, OrLevel) && OrLoop(ts, m, left).Success?
    ensures var r := OrLoop(ts, m, left).value; p < r.next && Writes(ts, p, r.next, r.value, OrLevel)
    decreases |ts| - m, 0
  {
    hide ParseAnd;
    if IsLogicalAt(ts, m, "or") {
      var right := ParseAnd(ts, m + 1).value;
      AndWrites(ts, m + 1);
      var more := Logical("or", left, right.value);
      assert WritesLogical(ts, p, right.next, more, "or", OrLevel, AndLevel);
      assert Writes(ts, p, right.next, more, OrLevel);
      hide Writes;
      OrLoopWrites(ts, p, right.next, more);
    }
  }

  lemma {:induction false} OrWrites(ts: seq<Token>, p: nat)
    requires p <= |ts| && ParseOr(ts, p).Success?
    ensures var r := ParseOr(ts, p).value; Writes(ts, p, r.next, r.value, OrLevel)
    decreases |ts| - p, 8
  {
    hide ParseAnd, OrLoop;
    var left := ParseAnd(ts, p).value;
    AndWrites(ts, p);
    assert Writes(ts, p, left.next, left.value, OrLevel);
    hide Writes;
    OrLoopWrites(ts, p, left.next, left.value);
  }

  lemma {:induction false} AndLoopWrites(ts: seq<Token>, p: nat, m: nat, left: FilterExpression)
    requires p < m <= |ts| && Writes(ts, p, m, left, AndLevel) && AndLoop(ts, m, left).Success?
    ensures var r := AndLoop(ts, m, left).value; p < r.next && Writes(ts, p, r.next, r.value, AndLevel)
    decreases |ts| - m, 0
  {
    hide ParseNot;
    if IsLogicalAt(ts, m, "and") {
      var right := ParseNot(ts, m + 1).value;
      NotWrites(ts, m + 1);
      var more := Logical("and", left, right.value);
      assert WritesLogical(ts, p, right.next, more, "and", AndLevel, NotLevel);
      assert Writes(ts, p, right.next, more, AndLevel);
      hide Writes;
      AndLoopWrites(ts, p, right.next, more);
    }
  }

  lemma {:induction false} AndWrites(ts: seq<Token>, p: nat)
    requires p <= |ts| && ParseAnd(ts, p).Success?
    ensures var r := ParseAnd(ts, p).value; Writes(ts, p, r.next, r.value, AndLevel)
    decreases |ts| - p, 7
  {
    hide ParseNot, AndLoop;
    var left := ParseNot(ts, p).value;
    NotWrites(ts, p);
    assert Writes(ts, p, left.next, left.value, AndLevel);
    hide Writes;
    AndLoopWrites(ts, p, left.next, left.value);
  }

  lemma {:induction false} NotWrites(ts: seq<Token>, p: nat)
    requires p <= |ts| && ParseNot(ts, p).Success?
    ensures var r := ParseNot(ts, p).value; Writes(ts, p, r.next, r.value, NotLevel)
    decreases |ts| - p, 6
  {
    hide ParseComparison;
    if KindAt(ts, p) == Some(NotOp) {
      NotWrites(ts, p + 1);
    } else {
      ComparisonWrites(ts, p);
    }
  }

  lemma {:induction false} ComparisonWrites(ts: seq<Token>, p: nat)
    requires p <= |ts| && ParseComparison(ts, p).Success?
    ensures var r := ParseComparison(ts, p).value; Writes(ts, p, r.next, r.value, ComparisonLevel)
    decreases |ts| - p, 5
  {
    hide ParseArithmetic, ParseComparand, WritesComparand;
    var left := ParseArithmetic(ts, p).value;
    ArithmeticWrites(ts, p);
    if KindAt(ts, left.next) == Some(ComparisonOp) {
      var r := ParseComparand(ts, left.next, left.value).value;
      ComparandWrites(ts, left.next, left.value);
      assert WritesComparison(ts, p, r.next, r.value);
    }
  }

  lemma {:induction false} ComparandWrites(ts: seq<Token>, m: nat, left: FilterExpression)
    requires m < |ts| && ParseComparand(ts, m, left).Success?
    ensures var r := ParseComparand(ts, m, left).value;
            && r.value.Comparison? && r.value.operator == ts[m].value && r.value.left == left
            && WritesComparand(ts, m + 1, r.next, r.value)
    decreases |ts| - m, 0
  {
    hide ParseArithmetic, ParseList, Writes, WritesList;
    if ts[m].value == "in" {
      ListWrites(ts, m + 2);
    } else {
      ArithmeticWrites(ts, m + 1);
    }
  }

  lemma {:induction false} ListWrites(ts: seq<Token>, p: nat)
    requires p <= |ts| && ParseList(ts, p).Success?
    ensures var r := ParseList(ts, p).value; WritesList(ts, p, r.next, r.value)
    decreases |ts| - p, 9
  {
    hide ParseOr, ListLoop, Writes;
    if KindAt(ts, p) != Some(RParen) {
      var first := ParseOr(ts, p).value;
      OrWrites(ts, p);
      assert WritesList(ts, p, first.next, [first.value]);
      hide WritesList;
      ListLoopWrites(ts, p, first.next, [first.value]);
    }
  }

  lemma {:induction false} ListLoopWrites(ts: seq<Token>, p: nat, m: nat, items: seq<FilterExpression>)
    requires p < m <= |ts| && items != [] && WritesList(ts, p, m, items) && ListLoop(ts, m, items).Success?
    ensures var r := ListLoop(ts, m, items).value; p < r.next && WritesList(ts, p, r.next, r.value)
    decreases |ts| - m, 0
  {
    hide ParseOr, Writes;
    if KindAt(ts, m) == Some(Comma) {
      var item := ParseOr(ts, m + 1).value;
      OrWrites(ts, m + 1);
      var more := items + [item.value];
      assert more[..|more| - 1] == items;
      assert WritesList(ts, p, item.next, more);
      hide WritesList;
      ListLoopWrites(ts, p, item.next, more);
    }
  }

  lemma {:induction false} ArithmeticWrites(ts: seq<Token>, p: nat)
    requires p <= |ts| && ParseArithmetic(ts, p).Success?
    ensures var r := ParseArithmetic(ts, p).value; Writes(ts, p, r.next, r.value, ArithmeticLevel)
    decreases |ts| - p, 4
  {
    hide ParsePrimary, ArithmeticLoop;
    var left := ParsePrimary(ts, p).value;
    PrimaryWrites(ts, p);
    assert Writes(ts, p, left.next, left.value, ArithmeticLevel);
    hide Writes;
    ArithmeticLoopWrites(ts, p, left.next, left.value);
  }

  lemma {:induction false} ArithmeticLoopWrites(ts: seq<Token>, p: nat, m: nat, left: FilterExpression)
    requires p < m <= |ts| && Writes(ts, p, m, left, ArithmeticLevel) && ArithmeticLoop(ts, m, left).Success?
    ensures var r := ArithmeticLoop(ts, m, left).value; p < r.next && Writes(ts, p, r.next, r.value, ArithmeticLevel)
    decreases |ts| - m, 0
  {
    hide ParsePrimary;
    if KindAt(ts, m) == Some(ArithmeticOp) {
      var right := ParsePrimary(ts, m + 1).value;
      PrimaryWrites(ts, m + 1);
      var more := Arithmetic(ts[m].value, left, right.value);
      assert Writes(ts, p, right.next, more, ArithmeticLevel);
      hide Writes;
      ArithmeticLoopWrites(ts, p, right.next, more);
    }
  }

  lemma {:induction false} PrimaryWrites(ts: seq<Token>, p: nat)
    requires p <= |ts| && ParsePrimary(ts, p).Success?
    ensures var r := ParsePrimary(ts, p).value; Writes(ts, p, r.next, r.value, PrimaryLevel)
    decreases |ts| - p, 3
  {
    hide PathLoop, ParseOr, ParseList, WritesPath, WritesList, Denotes;
    var token := ts[p];
    if token.kind == FunctionToken {
      ListWrites(ts, p + 2);
    } else if token.kind == LParen {
      OrWrites(ts, p + 1);
    } else if LiteralOf(token).Some? {
      LiteralDenotes(token);
    } else {
      NameWrites(ts, p);
      PathLoopWrites(ts, p, p + 1, Property(token.value));
    }
  }

  lemma LiteralDenotes(token: Token)
    requires LiteralOf(token).Some?
    ensures var e := LiteralOf(token).value; e.Literal? && Denotes(token, e.value, e.dataType)
  {
  }

  lemma NameWrites(ts: seq<Token>, p: nat)
    requires p < |ts| && ts[p].kind == PropertyToken
    ensures WritesPath(ts, p, p + 1, Property(ts[p].value))
  {
  }

  lemma {:induction false} PathLoopWrites(ts: seq<Token>, p: nat, m: nat, e: FilterExpression)
    requires p < m <= |ts| && WritesPath(ts, p, m, e) && PathLoop(ts, m, e).Success?
    ensures var r := PathLoop(ts, m, e).value; p < r.next && WritesPath(ts, p, r.next, r.value)
    decreases |ts| - m, 1
  {
    hide ParseLambda, WritesLambda;
    if KindAt(ts, m) == Some(Slash) {
      if KindAt(ts, m + 1) == Some(LambdaOp) {
        var lambda := ParseLambda(ts, m + 1, e).value;
        LambdaWrites(ts, m, e);
        hide WritesPath;
        LambdaIsWritten(ts, p, m, lambda.next, lambda.value);
        PathLoopWrites(ts, p, lambda.next, lambda.value);
      } else {
        var longer := Property(e.name + "/" + ts[m + 1].value);
        hide WritesPath;
        PartIsWritten(ts, p, m, e.name);
        PathLoopWrites(ts, p, m + 2, longer);
      }
    }
  }

  lemma {:induction false} LambdaWrites(ts: seq<Token>, p: nat, source: FilterExpression)
    requires KindAt(ts, p) == Some(Slash) && KindAt(ts, p + 1) == Some(LambdaOp) && ParseLambda(ts, p + 1, source).Success?
    ensures var r := ParseLambda(ts, p + 1, source).value;
            r.value.Lambda? && r.value.source == source && WritesLambda(ts, p, r.next, r.value)
    decreases |ts| - p, 0
  {
    hide ParseOr, Writes;
    if KindAt(ts, p + 3) != Some(RParen) {
      OrWrites(ts, p + 5);
    }
  }

  // Rows, by production

  lemma Looser(ts: seq<Token>, p: nat, q: nat, e: FilterExpression, tight: Level, loose: Level)
    requires p <= q <= |ts| && Writes(ts, p, q, e, tight) && Rank(loose) <= Rank(tight)
    ensures Writes(ts, p, q, e, loose)
    decreases Rank(tight) - Rank(loose)
  {
    if loose != tight {
      var next := match loose
        case OrLevel => AndLevel
        case AndLevel => NotLevel
        case NotLevel => ComparisonLevel
        case ComparisonLevel => ArithmeticLevel
        case _ => PrimaryLevel;
      Looser(ts, p, q, e, tight, next);
    }
  }

  lemma PartIsWritten(ts: seq<Token>, p: nat, m: nat, prefix: string)
    requires p < m && m + 2 <= |ts| && WritesPath(ts, p, m, Property(prefix)) && ts[m].kind == Slash && ts[m + 1].kind == PropertyToken
    ensures WritesPath(ts, p, m + 2, Property(prefix + "/" + ts[m + 1].value))
  {
    hide WritesLambda;
  }

  lemma LambdaEnds(ts: seq<Token>, p: nat, q: nat, e: FilterExpression)
    requires p + 4 <= q <= |ts| && e.Lambda?
    requires ts[p].kind == Slash && ts[p + 1].kind == LambdaOp && ts[p + 1].value == e.operator && Encloses(ts, p + 2, q)
    requires if q == p + 4 then e.variable == "" && e.condition == EMPTY_CONDITION
             else p + 6 <= q && ts[p + 3].kind == PropertyToken && ts[p + 3].value == e.variable && ts[p + 4].kind == Colon
                  && Writes(ts, p + 5, q - 1, e.condition, OrLevel)
    ensures WritesLambda(ts, p, q, e)
  {
  }

  lemma LambdaIsWritten(ts: seq<Token>, p: nat, m: nat, q: nat, e: FilterExpression)
    requires p <= m < q <= |ts| && e.Lambda? && WritesPath(ts, p, m, e.source) && WritesLambda(ts, m, q, e)
    ensures WritesPath(ts, p, q, e)
  {
    hide WritesLambda;
  }

  lemma PathIsWritten(ts: seq<Token>, p: nat, q: nat, e: FilterExpression, level: Level)
    requires p <= q <= |ts| && WritesPath(ts, p, q, e)
    ensures Writes(ts, p, q, e, level)
  {
    hide WritesPath, WritesList, WritesComparison, WritesLogical;
    assert Writes(ts, p, q, e, PrimaryLevel);
    hide Writes;
    Looser(ts, p, q, e, PrimaryLevel, level);
  }

  lemma LogicalIsWritten(ts: seq<Token>, p: nat, m: nat, q: nat, e: FilterExpression)
    requires p <= m < q <= |ts| && e.Logical? && ts[m].kind == LogicalOp && ts[m].value == e.operator
    requires || (e.operator == "or" && Writes(ts, p, m, e.left, OrLevel) && Writes(ts, m + 1, q, e.right, AndLevel))
             || (e.operator == "and" && Writes(ts, p, m, e.left, AndLevel) && Writes(ts, m + 1, q, e.right, NotLevel))
    ensures Writes(ts, p, q, e, LevelOf(e))
  {
    if e.operator == "or" {
      assert WritesLogical(ts, p, q, e, "or", OrLevel, AndLevel);
    } else {
      assert WritesLogical(ts, p, q, e, "and", AndLevel, NotLevel);
    }
  }

  lemma ArithmeticIsWritten(ts: seq<Token>, p: nat, m: nat, q: nat, e: FilterExpression)
    requires p <= m < q <= |ts| && e.Arithmetic? && ts[m].kind == ArithmeticOp && ts[m].value == e.operator
    requires Writes(ts, p, m, e.left, ArithmeticLevel) && Writes(ts, m + 1, q, e.right, PrimaryLevel)
    ensures Writes(ts, p, q, e, ArithmeticLevel)
  {
    hide WritesPath, WritesList;
  }

  lemma ComparisonIsWritten(ts: seq<Token>, p: nat, m: nat, q: nat, e: FilterExpression)
    requires p <= m < q <= |ts| && e.Comparison? && e.operator != "in" && ts[m].kind == ComparisonOp && ts[m].value == e.operator
    requires Writes(ts, p, m, e.left, ArithmeticLevel) && Writes(ts, m + 1, q, e.right, ArithmeticLevel)
    ensures Writes(ts, p, q, e, ComparisonLevel)
  {
    hide WritesPath, WritesList;
    assert WritesComparand(ts, m + 1, q, e);
    assert WritesComparison(ts, p, q, e);
  }

  lemma InIsWritten(ts: seq<Token>, p: nat, m: nat, q: nat, e: FilterExpression)
    requires p <= m && m + 3 <= q <= |ts| && e.Comparison? && e.operator == "in" && e.right.Collection?
    requires ts[m].kind == ComparisonOp && ts[m].value == "in" && Encloses(ts, m + 1, q)
    requires Writes(ts, p, m, e.left, ArithmeticLevel) && WritesList(ts, m + 2, q - 1, e.right.items)
    ensures Writes(ts, p, q, e, ComparisonLevel)
  {
    hide WritesPath, WritesList;
    assert WritesComparand(ts, m + 1, q, e);
    assert WritesComparison(ts, p, q, e);
  }

  lemma NotIsWritten(ts: seq<Token>, p: nat, q: nat, e: FilterExpression)
    requires p < q <= |ts| && e.Not? && ts[p].kind == NotOp && Writes(ts, p + 1, q, e.operand, NotLevel)
    ensures Writes(ts, p, q, e, NotLevel)
  {
    hide WritesPath, WritesList, WritesComparison;
  }

  lemma GroupIsWritten(ts: seq<Token>, p: nat, q: nat, e: FilterExpression)
    requires p + 2 <= q <= |ts| && Encloses(ts, p, q) && Writes(ts, p + 1, q - 1, e, OrLevel)
    ensures Writes(ts, p, q, e, PrimaryLevel)
  {
    hide WritesPath, WritesList;
  }

  lemma FunctionIsWritten(ts: seq<Token>, p: nat, q: nat, e: FilterExpression)
    requires p + 3 <= q <= |ts| && e.FunctionCall? && ts[p].kind == FunctionToken && ts[p].value == e.name
    requires Encloses(ts, p + 1, q) && WritesList(ts, p + 2, q - 1, e.args)
    ensures Writes(ts, p, q, e, PrimaryLevel)
  {
    hide WritesPath, WritesList;
  }

  lemma NameIsWritten(ts: seq<Token>, p: nat, name: string, level: Level)
    requires p < |ts| && ts[p].kind == PropertyToken && ts[p].value == name
    ensures Writes(ts, p, p + 1, Property(name), level)
  {
    assert WritesPath(ts, p, p + 1, Property(name));
    assert Writes(ts, p, p + 1, Property(name), PrimaryLevel);
    Looser(ts, p, p + 1, Property(name), PrimaryLevel, level);
  }

  lemma TextDenotes(token: Token, value: LiteralValue, dataType: LiteralDataType)
    requires token.kind == LiteralKind(dataType) && token.value == ValueText(value) && WellFormedLiteral(value, dataType)
    ensures Denotes(token, value, dataType)
  {
    hide ValidLexeme, IsNumber, NumeralOf;
  }

  lemma LiteralIsWritten(ts: seq<Token>, p: nat, value: LiteralValue, dataType: LiteralDataType, level: Level)
    requires p < |ts| && ts[p].kind == LiteralKind(dataType) && ts[p].value == ValueText(value)
    requires WellFormedLiteral(value, dataType)
    ensures Writes(ts, p, p + 1, Literal(value, dataType), level)
  {
    TextDenotes(ts[p], value, dataType);
    hide LiteralKind, ValueText, WellFormedLiteral, Denotes, WritesPath, WritesList;
    assert Writes(ts, p, p + 1, Literal(value, dataType), PrimaryLevel);
    Looser(ts, p, p + 1, Literal(value, dataType), PrimaryLevel, level);
  }

  // The theorems

  /** The parser is the grammar: a row of tokens parses to a tree exactly when it writes the tree. */
  lemma ParsesExactly(ts: seq<Token>, e: FilterExpression)
    ensures ParseTokens(ts) == Success(e) <==> Writes(ts, 0, |ts|, e, OrLevel)
  {
    hide Writes, ParseOr;
    if Writes(ts, 0, |ts|, e, OrLevel) {
      Starts(ts, 0, |ts|, e, OrLevel);
      WholeParses(ts, 0, |ts|, e);
    }
    if ParseTokens(ts) == Success(e) {
      OrWrites(ts, 0);
    }
  }

  /** No row of tokens writes two trees. */
  lemma WritesOneTree(ts: seq<Token>, e: FilterExpression, f: FilterExpression)
    requires Writes(ts, 0, |ts|, e, OrLevel) && Writes(ts, 0, |ts|, f, OrLevel)
    ensures e == f
  {
    hide Writes, ParseTokens;
    ParsesExactly(ts, e);
    ParsesExactly(ts, f);
  }
}
