/** The parser as the program runs it: rules that share one cursor into the tokens. */
module FilterParserState {
  import opened Strings
  import opened FilterTypes
  import opened FilterLexer
  import opened FilterNumerals
  import opened FilterGrammar
  import opened FilterParser
  import opened FilterTokenizer

  class ParserState {
    const tokens: seq<Token>
    var pos: nat

    ghost predicate Valid()
      reads this
    {
      pos <= |tokens|
    }

    /** What a rule's function finds, its method returns; and the cursor is left after it. */
    ghost predicate Agrees(spec: ParseResult<FilterExpression>, r: Result<FilterExpression, FilterError>)
      reads this
    {
      match spec
      case Failure(error) => r == Failure(error)
      case Success(parsed) => r == Success(parsed.value) && pos == parsed.next
    }

    constructor (tokens: seq<Token>)
      ensures Valid() && this.tokens == tokens && pos == 0
    {
      this.tokens := tokens;
      pos := 0;
    }

    function Peek(): (kind: Option<TokenType>)
      reads this
      ensures kind == KindAt(tokens, pos)
    {
      if pos < |tokens| then Some(tokens[pos].kind) else None
    }

    /** `advance`, where a token has been seen ahead. */
    method Step() returns (token: Token)
      requires pos < |tokens|
      modifies this`pos
      ensures Valid() && token == tokens[old(pos)] && pos == old(pos) + 1
    {
      token := tokens[pos];
      pos := pos + 1;
    }

    method Advance() returns (r: Result<Token, FilterError>)
      requires Valid()
      modifies this`pos
      ensures Valid() && r == FilterParser.Advance(tokens, old(pos))
      ensures pos == if r.Success? then old(pos) + 1 else old(pos)
    {
      if pos < |tokens| {
        var token := Step();
        r := Success(token);
      } else {
        r := Failure(ParseError(UnexpectedEnd, if |tokens| > 0 then tokens[|tokens| - 1].position else 0));
      }
    }

    method Expect(kind: TokenType) returns (r: Result<Token, FilterError>)
      requires Valid()
      modifies this`pos
      ensures Valid() && r == FilterParser.Expect(tokens, old(pos), kind)
      ensures r.Success? ==> pos == old(pos) + 1
    {
      var token :- Advance();
      if token.kind != kind {
        return Failure(ParseError(Expected(kind, token.value), token.position));
      }
      r := Success(token);
    }

    method ParseOrExpr() returns (r: Result<FilterExpression, FilterError>)
      requires Valid()
      modifies this`pos
      ensures Valid() && Agrees(ParseOr(tokens, old(pos)), r)
      decreases |tokens| - pos, 8
    {
      hide ParseAnd;
      var left :- ParseAndExpr();
      while IsLogicalAt(tokens, pos, "or")
        invariant Valid() && old(pos) < pos && OrLoop(tokens, pos, left) == ParseOr(tokens, old(pos))
        decreases |tokens| - pos
      {
        var _ := Step();
        var right :- ParseAndExpr();
        left := Logical("or", left, right);
      }
      r := Success(left);
    }

    method ParseAndExpr() returns (r: Result<FilterExpression, FilterError>)
      requires Valid()
      modifies this`pos
      ensures Valid() && Agrees(ParseAnd(tokens, old(pos)), r)
      decreases |tokens| - pos, 7
    {
      hide ParseNot;
      var left :- ParseNotExpr();
      while IsLogicalAt(tokens, pos, "and")
        invariant Valid() && old(pos) < pos && AndLoop(tokens, pos, left) == ParseAnd(tokens, old(pos))
        decreases |tokens| - pos
      {
        var _ := Step();
        var right :- ParseNotExpr();
        left := Logical("and", left, right);
      }
      r := Success(left);
    }

    method ParseNotExpr() returns (r: Result<FilterExpression, FilterError>)
      requires Valid()
      modifies this`pos
      ensures Valid() && Agrees(ParseNot(tokens, old(pos)), r)
      decreases |tokens| - pos, 6
    {
      hide ParseComparison;
      if Peek() == Some(NotOp) {
        var _ := Step();
        var operand :- ParseNotExpr();
        return Success(Not(operand));
      }
      r := ParseComparisonExpr();
    }

    method ParseComparisonExpr() returns (r: Result<FilterExpression, FilterError>)
      requires Valid()
      modifies this`pos
      ensures Valid() && Agrees(ParseComparison(tokens, old(pos)), r)
      decreases |tokens| - pos, 5
    {
      hide ParseArithmetic, ParseList;
      var left :- ParseArithmeticExpr();
      if Peek() == Some(ComparisonOp) {
        var token := Step();
        var operator := token.value;
        if operator == "in" {
          var _ :- Expect(LParen);
          var items :- ParseItems();
          var _ :- Expect(RParen);
          return Success(Comparison("in", left, Collection(items)));
        }
        var right :- ParseArithmeticExpr();
        return Success(Comparison(operator, left, right));
      }
      r := Success(left);
    }

    /** The expressions of a list or of a call's arguments, up to its closing parenthesis. */
    method ParseItems() returns (r: Result<seq<FilterExpression>, FilterError>)
      requires Valid()
      modifies this`pos
      ensures Valid()
      ensures match ParseList(tokens, old(pos))
              case Failure(error) => r == Failure(error)
              case Success(parsed) => r == Success(parsed.value) && pos == parsed.next
      decreases |tokens| - pos, 9
    {
      hide ParseOr;
      var items := [];
      if Peek() != Some(RParen) {
        var first :- ParseOrExpr();
        items := [first];
        while Peek() == Some(Comma)
          invariant Valid() && old(pos) < pos && ListLoop(tokens, pos, items) == ParseList(tokens, old(pos))
          decreases |tokens| - pos
        {
          var _ := Step();
          var item :- ParseOrExpr();
          items := items + [item];
        }
      }
      r := Success(items);
    }

    method ParseArithmeticExpr() returns (r: Result<FilterExpression, FilterError>)
      requires Valid()
      modifies this`pos
      ensures Valid() && Agrees(ParseArithmetic(tokens, old(pos)), r)
      decreases |tokens| - pos, 4
    {
      hide ParsePrimary;
      var left :- ParsePrimaryExpr();
      while Peek() == Some(ArithmeticOp)
        invariant Valid() && old(pos) < pos && ArithmeticLoop(tokens, pos, left) == ParseArithmetic(tokens, old(pos))
        decreases |tokens| - pos
      {
        var operator := Step();
        var right :- ParsePrimaryExpr();
        left := Arithmetic(operator.value, left, right);
      }
      r := Success(left);
    }

    method ParsePrimaryExpr() returns (r: Result<FilterExpression, FilterError>)
      requires Valid()
      modifies this`pos
      ensures Valid() && Agrees(ParsePrimary(tokens, old(pos)), r)
      decreases |tokens| - pos, 3
    {
      hide FilterParser.ParseFunctionCall, FilterParser.ParseGrouping, PathLoop, NumeralOf;
      if pos == |tokens| {
        return Failure(ParseError(UnexpectedEnd, 0));
      }
      var token := tokens[pos];
      if token.kind == FunctionToken {
        r := ParseFunctionCall();
      } else if token.kind == LParen {
        r := ParseGrouping();
      } else if LiteralOf(token).Some? {
        var _ := Step();
        r := Success(LiteralOf(token).value);
      } else if token.kind == PropertyToken {
        r := ParsePath();
      } else {
        r := Failure(ParseError(UnexpectedToken(token.value), token.position));
      }
    }

    /** A name, and the names and lambdas that slashes add to it. */
    method ParsePath() returns (r: Result<FilterExpression, FilterError>)
      requires Valid() && Peek() == Some(PropertyToken)
      modifies this`pos
      ensures Valid() && Agrees(PathLoop(tokens, old(pos) + 1, Property(tokens[old(pos)].value)), r)
      decreases |tokens| - pos, 2
    {
      hide FilterParser.ParseLambda;
      var first := Step();
      var expr := Property(first.value);
      while Peek() == Some(Slash)
        invariant Valid() && old(pos) < pos
        invariant PathLoop(tokens, pos, expr) == PathLoop(tokens, old(pos) + 1, Property(tokens[old(pos)].value))
        decreases |tokens| - pos
      {
        var _ := Step();
        if Peek() == Some(LambdaOp) {
          expr :- ParseLambda(expr);
        } else if Peek() == Some(PropertyToken) {
          var part := Step();
          if !expr.Property? {
            return Failure(ParseError(ExpectedProperty, 0));
          }
          expr := Property(expr.name + "/" + part.value);
        } else {
          return Failure(ParseError(ExpectedPathPart, if pos < |tokens| then tokens[pos].position else 0));
        }
      }
      r := Success(expr);
    }

    method ParseLambda(source: FilterExpression) returns (r: Result<FilterExpression, FilterError>)
      requires Valid() && pos < |tokens|
      modifies this`pos
      ensures Valid() && Agrees(FilterParser.ParseLambda(tokens, old(pos), source), r)
      decreases |tokens| - pos, 1
    {
      hide ParseOr;
      var operator := Step();
      var _ :- Expect(LParen);
      if Peek() == Some(RParen) {
        var _ := Step();
        return Success(Lambda(operator.value, "", source, EMPTY_CONDITION));
      }
      var variable :- Advance();
      if variable.kind != PropertyToken {
        return Failure(ParseError(ExpectedVariable(variable.value), variable.position));
      }
      var _ :- Expect(Colon);
      var condition :- ParseOrExpr();
      var _ :- Expect(RParen);
      r := Success(Lambda(operator.value, variable.value, source, condition));
    }

    method ParseFunctionCall() returns (r: Result<FilterExpression, FilterError>)
      requires Valid() && pos < |tokens|
      modifies this`pos
      ensures Valid() && Agrees(FilterParser.ParseFunctionCall(tokens, old(pos)), r)
      decreases |tokens| - pos, 2
    {
      hide ParseList;
      var name := Step();
      var _ :- Expect(LParen);
      var args :- ParseItems();
      var _ :- Expect(RParen);
      r := Success(FunctionCall(name.value, args));
    }

    method ParseGrouping() returns (r: Result<FilterExpression, FilterError>)
      requires Valid() && pos < |tokens|
      modifies this`pos
      ensures Valid() && Agrees(FilterParser.ParseGrouping(tokens, old(pos)), r)
      decreases |tokens| - pos, 2
    {
      hide ParseOr;
      var _ := Step();
      var expr :- ParseOrExpr();
      var _ :- Expect(RParen);
      r := Success(expr);
    }
  }

  /** `parseFilter`: the lexer, then the parser, then nothing may be left. */
  method ParseFilterString(filter: string) returns (r: Result<FilterExpression, FilterError>)
    ensures r == ParseFilter(filter)
  {
    hide ParseOr, Lex;
    var tokenizer := new Tokenizer(filter);
    var lexed := tokenizer.Tokenize();
    if lexed.Failure? {
      return Failure(LexError(lexed.error));
    }
    var tokens := lexed.value;
    if |tokens| == 0 {
      return Failure(ParseError(EmptyFilter, 0));
    }
    var state := new ParserState(tokens);
    var ast :- state.ParseOrExpr();
    if state.pos < |tokens| {
      var left := tokens[state.pos];
      return Failure(ParseError(TrailingToken(left.value), left.position));
    }
    r := Success(ast);
  }
}
