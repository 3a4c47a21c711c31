/** What a printed and/or tree comes back as: the same operands in order, `and` before `or`, each grouped to the left. */
module FilterRegroup {
  import opened Strings
  import opened FilterTypes
  import opened FilterLexemes
  import opened FilterSerializer
  import opened FilterGrammar
  import opened FilterPrinting
  import opened FilterParser
  import opened FilterRoundTrip
  import opened FilterExact
  import opened FilterGrouping

  /** A tree of `and` and `or` over expressions the grammar needs no parentheses for. */
  predicate IsSpine(e: FilterExpression) {
    if e.Logical? then IsSpine(e.left) && IsSpine(e.right) else Grouped(e, NotLevel)
  }

  type Terms = ts: seq<seq<FilterExpression>> | ts != [] && forall t <- ts :: t != []
    witness [[Literal(Null, NullType)]]

  /** Left to right: the terms that `or` separates, each the operands that `and` separates. */
  function TermsOf(e: FilterExpression): Terms {
    if e.Logical? then
      var a, b := TermsOf(e.left), TermsOf(e.right);
      if e.operator == "or" then a + b
      else a[..|a| - 1] + [a[|a| - 1] + b[0]] + b[1..]
    else [[e]]
  }

  function Conjunction(operands: seq<FilterExpression>): FilterExpression
    requires operands != []
  {
    if |operands| == 1 then operands[0]
    else Logical("and", Conjunction(operands[..|operands| - 1]), operands[|operands| - 1])
  }

  function Disjunction(terms: Terms): FilterExpression
    decreases |terms|
  {
    if |terms| == 1 then Conjunction(terms[0])
    else Logical("or", Disjunction(terms[..|terms| - 1]), Conjunction(terms[|terms| - 1]))
  }

  function Regroup(e: FilterExpression): FilterExpression {
    Disjunction(TermsOf(e))
  }

  // The regrouped tree prints the same tokens

  const AND_PIECE := Spaced(LogicalOp, "and")
  const OR_PIECE := Spaced(LogicalOp, "or")

  lemma {:induction false} ConjunctionPieces(a: seq<FilterExpression>, b: seq<FilterExpression>)
    requires a != [] && b != []
    ensures Pieces(Conjunction(a + b)) == Pieces(Conjunction(a)) + [AND_PIECE] + Pieces(Conjunction(b))
    decreases |b|
  {
    hide PathPieces, ListPieces;
    var ab, last := a + b, b[|b| - 1];
    assert ab[|ab| - 1] == last;
    if |b| == 1 {
      assert ab[..|ab| - 1] == a;
    } else {
      assert ab[..|ab| - 1] == a + b[..|b| - 1];
      ConjunctionPieces(a, b[..|b| - 1]);
      var x, y, z := Pieces(Conjunction(a)), Pieces(Conjunction(b[..|b| - 1])), Pieces(last);
      assert x + [AND_PIECE] + y + [AND_PIECE] + z == x + [AND_PIECE] + (y + [AND_PIECE] + z);
    }
  }

  lemma {:induction false} DisjunctionPieces(a: Terms, b: Terms)
    ensures Pieces(Disjunction(a + b)) == Pieces(Disjunction(a)) + [OR_PIECE] + Pieces(Disjunction(b))
    decreases |b|
  {
    hide PathPieces, ListPieces;
    var ab: Terms, last := a + b, b[|b| - 1];
    assert ab[|ab| - 1] == last;
    if |b| == 1 {
      assert ab[..|ab| - 1] == a;
    } else {
      var init: Terms := b[..|b| - 1];
      assert ab[..|ab| - 1] == a + init;
      DisjunctionPieces(a, init);
      var x, y, z := Pieces(Disjunction(a)), Pieces(Disjunction(init)), Pieces(Conjunction(last));
      assert x + [OR_PIECE] + y + [OR_PIECE] + z == x + [OR_PIECE] + (y + [OR_PIECE] + z);
    }
  }

  /** The terms before one, and those after it, with the `or` that sets them apart. */
  function Before(terms: seq<seq<FilterExpression>>): seq<Piece>
    requires forall t <- terms :: t != []
  {
    if terms == [] then [] else Pieces(Disjunction(terms)) + [OR_PIECE]
  }

  function After(terms: seq<seq<FilterExpression>>): seq<Piece>
    requires forall t <- terms :: t != []
  {
    if terms == [] then [] else [OR_PIECE] + Pieces(Disjunction(terms))
  }

  lemma AroundTerm(a: seq<seq<FilterExpression>>, t: seq<FilterExpression>, b: seq<seq<FilterExpression>>)
    requires t != [] && (forall x <- a :: x != []) && forall x <- b :: x != []
    ensures Pieces(Disjunction(a + [t] + b)) == Before(a) + Pieces(Conjunction(t)) + After(b)
  {
    hide Pieces, Conjunction;
    var at: Terms := a + [t];
    assert Pieces(Disjunction(at)) == Before(a) + Pieces(Conjunction(t)) by {
      if a == [] {
        assert at == [t];
        assert Pieces(Disjunction([t])) == Pieces(Conjunction(t));
      } else {
        DisjunctionPieces(a, [t]);
        assert Disjunction([t]) == Conjunction(t);
      }
    }
    if b == [] {
      assert at + b == at;
    } else {
      DisjunctionPieces(at, b);
      assert Pieces(Disjunction(at)) + [OR_PIECE] + Pieces(Disjunction(b))
          == Pieces(Disjunction(at)) + ([OR_PIECE] + Pieces(Disjunction(b)));
    }
  }

  lemma Regrouped(x: seq<Piece>, y: seq<Piece>, op: seq<Piece>, z: seq<Piece>, w: seq<Piece>)
    ensures x + (y + op + z) + w == (x + y + []) + op + ([] + z + w)
  {
  }

  lemma JoinedTerms(a: Terms, b: Terms)
    ensures Pieces(Disjunction(a[..|a| - 1] + [a[|a| - 1] + b[0]] + b[1..]))
         == Pieces(Disjunction(a)) + [AND_PIECE] + Pieces(Disjunction(b))
  {
    hide Pieces, Conjunction, Disjunction, Before, After;
    var init, last, first, rest := a[..|a| - 1], a[|a| - 1], b[0], b[1..];
    AroundTerm(init, last + first, rest);
    AroundTerm(init, last, []);
    AroundTerm([], first, rest);
    assert init + [last] + [] == a;
    assert [] + [first] + rest == b;
    ConjunctionPieces(last, first);
    NoTermsAround();
    Regrouped(Before(init), Pieces(Conjunction(last)), [AND_PIECE], Pieces(Conjunction(first)), After(rest));
  }

  lemma NoTermsAround()
    ensures Before([]) == [] && After([]) == []
  {
  }

  lemma {:induction false} RegroupPieces(e: FilterExpression)
    requires WellFormed(e)
    ensures Pieces(Regroup(e)) == Pieces(e)
  {
    hide WellFormed, Disjunction, Pieces;
    if e.Logical? {
      BinaryParts(e);
      OperatorIsAnd(e);
      RegroupPieces(e.left);
      RegroupPieces(e.right);
      if e.operator == "or" {
        DisjunctionPieces(TermsOf(e.left), TermsOf(e.right));
      } else {
        JoinedTerms(TermsOf(e.left), TermsOf(e.right));
      }
    } else {
      OneTerm(e);
    }
  }

  lemma OneTerm(e: FilterExpression)
    ensures Disjunction([[e]]) == e
  {
  }

  // The regrouped tree is grouped

  predicate IsOperand(e: FilterExpression) {
    WellFormed(e) && Grouped(e, NotLevel) && SignsKept(e)
  }

  lemma {:induction false} OperandsOf(e: FilterExpression)
    requires WellFormed(e) && IsSpine(e) && SignsKept(e)
    ensures forall t <- TermsOf(e), x <- t :: IsOperand(x)
  {
    hide IsOperand;
    if e.Logical? {
      BinaryParts(e);
      OperandsOf(e.left);
      OperandsOf(e.right);
      var a, b := TermsOf(e.left), TermsOf(e.right);
      forall t, x | t in TermsOf(e) && x in t ensures IsOperand(x) {
        assert a[|a| - 1] in a && b[0] in b;
      }
    } else {
      OperandItself(e);
    }
  }

  lemma OperandItself(e: FilterExpression)
    requires WellFormed(e) && IsSpine(e) && SignsKept(e) && !e.Logical?
    ensures IsOperand(e)
  {
  }

  lemma {:induction false} ConjunctionGrouped(operands: seq<FilterExpression>)
    requires operands != [] && forall x <- operands :: IsOperand(x)
    ensures var c := Conjunction(operands); WellFormed(c) && Grouped(c, AndLevel) && SignsKept(c)
  {
    hide WellFormed, Grouped, SignsKept;
    var last := operands[|operands| - 1];
    assert IsOperand(last);
    if |operands| == 1 {
      GroupedLooser(last, NotLevel, AndLevel);
    } else {
      var init := Conjunction(operands[..|operands| - 1]);
      ConjunctionGrouped(operands[..|operands| - 1]);
      GroupedAnd(init, last);
      LogicalKept("and", init, last);
    }
  }

  lemma LogicalKept(operator: string, left: FilterExpression, right: FilterExpression)
    requires IsLogicalOp(operator) && WellFormed(left) && WellFormed(right) && SignsKept(left) && SignsKept(right)
    ensures var e := Logical(operator, left, right); WellFormed(e) && SignsKept(e)
  {
  }

  lemma {:induction false} DisjunctionGrouped(terms: Terms)
    requires forall t <- terms, x <- t :: IsOperand(x)
    ensures var d := Disjunction(terms); WellFormed(d) && Grouped(d, OrLevel) && SignsKept(d)
    decreases |terms|
  {
    hide WellFormed, Grouped, SignsKept, IsOperand, Conjunction;
    var last := terms[|terms| - 1];
    assert last in terms;
    ConjunctionGrouped(last);
    if |terms| == 1 {
      GroupedLooser(Conjunction(last), AndLevel, OrLevel);
    } else {
      var init: Terms := terms[..|terms| - 1];
      assert forall t <- init :: t in terms;
      DisjunctionGrouped(init);
      GroupedOr(Disjunction(init), Conjunction(last));
      LogicalKept("or", Disjunction(init), Conjunction(last));
    }
  }

  /**
   * Printing an and/or tree loses its grouping and nothing else: parsing the printed string gives the tree's operands in
   * order, regrouped; that tree is canonical, prints the same string, and is the tree itself exactly when it was canonical.
   */
  lemma RegroupedReturns(e: FilterExpression)
    requires WellFormed(e) && IsSpine(e) && SignsKept(e) && Printable(e)
    ensures ParseFilter(AstToFilterString(e)) == Success(Regroup(e))
    ensures Canonical(Regroup(e)) && Printable(Regroup(e)) && AstToFilterString(Regroup(e)) == AstToFilterString(e)
    ensures Regroup(e) == e <==> Canonical(e)
  {
    hide WellFormed, Grouped, SignsKept, AstToFilterString, ParseFilter, Pieces, Disjunction, TermsOf, Printable;
    var r := Regroup(e);
    OperandsOf(e);
    DisjunctionGrouped(TermsOf(e));
    WellFormedPrintable(r);
    RegroupPieces(e);
    RenderPieces(e);
    RenderPieces(r);
    RoundTripExactly(r);
    RoundTripExactly(e);
  }

  // Consequences for what the parser accepts

  /**
   * A filter that parses survives printing and parsing again exactly when its tree is grouped as the grammar groups it
   * and no lambda condition starts with a negative number.
   */
  lemma ParsedSurvivesPrinting(filter: string, e: FilterExpression)
    requires ParseFilter(filter) == Success(e)
    ensures Printable(e)
    ensures ParseFilter(AstToFilterString(e)) == Success(e) <==> Grouped(e, OrLevel) && SignsKept(e)
  {
    hide WellFormed, Grouped, SignsKept, AstToFilterString, ParseFilter, Printable;
    ParsedIsWellFormed(filter, e);
    WellFormedPrintable(e);
    RoundTripExactly(e);
  }

  lemma LetterIsName(name: string)
    requires |name| == 1 && IsLetter(name[0])
    ensures IsName(name)
  {
    hide IsFunctionName;
    assert |Lower(name)| == 1;
  }

  /** The printer is not the inverse its documentation says it is: `(a or b) and c` does not survive printing. */
  lemma PrintingLosesGrouping() returns (filter: string, e: FilterExpression)
    ensures ParseFilter(filter) == Success(e) && Printable(e)
    ensures e == Logical("and", Logical("or", Property("a"), Property("b")), Property("c"))
    ensures ParseFilter(AstToFilterString(e))
         == Success(Logical("or", Property("a"), Logical("and", Property("b"), Property("c"))))
  {
    hide WellFormed, AstToFilterString, ParseFilter, FullText, IsName;
    var a, b, c := Property("a"), Property("b"), Property("c");
    e := Logical("and", Logical("or", a, b), c);
    LetterIsName("a");
    LetterIsName("b");
    LetterIsName("c");
    assert WellFormed(e) by { LettersWellFormed(); }
    filter := FullText(e);
    FullTextParses(e);
    WellFormedPrintable(e);
    RegroupedReturns(e);
    var left, right := TermsOf(Logical("or", a, b)), TermsOf(c);
    assert left == [[a]] + [[b]] == [[a], [b]] && right == [[c]];
    assert left[..1] == [[a]] && [b] + [c] == [b, c] && right[1..] == [];
    assert TermsOf(e) == [[a]] + [[b] + [c]] + [] == [[a], [b, c]];
    assert Conjunction([a]) == a && Conjunction([b, c]) == Logical("and", Conjunction([b, c][..1]), c);
    assert [b, c][..1] == [b] && [[a], [b, c]][..1] == [[a]];
    assert Disjunction([[a], [b, c]]) == Logical("or", Disjunction([[a]]), Conjunction([b, c]));
  }

  lemma LettersWellFormed()
    ensures WellFormed(Logical("and", Logical("or", Property("a"), Property("b")), Property("c")))
  {
    hide IsName, IsFunctionName;
    LetterIsName("a");
    LetterIsName("b");
    LetterIsName("c");
    assert WellFormed(Property("a")) && WellFormed(Property("b")) && WellFormed(Property("c"));
    assert WellFormed(Logical("or", Property("a"), Property("b")));
  }
}
