/** The exact boundary of the `$expand` round trip: the texts that come back are those the parser can give. */
module ExpandExact {
  import opened Strings
  import opened ExpandSplit
  import opened ExpandParser
  import opened ExpandRoundTrip

  /** The property names of a tree are names: nothing in them that separates or encloses. */
  predicate CleanNames(e: ExpandExpression)
    decreases e, 1
  {
    IsProperty(e.property) && (e.options.expand.Clauses? ==> forall nested <- e.options.expand.items :: CleanNames(nested))
  }

  /** The texts of the options, nested ones included, are trimmed, matched, and whole. */
  ghost predicate TextsFit(o: ExpandQueryOptions)
    decreases o, 0
  {
    && (o.select.Some? ==> IsOptionText(o.select.value))
    && (o.filter.Some? ==> IsOptionText(o.filter.value))
    && (o.orderby.Some? ==> IsOptionText(o.orderby.value))
    && (o.expand.Clauses? ==> forall e <- o.expand.items :: TextsFit(e.options))
    && (o.levels.Some? && o.levels.value.LevelCount? ==> o.levels.value.count >= 1)
  }

  /** A tree is well formed when its names are clean and its texts fit. */
  lemma {:induction false} WellFormedParts(e: ExpandExpression)
    ensures WellFormedExpand(e) <==> CleanNames(e) && TextsFit(e.options)
    decreases e
  {
    hide IsOptionText, IsProperty;
    if e.options.expand.Clauses? {
      forall nested <- e.options.expand.items
        ensures WellFormedExpand(nested) <==> CleanNames(nested) && TextsFit(nested.options)
      {
        WellFormedParts(nested);
      }
    }
  }

  // Trimming

  lemma {:induction false} SpacesAreFlat(s: string)
    requires forall c <- s :: IsSpace(c)
    ensures Depth(s) == 0
  {
    if s != "" {
      assert s[|s| - 1] in s;
      SpacesAreFlat(s[..|s| - 1]);
    }
  }

  lemma {:induction false} TrimStartParts(s: string) returns (before: string)
    ensures s == before + TrimStart(s) && forall c <- before :: IsSpace(c)
  {
    before := "";
    if s != "" && IsSpace(s[0]) {
      before := TrimStartParts(s[1..]);
      before := [s[0]] + before;
      assert s == [s[0]] + s[1..];
    } else {
      assert "" + s == s;
    }
  }

  lemma {:induction false} TrimEndParts(s: string) returns (after: string)
    ensures s == TrimEnd(s) + after && forall c <- after :: IsSpace(c)
  {
    after := "";
    if s != "" && IsSpace(s[|s| - 1]) {
      after := TrimEndParts(s[..|s| - 1]);
      assert s == s[..|s| - 1] + [s[|s| - 1]];
      after := after + [s[|s| - 1]];
    } else {
      assert s + "" == s;
    }
  }

  lemma TrimParts(s: string) returns (before: string, after: string)
    ensures s == before + Trim(s) + after
    ensures (forall c <- before :: IsSpace(c)) && forall c <- after :: IsSpace(c)
  {
    before := TrimStartParts(s);
    after := TrimEndParts(TrimStart(s));
    ConcatAssociates(before, Trim(s), after);
  }

  /** A part of a text with flat text before and after it is as deep at each place as the text is there. */
  lemma PartDepth(before: string, part: string, after: string, k: nat)
    requires Depth(before) == 0 && k <= |part|
    ensures (before + part + after)[..|before| + k] == before + part[..k]
    ensures Depth((before + part + after)[..|before| + k]) == Depth(part[..k])
  {
    hide Depth;
    ConcatAssociates(before, part, after);
    StartOf(before, part + after, k);
    assert (part + after)[..k] == part[..k];
    DepthConcat(before, part[..k]);
  }

  lemma StartOf(before: string, rest: string, k: nat)
    requires k <= |rest|
    ensures (before + rest)[..|before| + k] == before + rest[..k]
  {
  }

  lemma PartFits(before: string, part: string, after: string, d: char)
    requires Depth(before) == 0 && Depth(after) == 0 && Nested(before + part + after) && Uncut(before + part + after, d)
    ensures Nested(part) && Uncut(part, d)
  {
    var s := before + part + after;
    hide Depth;
    forall k | 0 <= k <= |part| ensures Depth(part[..k]) >= 0 {
      PartDepth(before, part, after, k);
    }
    DepthConcat(before + part, after);
    DepthConcat(before, part);
    forall k | 0 <= k < |part| && part[k] == d ensures Depth(part[..k]) != 0 {
      PartDepth(before, part, after, k);
      assert s[|before| + k] == d;
    }
  }

  lemma TrimFits(s: string, d: char)
    requires Nested(s) && Uncut(s, d)
    ensures IsTrimmed(Trim(s)) && Nested(Trim(s)) && Uncut(Trim(s), d)
  {
    hide Depth, Nested, Uncut;
    var before, after := TrimParts(s);
    SpacesAreFlat(before);
    SpacesAreFlat(after);
    PartFits(before, Trim(s), after, d);
  }

  // Pieces

  /** Cuts of a text that goes nowhere below where it starts go nowhere below it either, and end where they start. */
  lemma {:induction false} CutsFit(parts: seq<string>, d: char)
    requires IsDelimiter(d) && AreCuts(parts, d) && Nested(JoinWith(parts, d))
    ensures forall i | 0 <= i < |parts| :: Nested(parts[i]) && Uncut(parts[i], d)
  {
    hide Depth;
    if |parts| > 1 {
      var first, rest := parts[0], JoinWith(parts[1..], d);
      var s := JoinWith(parts, d);
      assert s == first + ([d] + rest) && s == first + [d] + rest;
      FlatDelimiter(d);
      DepthConcat(first, [d]);
      DepthConcat(first + [d], rest);
      forall k | 0 <= k <= |first| ensures Depth(first[..k]) >= 0 {
        assert s[..k] == first[..k];
      }
      forall k | 0 <= k <= |rest| ensures Depth(rest[..k]) >= 0 {
        assert s[..|first| + 1 + k] == (first + [d]) + rest[..k];
        DepthConcat(first + [d], rest[..k]);
      }
      CutsFit(parts[1..], d);
      forall i | 0 <= i < |parts| ensures Nested(parts[i]) && Uncut(parts[i], d) {
        if i > 0 {
          assert parts[i] == parts[1..][i - 1];
        }
      }
    }
  }

  lemma FlatDelimiter(d: char)
    requires IsDelimiter(d)
    ensures Depth([d]) == 0
  {
    assert [d][..0] == "";
  }

  lemma SplitFits(text: string, d: char)
    requires IsDelimiter(d) && Nested(text)
    ensures forall piece <- Split(text, d) :: IsTrimmed(piece) && Nested(piece) && Uncut(piece, d)
  {
    var raw := RawSplit(text, 0, "", d);
    SplitIsTheOnlyCut(text, raw, d);
    CutsFit(raw, d);
    hide Nested, Uncut, RawSplit, AreCuts, JoinWith;
    forall piece <- Split(text, d) ensures IsTrimmed(piece) && Nested(piece) && Uncut(piece, d) {
      var i :| 0 <= i < |raw| && piece == Trim(raw[i]);
      TrimFits(raw[i], d);
    }
  }

  // What is enclosed

  /** Where the depth comes back to zero, it has not been there in between. */
  lemma {:induction false} CloseStays(clause: string, open: nat, i: nat)
    requires open < i <= |clause| && Depth(clause[open..i]) >= 1
    requires CloseIndex(clause, i, Depth(clause[open..i])).Some?
    ensures var close := CloseIndex(clause, i, Depth(clause[open..i])).value;
            && Depth(clause[open..close]) == 1 && clause[close] == ')'
            && forall k | i <= k <= close :: Depth(clause[open..k]) >= 1
    decreases |clause| - i
  {
    var depth := Depth(clause[open..i]);
    assert i < |clause|;
    assert clause[open..i + 1] == clause[open..i] + [clause[i]];
    assert clause[open..i + 1][..i - open] == clause[open..i];
    if !(clause[i] == ')' && depth == 1) {
      CloseStays(clause, open, i + 1);
    }
  }

  lemma Opens(clause: string, open: nat)
    requires open < |clause| && clause[open] == '('
    ensures clause[open..open + 1] == "(" && Depth(clause[open..open + 1]) == 1
    ensures CloseIndex(clause, open, 0) == CloseIndex(clause, open + 1, 1)
  {
    assert clause[open..open + 1] == "(" && "("[..0] == "";
  }

  lemma InnerDepth(clause: string, open: nat, close: nat, k: nat)
    requires open < close <= |clause| && clause[open] == '(' && k <= close - open - 1
    ensures Depth(clause[open + 1..close][..k]) == Depth(clause[open..open + 1 + k]) - 1
  {
    var inner := clause[open + 1..close];
    hide Depth;
    assert clause[open..open + 1 + k] == "(" + inner[..k];
    DepthOpen(inner[..k]);
  }

  /** What a clause encloses is matched. */
  lemma EnclosedFits(clause: string, open: nat)
    requires open < |clause| && clause[open] == '(' && CloseIndex(clause, open, 0).Some?
    ensures var close := CloseIndex(clause, open, 0).value; open < close && Nested(clause[open + 1..close])
  {
    hide Depth, CloseIndex;
    Opens(clause, open);
    CloseStays(clause, open, open + 1);
    var close := CloseIndex(clause, open, 0).value;
    var inner := clause[open + 1..close];
    forall k | 0 <= k <= |inner| ensures Depth(inner[..k]) >= 0 {
      InnerDepth(clause, open, close, k);
    }
    InnerDepth(clause, open, close, |inner|);
    assert inner[..|inner|] == inner && clause[open..open + 1 + |inner|] == clause[open..close];
  }

  // The parser's image

  lemma {:induction false} FlatChars(s: string)
    requires '(' !in s && ')' !in s
    ensures Depth(s) == 0
  {
    if s != "" {
      assert s[|s| - 1] in s;
      FlatChars(s[..|s| - 1]);
    }
  }

  /** The value of an option whose key has no parentheses fits as the option's segment does. */
  lemma ValueFits(segment: string, eq: nat)
    requires Nested(segment) && Uncut(segment, ';') && eq < |segment| && segment[eq] == '='
    requires '(' !in Trim(segment[..eq]) && ')' !in Trim(segment[..eq])
    ensures IsOptionText(Trim(segment[eq + 1..]))
  {
    hide Depth;
    var before, after := TrimParts(segment[..eq]);
    var head, value := segment[..eq] + "=", segment[eq + 1..];
    forall c <- head ensures c != '(' && c != ')' {
      assert c in before || c in Trim(segment[..eq]) || c in after || c == '=';
    }
    assert '(' !in head && ')' !in head;
    FlatChars(head);
    FlatChars("");
    assert segment == head + value + "";
    PartFits(head, value, "", ';');
    TrimFits(value, ';');
  }

  lemma {:induction false} OptionFits(options: ExpandQueryOptions, segment: string, base: nat)
    requires TextsFit(options) && Nested(segment) && Uncut(segment, ';') && ParseOption(options, segment, base).Success?
    ensures TextsFit(ParseOption(options, segment, base).value)
    decreases |segment|, 0
  {
    hide IsOptionText, ParseClauses, Nested, Uncut, NumberOf, Trim, TextsFit;
    var eq := IndexOf(segment, '=').value;
    var key, value := Trim(segment[..eq]), Trim(segment[eq + 1..]);
    hide IndexOf;
    if key == "$select" || key == "$filter" || key == "$orderby" {
      ValueFits(segment, eq);
      TextFits(options, value);
    } else if key == "$expand" {
      ClausesFit(value, base);
      NestedFit(options, ParseClauses(value, base).value);
    } else {
      RestFits(options);
    }
  }

  lemma TextFits(options: ExpandQueryOptions, value: string)
    requires TextsFit(options) && IsOptionText(value)
    ensures TextsFit(options.(select := Some(value))) && TextsFit(options.(filter := Some(value)))
    ensures TextsFit(options.(orderby := Some(value)))
  {
    hide IsOptionText;
  }

  lemma NestedFit(options: ExpandQueryOptions, clauses: seq<ExpandExpression>)
    requires TextsFit(options) && forall e <- clauses :: TextsFit(e.options)
    ensures TextsFit(options.(expand := Clauses(clauses)))
  {
    hide IsOptionText;
  }

  /** Numbers and flags are no texts. */
  lemma RestFits(options: ExpandQueryOptions)
    requires TextsFit(options)
    ensures forall n :: TextsFit(options.(top := n)) && TextsFit(options.(skip := n))
    ensures forall flag :: TextsFit(options.(count := flag))
    ensures TextsFit(options.(levels := Some(MaxLevels)))
    ensures forall n | n >= 1 :: TextsFit(options.(levels := Some(LevelCount(n))))
  {
    hide IsOptionText;
  }

  lemma {:induction false} SegmentsFit(segments: seq<string>, options: ExpandQueryOptions, base: nat, bound: nat)
    requires (forall segment <- segments :: |segment| <= bound) && TextsFit(options)
    requires forall segment <- segments :: Nested(segment) && Uncut(segment, ';')
    requires ParseSegments(segments, options, base, bound).Success?
    ensures TextsFit(ParseSegments(segments, options, base, bound).value)
    decreases bound, 1, |segments|
  {
    hide TextsFit, Nested, Uncut, ParseOption;
    if segments != [] {
      assert segments[0] in segments;
      OptionFits(options, segments[0], base);
      SegmentsFit(segments[1..], ParseOption(options, segments[0], base).value, base, bound);
    }
  }

  lemma {:induction false} OptionsFit(text: string, base: nat)
    requires Nested(text) && ParseOptions(text, base).Success?
    ensures TextsFit(ParseOptions(text, base).value)
    decreases |text|, 2
  {
    hide ParseSegments, Split;
    SplitLength(text, ';');
    SplitFits(text, ';');
    SegmentsFit(Split(text, ';'), NO_OPTIONS, base, |text|);
  }

  lemma {:induction false} ClauseFits(clause: string, base: nat)
    requires ParseClause(clause, base).Success?
    ensures TextsFit(ParseClause(clause, base).value.options)
    decreases |clause|, 0
  {
    hide CloseIndex, ParseOptions, Nested, Trim;
    if IndexOf(clause, '(').Some? {
      var open := IndexOf(clause, '(').value;
      hide IndexOf;
      EnclosedFits(clause, open);
      var close := CloseIndex(clause, open, 0).value;
      if close > open + 1 {
        OptionsFit(clause[open + 1..close], base + open + 1);
      }
    }
  }

  lemma {:induction false} EachFits(clauses: seq<string>, base: nat, bound: nat)
    requires (forall clause <- clauses :: |clause| <= bound) && ParseEach(clauses, base, bound).Success?
    ensures forall e <- ParseEach(clauses, base, bound).value :: TextsFit(e.options)
    decreases bound, 1, |clauses|
  {
    hide TextsFit, ParseClause;
    if clauses != [] {
      assert clauses[0] in clauses;
      ClauseFits(clauses[0], base);
      EachFits(clauses[1..], base, bound);
    }
  }

  lemma {:induction false} ClausesFit(input: string, base: nat)
    requires ParseClauses(input, base).Success?
    ensures forall e <- ParseClauses(input, base).value :: TextsFit(e.options)
    decreases |input|, 2
  {
    hide TextsFit, ParseEach, Split;
    SplitLength(input, ',');
    EachFits(Split(input, ','), base, |input|);
  }

  /** Whatever string parses, the texts of its options, at any depth, are trimmed, matched and whole. */
  lemma ParsedTextsFit(expand: string)
    requires ParseExpand(expand).Success?
    ensures forall e <- ParseExpand(expand).value :: TextsFit(e.options)
  {
    hide TextsFit, ParseClauses;
    if Trim(expand) != "" {
      ClausesFit(Trim(expand), 0);
    }
  }

  /**
   * Over every list of clauses whose names are names, whatever the texts of its options: parsing its written form gives it
   * back if and only if each text, at any depth, is trimmed, matched, and has no semicolon outside parentheses.
   */
  lemma ExpandRoundTripsExactly(es: seq<ExpandExpression>)
    requires forall e <- es :: CleanNames(e)
    ensures ParseExpand(ClausesText(es)) == Success(es) <==> forall e <- es :: WellFormedExpand(e)
    ensures forall e <- es :: WellFormedExpand(e) <==> TextsFit(e.options)
  {
    hide CleanNames, TextsFit, WellFormedExpand, ParseExpand;
    forall e <- es ensures WellFormedExpand(e) <==> TextsFit(e.options) {
      WellFormedParts(e);
    }
    if ParseExpand(ClausesText(es)) == Success(es) {
      ParsedTextsFit(ClausesText(es));
    }
    if forall e <- es :: WellFormedExpand(e) {
      ExpandRoundTrips(es);
    }
  }
}
