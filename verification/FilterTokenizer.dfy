/** The lexer as the program runs it: one cursor that every reader moves, and the tokens pushed so far. */
module FilterTokenizer {
  import opened Strings
  import opened FilterTypes
  import opened FilterLexer

  predicate IsDuration(word: string) {
    word == "duration"
  }

  predicate HasPeriod(word: string) {
    '.' in word
  }

  /** The word that ends here is `duration`, and its literal is closed. */
  predicate QuotedDuration(s: string, p: nat, end: nat)
    requires p <= end <= |s|
  {
    IsDuration(s[p..end]) && CharAt(s, end, '\'') && SpanEnd(s, end + 1, NotQuote) < |s|
  }

  class Tokenizer {
    const input: string
    var pos: nat
    var tokens: seq<Token>

    ghost predicate Valid()
      reads this
    {
      pos <= |input|
    }

    constructor (input: string)
      ensures Valid() && this.input == input && pos == 0 && tokens == []
    {
      this.input := input;
      pos, tokens := 0, [];
    }

    /** The cursor runs to the end of a run of characters of one class, and what it passes is collected. */
    method Take(class_: CharClass) returns (text: string)
      requires Valid()
      modifies this`pos
      ensures Valid() && pos == SpanEnd(input, old(pos), class_) && text == input[old(pos)..pos]
    {
      text := "";
      while pos < |input| && InClass(input[pos], class_)
        invariant old(pos) <= pos <= |input| && text == input[old(pos)..pos]
        invariant SpanEnd(input, pos, class_) == SpanEnd(input, old(pos), class_)
        decreases |input| - pos
      {
        text := text + [input[pos]];
        pos := pos + 1;
      }
    }

    method ReadString() returns (r: Result<Token, LexerError>)
      requires Valid() && pos < |input| && input[pos] == '\''
      modifies this`pos
      ensures Valid() && Agrees(FilterLexer.ReadString(input, old(pos)), r)
    {
      var start := pos;
      pos := pos + 1;
      var value := "";
      while pos < |input|
        invariant start < pos <= |input|
        invariant StringBody(input, pos, value) == StringBody(input, start + 1, "")
        decreases |input| - pos
      {
        if input[pos] == '\'' {
          if pos + 1 < |input| && input[pos + 1] == '\'' {
            value := value + ['\''];
            pos := pos + 2;
          } else {
            pos := pos + 1;
            return Success(Token(StringToken, value, start));
          }
        } else {
          value := value + [input[pos]];
          pos := pos + 1;
        }
      }
      return Failure(LexerError(UnterminatedString, start));
    }

    method ReadNumber() returns (token: Token)
      requires Valid() && pos < |input| && (IsDigit(input[pos]) || input[pos] == '-')
      modifies this`pos
      ensures Valid() && FilterLexer.ReadNumber(input, old(pos)) == Reading(token, pos)
    {
      var start := pos;
      var text := "";
      if input[pos] == '-' {
        text := "-";
        pos := pos + 1;
      }
      assert text == input[start..pos];
      var whole := Take(Digit);
      text := text + whole;
      assert text == input[start..pos];
      if pos < |input| && input[pos] == '.' {
        text := text + ".";
        pos := pos + 1;
        assert text == input[start..pos];
        var fraction := Take(Digit);
        text := text + fraction;
        assert text == input[start..pos];
      }
      token := Token(NumberToken, text, start);
    }

    /** The token of a pattern that matched up to `end`. */
    method Match(kind: TokenType, end: nat) returns (token: Token)
      requires Valid() && pos <= end <= |input|
      modifies this`pos
      ensures Valid() && pos == end && token == Token(kind, input[old(pos)..end], old(pos))
    {
      token := Token(kind, input[pos..end], pos);
      pos := end;
    }

    /** A literal that starts with a digit: the longer patterns first, then a plain number. */
    method ReadDigits() returns (token: Token)
      requires Valid() && pos < |input| && IsDigit(input[pos])
      modifies this`pos
      ensures Valid() && FilterLexer.ReadDigits(input, old(pos)) == Reading(token, pos)
    {
      if GuidAt(input, pos) && EndsCleanly(input, pos + 36) {
        token := Match(GuidToken, pos + 36);
      } else if DateTimeOffsetEnd(input, pos).Some? {
        token := Match(DateTimeOffsetToken, DateTimeOffsetEnd(input, pos).value);
      } else if DateAt(input, pos) && EndsCleanly(input, pos + 10) {
        token := Match(DateToken, pos + 10);
      } else if TimeOfDayAt(input, pos) && EndsCleanly(input, pos + 8) {
        token := Match(TimeOfDayToken, pos + 8);
      } else {
        token := ReadNumber();
      }
    }

    /** `duration'…'` at the cursor, or nothing and the cursor where it was. */
    method TryReadDuration() returns (r: Option<Token>)
      requires Valid()
      modifies this`pos
      ensures Valid()
      ensures var end := SpanEnd(input, old(pos), WordChar);
              if QuotedDuration(input, old(pos), end) then
                var close := SpanEnd(input, end + 1, NotQuote);
                r == Some(Token(DurationToken, input[end + 1..close], old(pos))) && pos == close + 1
              else r == None && pos == old(pos)
    {
      var start := pos;
      var word := Take(WordChar);
      if IsDuration(word) && pos < |input| && input[pos] == '\'' {
        pos := pos + 1;
        var value := Take(NotQuote);
        if pos < |input| {
          pos := pos + 1;
          return Some(Token(DurationToken, value, start));
        }
      }
      pos := start;
      r := None;
    }

    /** The quoted member after a namespace-qualified word. */
    method ReadEnum(word: string, start: nat) returns (r: Result<Token, LexerError>)
      requires Valid() && start < pos < |input| && input[pos] == '\'' && word == input[start..pos]
      modifies this`pos
      ensures Valid()
      ensures var close := SpanEnd(input, old(pos) + 1, NotQuote);
              if close < |input| then r == Success(Token(EnumToken, input[start..close + 1], start)) && pos == close + 1
              else r == Failure(LexerError(UnterminatedEnum, start))
    {
      pos := pos + 1;
      var member := Take(NotQuote);
      if pos < |input| {
        pos := pos + 1;
        assert input[start..pos] == word + "'" + member + "'";
        r := Success(Token(EnumToken, word + "'" + member + "'", start));
      } else {
        r := Failure(LexerError(UnterminatedEnum, start));
      }
    }

    method ReadWord() returns (r: Result<Token, LexerError>)
      requires Valid() && pos < |input| && InClass(input[pos], WordChar)
      modifies this`pos
      ensures Valid() && Agrees(FilterLexer.ReadWord(input, old(pos), LastKind(tokens)), r)
    {
      hide IsDuration, HasPeriod, QuotedDuration, FilterLexer.ReadWord, ReadPlainWord, SpanEnd, InClass, AllIn, Lower, LastKind;
      var start := pos;
      WordCases(input, start, LastKind(tokens));
      var word := Take(WordChar);
      if IsDuration(Lower(word)) && pos < |input| && input[pos] == '\'' {
        var duration := BackUpForDuration(start);
        if duration.Some? {
          return Success(duration.value);
        }
      } else {
        LowerDuration(input, start, pos);
      }
      if HasPeriod(word) && pos < |input| && input[pos] == '\'' {
        r := ReadEnum(word, start);
        return;
      }
      var token := ClassifyWord(word, start);
      r := Success(token);
    }

    /** The duration that starts with a word, or the word once more. */
    method BackUpForDuration(start: nat) returns (r: Option<Token>)
      requires Valid() && start <= pos && pos == SpanEnd(input, start, WordChar)
      modifies this`pos
      ensures Valid()
      ensures if QuotedDuration(input, start, old(pos)) then
                var close := SpanEnd(input, old(pos) + 1, NotQuote);
                r == Some(Token(DurationToken, input[old(pos) + 1..close], start)) && pos == close + 1
              else r == None && pos == old(pos)
    {
      hide QuotedDuration, SpanEnd, InClass, AllIn;
      pos := start;
      r := TryReadDuration();
      if r == None {
        var _ := Take(WordChar);
      }
    }

    /** A word that opens no quoted literal. */
    method ClassifyWord(word: string, start: nat) returns (token: Token)
      requires Valid() && start < pos && word == input[start..pos]
      modifies this`pos
      ensures Valid() && Reading(token, pos) == ReadPlainWord(input, start, old(pos), LastKind(tokens))
    {
      hide NameWord, FixedWord, ContextWord;
      var lower, last := Lower(word), LastKind(tokens);
      if FixedWord(lower).Some? {
        var kind := FixedWord(lower).value;
        return Token(kind, if kind == NullToken then word else lower, start);
      }
      if ContextWord(lower, last).Some? {
        return Token(ContextWord(lower, last).value, lower, start);
      }
      var _ := Take(Space);
      var (kind, value) := NameWord(word, pos < |input| && input[pos] == '(');
      token := Token(kind, value, start);
    }

    /** One turn of the main loop: the token at the cursor, or the error there. */
    method ReadOne() returns (r: Result<Token, LexerError>)
      requires Valid() && pos < |input|
      modifies this`pos
      ensures Valid() && Agrees(ReadToken(input, old(pos), LastKind(tokens)), r)
    {
      hide FilterLexer.ReadWord, FilterLexer.ReadString, FilterLexer.ReadDigits;
      var c := input[pos];
      if IsDigit(c) {
        var token := ReadDigits();
        r := Success(token);
      } else if c == '\'' {
        r := ReadString();
      } else if Punctuation(c).Some? {
        r := Success(Token(Punctuation(c).value, [c], pos));
        pos := pos + 1;
      } else if c == '-' && pos + 1 < |input| && IsDigit(input[pos + 1]) {
        if AllowsNegative(LastKind(tokens)) {
          var token := ReadNumber();
          r := Success(token);
        } else {
          r := Failure(LexerError(UnexpectedCharacter(c), pos));
        }
      } else if IsLetter(c) || c == '_' {
        r := ReadWord();
      } else {
        r := Failure(LexerError(UnexpectedCharacter(c), pos));
      }
    }

    /** Where the specification reads a token, the method returns it and leaves the cursor after it. */
    ghost predicate Agrees(spec: ReadResult, r: Result<Token, LexerError>)
      reads this
    {
      match spec
      case Failure(error) => r == Failure(error)
      case Success(reading) => r == Success(reading.token) && pos == reading.next
    }

    method Tokenize() returns (r: Result<seq<Token>, LexerError>)
      requires Valid() && pos == 0 && tokens == []
      modifies this
      ensures r == Lex(input)
    {
      while pos < |input|
        invariant Valid() && LexFrom(input, pos, tokens) == Lex(input)
        decreases |input| - pos
      {
        hide ReadToken;
        var _ := Take(Space);
        if pos >= |input| {
          break;
        }
        var token :- ReadOne();
        tokens := tokens + [token];
      }
      r := Success(tokens);
    }
  }

  /** The three ways a word is read: as a duration, as an enumeration's member, and plainly. */
  lemma WordCases(s: string, p: nat, last: Option<TokenType>)
    requires p < |s| && InClass(s[p], WordChar)
    ensures var end := SpanEnd(s, p, WordChar);
            var close := if end < |s| then SpanEnd(s, end + 1, NotQuote) else |s|;
            var r := FilterLexer.ReadWord(s, p, last);
            if QuotedDuration(s, p, end) then r == Success(Reading(Token(DurationToken, s[end + 1..close], p), close + 1))
            else if !CharAt(s, end, '\'') || !HasPeriod(s[p..end]) then r == Success(ReadPlainWord(s, p, end, last))
            else if close < |s| then r == Success(Reading(Token(EnumToken, s[p..close + 1], p), close + 1))
            else r == Failure(LexerError(UnterminatedEnum, p))
  {
    hide HasPeriod, QuotedDuration, FilterLexer.ReadWord, ReadPlainWord, InClass;
    var end := SpanEnd(s, p, WordChar);
    if QuotedDuration(s, p, end) {
      DurationWord(s, p, last);
    } else if !CharAt(s, end, '\'') || !HasPeriod(s[p..end]) {
      PlainWord(s, p, last);
    } else {
      EnumWord(s, p, last);
    }
  }

  lemma DurationWord(s: string, p: nat, last: Option<TokenType>)
    requires p < |s| && InClass(s[p], WordChar) && QuotedDuration(s, p, SpanEnd(s, p, WordChar))
    ensures var end := SpanEnd(s, p, WordChar);
            var close := SpanEnd(s, end + 1, NotQuote);
            FilterLexer.ReadWord(s, p, last) == Success(Reading(Token(DurationToken, s[end + 1..close], p), close + 1))
  {
    hide ReadPlainWord, AllIn, InClass;
  }

  lemma PlainWord(s: string, p: nat, last: Option<TokenType>)
    requires p < |s| && InClass(s[p], WordChar) && !QuotedDuration(s, p, SpanEnd(s, p, WordChar))
    requires var end := SpanEnd(s, p, WordChar); !CharAt(s, end, '\'') || !HasPeriod(s[p..end])
    ensures FilterLexer.ReadWord(s, p, last) == Success(ReadPlainWord(s, p, SpanEnd(s, p, WordChar), last))
  {
    hide ReadPlainWord, AllIn, InClass;
  }

  lemma EnumWord(s: string, p: nat, last: Option<TokenType>)
    requires p < |s| && InClass(s[p], WordChar) && !QuotedDuration(s, p, SpanEnd(s, p, WordChar))
    requires var end := SpanEnd(s, p, WordChar); CharAt(s, end, '\'') && HasPeriod(s[p..end])
    ensures var close := SpanEnd(s, SpanEnd(s, p, WordChar) + 1, NotQuote);
            FilterLexer.ReadWord(s, p, last)
            == if close < |s| then Success(Reading(Token(EnumToken, s[p..close + 1], p), close + 1))
               else Failure(LexerError(UnterminatedEnum, p))
  {
    hide ReadPlainWord, AllIn, InClass;
  }

  lemma LowerDuration(s: string, p: nat, end: nat)
    requires p <= end <= |s| && !(IsDuration(Lower(s[p..end])) && CharAt(s, end, '\''))
    ensures !QuotedDuration(s, p, end)
  {
  }
}
