/** The key of a record, as a payload's property or a response's headers name it. */
module EntityKeys {
  import opened Strings
  import opened JsonValues

  /** A property as a payload or a body gives it; an array or an object by how `String` writes it, if that does not throw. */
  datatype Field = Missing | Null | Bool(b: bool) | Number(n: int) | Text(s: string) | Composite(text: string) | Unwritable

  function AsField(value: Json): Field {
    match value
    case JNull => Null
    case JBool(b) => Bool(b)
    case JNumber(n) => Number(n)
    case JString(s) => Text(s)
    case _ => if TextOf(value).Some? then Composite(TextOf(value).value) else Unwritable
  }

  /** `String(value)`, where that does not throw. */
  function Written(field: Field): string {
    match field
    case Missing => "undefined"
    case Null => "null"
    case Bool(b) => if b then "true" else "false"
    case Number(n) => IntText(n)
    case Text(s) => s
    case Composite(text) => text
    case Unwritable => ""
  }

  predicate Truthy(field: Field) {
    match field
    case Missing => false
    case Null => false
    case Bool(b) => b
    case Number(n) => n != 0
    case Text(s) => s != ""
    case _ => true
  }

  /** A non-empty key, or none; where writing the field throws, so does the code, and no key is come to. */
  function KeyOf(field: Field): (key: Option<string>)
    ensures key != Some("")
  {
    if field.Missing? || field.Null? || Written(field) == "" then None else Some(Written(field))
  }

  /** A field is written as JSON's `String` writes it, and its key is that text. */
  lemma KeyIsTheText(value: Json)
    ensures AsField(value).Unwritable? <==> TextOf(value).None?
    ensures TextOf(value).Some? ==> Written(AsField(value)) == TextOf(value).value
    ensures KeyOf(AsField(value)) == if value.JNull? || TextOf(value) == Some("") then None else TextOf(value)
  {
    if value.JObject? && TextOf(value).None? {
      assert "toString" in value.fields;
    }
  }

  /** The fields whose key is not what a condition sees: 0 and false name a key, an array can write none. */
  lemma KeyIsTruthExactly(field: Field)
    ensures (KeyOf(field).Some? <==> Truthy(field))
       <==> field != Number(0) && field != Bool(false) && field != Composite("") && field != Unwritable
  {
  }

  // A key in a header

  function Undoubled(s: string): Option<string> {
    if s == "" then Some("")
    else if s[0] != '\'' then
      var rest := Undoubled(s[1..]);
      if rest.Some? then Some([s[0]] + rest.value) else None
    else if |s| > 1 && s[1] == '\'' then
      var rest := Undoubled(s[2..]);
      if rest.Some? then Some("'" + rest.value) else None
    else None
  }

  /** The key in what follows an opening parenthesis, if that is a key, quoted or bare, and a parenthesis that ends the text. */
  function KeyAfter(tail: string): Option<string> {
    if |tail| >= 3 && tail[0] == '\'' && tail[|tail| - 2..] == "')" then Undoubled(tail[1..|tail| - 2])
    else if tail != "" && tail[|tail| - 1] == ')' && ')' !in tail[..|tail| - 1] && '\'' !in tail[..|tail| - 1] then
      Some(tail[..|tail| - 1])
    else None
  }

  predicate KeyFollows(text: string, i: nat)
    requires i < |text|
  {
    KeyAfter(text[i + 1..]).Some?
  }

  /** The key at the first parenthesis that one follows. */
  function UrlKey(text: string, from: nat): Option<string>
    decreases |text| - from
  {
    if from >= |text| then None
    else if text[from] == '(' && KeyFollows(text, from) then KeyAfter(text[from + 1..])
    else UrlKey(text, from + 1)
  }

  /** `text.replace(/^"(.*)"$/, '$1')` */
  function Unwrapped(text: string): string {
    if |text| >= 2 && text[0] == '"' && text[|text| - 1] == '"' && forall c | c in text[1..|text| - 1] :: !IsLineEnd(c) then
      text[1..|text| - 1]
    else text
  }

  predicate IsLineEnd(c: char) {
    c == '\n' || c == '\r' || c == '\U{2028}' || c == '\U{2029}'
  }

  lemma OnOneLine(text: string)
    ensures (forall c | c in text :: !IsLineEnd(c)) <==> forall i | 0 <= i < |text| :: text[i] !in "\n\r\U{2028}\U{2029}"
  {
    forall c: char ensures IsLineEnd(c) <==> c in "\n\r\U{2028}\U{2029}" {
    }
    if forall c | c in text :: !IsLineEnd(c) {
      forall i | 0 <= i < |text| ensures text[i] !in "\n\r\U{2028}\U{2029}" {
        assert text[i] in text;
      }
    }
  }

  /** Quotation marks about a text on one line are taken off, and nothing else is. */
  lemma UnwrappedExactly(text: string)
    ensures forall inner: string | text == "\"" + inner + "\"" ::
              Unwrapped(text) == if forall i | 0 <= i < |inner| :: inner[i] !in "\n\r\U{2028}\U{2029}" then inner else text
    ensures (forall inner: string :: text != "\"" + inner + "\"") ==> Unwrapped(text) == text
  {
    hide Unwrapped;
    forall inner: string | text == "\"" + inner + "\""
      ensures Unwrapped(text) == if forall i | 0 <= i < |inner| :: inner[i] !in "\n\r\U{2028}\U{2029}" then inner else text
    {
      UnwrapsQuoted(text, inner);
    }
    if forall inner: string :: text != "\"" + inner + "\"" {
      UnquotedIsKept(text);
    }
  }

  lemma UnquotedIsKept(text: string)
    requires forall inner: string :: text != "\"" + inner + "\""
    ensures Unwrapped(text) == text
  {
    hide IsLineEnd;
    if |text| >= 2 && text[0] == '"' && text[|text| - 1] == '"' {
      QuotedHoldsText(text);
    }
  }

  lemma QuotedHoldsText(text: string)
    requires |text| >= 2 && text[0] == '"' && text[|text| - 1] == '"'
    ensures exists inner: string :: text == "\"" + inner + "\""
  {
    assert text == "\"" + text[1..|text| - 1] + "\"";
  }

  lemma UnwrapsQuoted(text: string, inner: string)
    requires text == "\"" + inner + "\""
    ensures Unwrapped(text) == if forall i | 0 <= i < |inner| :: inner[i] !in "\n\r\U{2028}\U{2029}" then inner else text
  {
    assert text[1..|text| - 1] == inner;
    OnOneLine(inner);
    hide IsLineEnd;
  }

  /** `decode` is `decodeURIComponent`, or nothing where that throws. */
  function KeyFromHeader(value: Option<string>, decode: string -> Option<string>): Option<string> {
    if value.None? then None
    else
      var text := Trim(value.value);
      match UrlKey(text, 0)
      case Some(key) => if key == "" then None else decode(key)
      case None => if Unwrapped(text) != "" && '/' !in Unwrapped(text) then Some(Unwrapped(text)) else None
  }

  lemma {:induction false} DoubledReadsBack(key: string)
    ensures Undoubled(Escape(key)) == Some(key)
  {
    if key != "" {
      DoubledReadsBack(key[1..]);
      var rest := Escape(key[1..]);
      if key[0] == '\'' {
        assert ("''" + rest)[2..] == rest;
      } else {
        assert ([key[0]] + rest)[1..] == rest;
      }
      assert key == [key[0]] + key[1..];
    }
  }

  lemma {:induction false} UndoubledIs(s: string)
    ensures Undoubled(s).Some? ==> s == Escape(Undoubled(s).value)
    decreases |s|
  {
    if s != "" {
      if s[0] != '\'' {
        UndoubledIs(s[1..]);
        if Undoubled(s[1..]).Some? {
          var rest := Undoubled(s[1..]).value;
          assert ([s[0]] + rest)[1..] == rest && s == [s[0]] + s[1..];
        }
      } else if |s| > 1 && s[1] == '\'' {
        UndoubledIs(s[2..]);
        if Undoubled(s[2..]).Some? {
          var rest := Undoubled(s[2..]).value;
          assert ("'" + rest)[1..] == rest && s == "''" + s[2..];
        }
      }
    }
  }

  /**
   * What follows an opening parenthesis names a key exactly where it is the key in quotes, with those in it doubled, or
   * bare, with no quote and no parenthesis closed in it, and a parenthesis that ends the text.
   */
  lemma KeyAfterExactly(tail: string, key: string)
    ensures KeyAfter(tail) == Some(key)
       <==> tail == "'" + Escape(key) + "')" || (tail == key + ")" && '\'' !in key && ')' !in key)
  {
    hide Undoubled, Escape;
    if tail == "'" + Escape(key) + "')" {
      QuotedKey(key);
    }
    if |tail| >= 3 && tail[0] == '\'' && tail[|tail| - 2..] == "')" {
      var inner := tail[1..|tail| - 2];
      assert tail == "'" + inner + "')";
      UndoubledIs(inner);
      assert tail == key + ")" ==> key[0] == '\'' && key[0] in key;
    } else if tail != "" {
      var init := tail[..|tail| - 1];
      assert tail == init + [tail[|tail| - 1]];
      assert tail == key + ")" ==> init == key;
      QuotesShow(Escape(key), tail);
    }
  }

  lemma QuotesShow(inner: string, tail: string)
    ensures tail == "'" + inner + "')" ==> |tail| >= 3 && tail[0] == '\'' && tail[|tail| - 2..] == "')"
  {
  }

  /** A URL with a bare key names it, at an address without a parenthesis. */
  lemma BareUrlReadsBack(address: string, key: string, decode: string -> Option<string>)
    requires '(' !in address && (address != "" ==> !IsSpace(address[0])) && key != "" && '\'' !in key && ')' !in key
    ensures KeyFromHeader(Some(address + ("(" + key + ")")), decode) == decode(key)
  {
    hide KeyAfter, UrlKey, Trim;
    var text := address + ("(" + key + ")");
    assert text[0] == (if address == "" then '(' else address[0]) && text[|text| - 1] == ')';
    BareIsTrimmed(text);
    assert text[|address|] == '(' && text[|address| + 1..] == key + ")";
    KeyAfterExactly(key + ")", key);
    forall i: nat | i < |address| ensures text[i] != '(' {
      assert text[i] == address[i] && address[i] in address;
    }
    ParenthesisAt(text, 0, |address|);
  }

  lemma BareIsTrimmed(text: string)
    requires text != "" && !IsSpace(text[0]) && !IsSpace(text[|text| - 1])
    ensures Trim(text) == text
  {
  }

  lemma {:induction false} ParenthesisAt(text: string, from: nat, at: nat)
    requires from <= at < |text| && text[at] == '(' && KeyFollows(text, at)
    requires forall i: nat | from <= i < at :: text[i] != '('
    ensures UrlKey(text, from) == KeyAfter(text[at + 1..])
    decreases at - from
  {
    if from < at {
      ParenthesisAt(text, from + 1, at);
    }
  }

  lemma {:induction false} FirstParenthesis(text: string, from: nat, at: nat)
    requires from <= at < |text| && text[at] == '(' && KeyFollows(text, at)
    requires forall i: nat | from <= i < at :: !KeyFollows(text, i)
    ensures UrlKey(text, from) == KeyAfter(text[at + 1..])
    decreases at - from
  {
    if from < at {
      FirstParenthesis(text, from + 1, at);
    }
  }

  lemma QuotedKey(key: string)
    ensures KeyAfter("'" + Escape(key) + "')") == Some(key)
  {
    var tail := "'" + Escape(key) + "')";
    DoubledReadsBack(key);
    assert tail[1..|tail| - 2] == Escape(key);
  }

  /** A quote, and then doubled ones: one of them stands alone. */
  lemma {:induction false} OneStandsAlone(key: string)
    ensures Undoubled("'" + Escape(key)) == None
  {
    var text := "'" + Escape(key);
    if key != "" && key[0] == '\'' {
      OneStandsAlone(key[1..]);
      assert text[2..] == "'" + Escape(key[1..]);
    }
  }

  lemma UndoubledFails(s: string)
    requires s != ""
    ensures s[0] != '\'' && Undoubled(s[1..]) == None ==> Undoubled(s) == None
    ensures s[0] == '\'' && (|s| == 1 || s[1] != '\'' || Undoubled(s[2..]) == None) ==> Undoubled(s) == None
  {
  }

  /** No text before a key's opening quote, which stands alone, makes it one of a pair. */
  lemma {:induction false} NoKeyAcross(before: string, key: string)
    ensures Undoubled(before + ("('" + Escape(key))) == None
    decreases |before|
  {
    var rest := "('" + Escape(key);
    UndoubledFails(before + rest);
    hide *;
    ConcatRest(before, rest);
    if before == "" {
      assert rest[1..] == "'" + Escape(key);
      OneStandsAlone(key);
    } else if before[0] != '\'' {
      NoKeyAcross(before[1..], key);
    } else if |before| > 1 {
      NoKeyAcross(before[2..], key);
    } else {
      ConcatAt(before, rest);
      assert (before + rest)[1 + 0] == '(';
    }
  }

  /** A parenthesis in the address is followed by no key: the one that ends the text is another's. */
  lemma NoKeyInAddress(address: string, key: string, i: nat)
    requires i < |address|
    ensures KeyAfter((address + ("('" + Escape(key) + "')"))[i + 1..]) == None
  {
    var rest := "('" + Escape(key) + "')";
    var tail := address[i + 1..] + rest;
    assert (address + rest)[i + 1..] == tail;
    assert tail[|address| - i] == '\'' && |address| - i < |tail| - 1;
    assert tail[..|tail| - 1][|address| - i] == '\'';
    if tail[0] == '\'' {
      var before := address[i + 2..];
      NoKeyAcross(before, key);
      assert i + 1 < |address| && address[i + 1..] == [tail[0]] + before;
      assert tail == [tail[0]] + (before + ("('" + Escape(key))) + "')";
      assert tail[1..|tail| - 2] == before + ("('" + Escape(key));
    }
  }

  lemma {:induction false} TrimStartConcat(before: string, after: string)
    requires after != "" && !IsSpace(after[0])
    ensures TrimStart(before + after) == TrimStart(before) + after
  {
    if before == "" {
      assert before + after == after;
    } else {
      assert (before + after)[1..] == before[1..] + after;
      if IsSpace(before[0]) {
        TrimStartConcat(before[1..], after);
      }
    }
  }

  function EntityUrl(address: string, key: string): string {
    address + ("('" + Escape(key) + "')")
  }

  lemma TrimmedUrl(address: string, key: string)
    ensures Trim(EntityUrl(address, key)) == EntityUrl(TrimStart(address), key)
  {
    var rest := "('" + Escape(key) + "')";
    TrimStartConcat(address, rest);
    var text := TrimStart(address) + rest;
    hide TrimStart, Escape;
    assert text[|text| - 1] == rest[|rest| - 1] == ')';
  }

  lemma KeyOfUrl(address: string, key: string)
    ensures UrlKey(EntityUrl(address, key), 0) == Some(key)
  {
    var text := EntityUrl(address, key);
    QuotedKey(key);
    hide KeyAfter, UrlKey, Escape;
    assert text[|address|] == '(' && text[|address| + 1..] == "'" + Escape(key) + "')";
    forall i: nat | i < |address| ensures !KeyFollows(text, i) {
      NoKeyInAddress(address, key, i);
    }
    FirstParenthesis(text, 0, |address|);
  }

  /** An entity's URL, at any address, names the key it was made with, quotes, parentheses and slashes in it included. */
  lemma UrlKeyReadsBack(address: string, key: string, decode: string -> Option<string>)
    ensures KeyFromHeader(Some(EntityUrl(address, key)), decode) == if key == "" then None else decode(key)
  {
    hide UrlKey, EntityUrl, Trim;
    TrimmedUrl(address, key);
    KeyOfUrl(TrimStart(address), key);
  }

  // The URL the program builds of a key

  /** What `encodeURIComponent` writes as it is. */
  predicate IsUnreserved(c: char) {
    IsAlphanumeric(c) || c == '-' || c == '.' || c == '!' || c == '~' || c == '*' || c == '\'' || c == '(' || c == ')'
  }

  /** A percent encoding of the other characters: not nothing, and without quotes or parentheses. */
  ghost predicate Percents(percent: char -> string) {
    forall c | !IsUnreserved(c) :: percent(c) != "" && '\'' !in percent(c) && '(' !in percent(c) && ')' !in percent(c)
  }

  function EncodedChar(c: char, percent: char -> string): string {
    if IsUnreserved(c) then [c] else percent(c)
  }

  function Encoded(key: string, percent: char -> string): string {
    if key == "" then "" else EncodedChar(key[0], percent) + Encoded(key[1..], percent)
  }

  /** `buildResourceUrl` with a key: the key is encoded, and no quote in it doubled. */
  function BuiltUrl(address: string, key: string, percent: char -> string): string {
    address + ("('" + Encoded(key, percent) + "')")
  }

  /** `decode` takes back what is encoded. */
  ghost predicate TakesBack(decode: string -> Option<string>, percent: char -> string) {
    forall key :: decode(Encoded(key, percent)) == Some(key)
  }

  lemma {:induction false} EncodedHoldsQuotes(key: string, percent: char -> string)
    requires Percents(percent)
    ensures |Encoded(key, percent)| >= |key|
    ensures '\'' in Encoded(key, percent) <==> '\'' in key
  {
    if key != "" {
      EncodedHoldsQuotes(key[1..], percent);
      assert key == [key[0]] + key[1..];
    }
  }

  lemma {:induction false} NothingToDouble(text: string)
    requires '\'' !in text
    ensures Escape(text) == text
  {
    if text != "" {
      NothingToDouble(text[1..]);
      assert text == [text[0]] + text[1..];
    }
  }

  /** What is written as it is, in an encoded key, stands for itself: what follows it is the rest of the key encoded. */
  lemma {:induction false} EncodedAfter(key: string, percent: char -> string, j: nat) returns (m: nat)
    requires Percents(percent) && j < |Encoded(key, percent)|
    requires Encoded(key, percent)[j] == '(' || Encoded(key, percent)[j] == '\''
    ensures m < |key| && Encoded(key, percent)[j + 1..] == Encoded(key[m + 1..], percent)
  {
    var first, rest := EncodedChar(key[0], percent), Encoded(key[1..], percent);
    var code := first + rest;
    assert code == Encoded(key, percent);
    hide Encoded;
    if j < |first| {
      assert first[j] in first;
      assert first == [key[0]] && code[1..] == rest;
      m := 0;
    } else {
      hide Percents, EncodedChar;
      ConcatAt(first, rest);
      assert code[|first| + (j - |first|)] == rest[j - |first|];
      m := EncodedAfter(key[1..], percent, j - |first|);
      ConcatFrom(first, rest, j + 1);
      DropsAdd(key, 1, m + 1);
      m := m + 1;
    }
  }

  lemma QuoteFirst(key: string, percent: char -> string)
    requires Percents(percent) && key != ""
    ensures Encoded(key, percent) != "" && (Encoded(key, percent)[0] == '\'' <==> key[0] == '\'')
    ensures key[0] == '\'' ==> Encoded(key, percent)[1..] == Encoded(key[1..], percent)
  {
    var first := EncodedChar(key[0], percent);
    if !IsUnreserved(key[0]) {
      assert first[0] in first;
    }
  }

  lemma {:induction false} PassPlain(before: string, rest: string)
    requires '\'' !in before
    ensures Undoubled(before + rest)
         == if Undoubled(rest).None? then None else Some(before + Undoubled(rest).value)
  {
    if before == "" {
      assert before + rest == rest;
      assert Undoubled(rest).Some? ==> before + Undoubled(rest).value == Undoubled(rest).value;
    } else {
      assert (before + rest)[1..] == before[1..] + rest && before[0] in before;
      PassPlain(before[1..], rest);
      if Undoubled(rest).Some? {
        ConcatAssociates([before[0]], before[1..], Undoubled(rest).value);
      }
      assert before == [before[0]] + before[1..];
    }
  }

  /** Halving the quotes of an encoded key is encoding the key with its quotes halved. */
  lemma {:induction false} UndoubledEncoded(key: string, percent: char -> string)
    requires Percents(percent)
    ensures Undoubled(Encoded(key, percent))
         == if Undoubled(key).None? then None else Some(Encoded(Undoubled(key).value, percent))
    ensures Undoubled(key).Some? ==> |Undoubled(key).value| <= |key| && (|Undoubled(key).value| == |key| ==> '\'' !in key)
    decreases |key|
  {
    if key == "" {
    } else if key[0] != '\'' {
      var first, rest := EncodedChar(key[0], percent), Encoded(key[1..], percent);
      UndoubledEncoded(key[1..], percent);
      PassPlain(first, rest);
      assert key == [key[0]] + key[1..];
    } else if |key| > 1 {
      QuoteFirst(key, percent);
      QuoteFirst(key[1..], percent);
      if key[1] == '\'' {
        UndoubledEncoded(key[2..], percent);
        assert key[1..][1..] == key[2..];
        assert Encoded(key, percent)[2..] == Encoded(key, percent)[1..][1..] == Encoded(key[2..], percent);
        var u := Undoubled(key[2..]);
        if u.Some? {
          assert ("'" + u.value)[1..] == u.value;
        }
      }
    } else {
      QuoteFirst(key, percent);
    }
  }

  lemma {:induction false} UrlKeyIsOne(text: string, from: nat) returns (i: nat)
    requires UrlKey(text, from).Some?
    ensures i < |text| && text[i] == '(' && KeyFollows(text, i) && UrlKey(text, from) == KeyAfter(text[i + 1..])
    decreases |text| - from
  {
    i := from;
    if !(text[from] == '(' && KeyFollows(text, from)) {
      i := UrlKeyIsOne(text, from + 1);
    }
  }

  /** A parenthesis within a code in a URL: the code's rest follows it, and then the URL's end. */
  lemma WithinCode(address: string, code: string, i: nat)
    requires var text := address + ("('" + code + "')"); |address| < i < |text| && text[i] == '('
    ensures var text, j := address + ("('" + code + "')"), i - |address| - 2;
            0 <= j < |code| && code[j] == '(' && text[i + 1..] == code[j + 1..] + "')"
  {
    var built := "('" + code + "')";
    var text, j := address + built, i - |address| - 2;
    assert text[i] == built[j + 2];
    assert text[i + 1..] == built[j + 3..];
  }

  lemma KeyInCode(rest: string)
    requires KeyAfter(rest + "')").Some?
    ensures rest != "" && rest[0] == '\'' && KeyAfter(rest + "')") == Undoubled(rest[1..])
  {
    hide Undoubled;
    var tail := rest + "')";
    assert tail[..|tail| - 1][|rest|] == '\'';
    if rest != "" && rest[0] == '\'' {
      assert tail[1..|tail| - 2] == rest[1..];
    }
  }

  lemma KeyOfCode(code: string)
    ensures KeyAfter("'" + code + "')") == Undoubled(code)
  {
    var tail := "'" + code + "')";
    assert tail[1..|tail| - 2] == code;
  }

  /** Whatever key is read in a URL built of a key with a quote, at an address without parentheses, is a shorter one. */
  lemma ReadShorter(address: string, key: string, percent: char -> string) returns (short: string)
    requires Percents(percent) && '(' !in address && '\'' in key && UrlKey(BuiltUrl(address, key, percent), 0).Some?
    ensures |short| < |key| && UrlKey(BuiltUrl(address, key, percent), 0) == Some(Encoded(short, percent))
  {
    hide UrlKey, Encoded, Undoubled, KeyAfter, Percents;
    var code := Encoded(key, percent);
    var text := BuiltUrl(address, key, percent);
    var i := UrlKeyIsOne(text, 0);
    forall k | 0 <= k < |address| ensures text[k] != '(' {
      assert text[k] == address[k] && address[k] in address;
    }
    if i == |address| {
      assert text[i + 1..] == "'" + code + "')";
      KeyOfCode(code);
      UndoubledEncoded(key, percent);
      short := Undoubled(key).value;
    } else {
      var j := i - |address| - 2;
      WithinCode(address, code, i);
      KeyInCode(code[j + 1..]);
      var m := EncodedAfter(key, percent, j + 1);
      assert code[j + 1..][1..] == code[j + 2..];
      UndoubledEncoded(key[m + 1..], percent);
      short := Undoubled(key[m + 1..]).value;
    }
  }

  /**
   * The URL the program builds of a key reads back as the key where the key has no quote, at any address; and at an address
   * without parentheses, only there.
   */
  lemma BuiltUrlReadsBackExactly(address: string, key: string, percent: char -> string, decode: string -> Option<string>)
    requires Percents(percent) && TakesBack(decode, percent) && key != ""
    ensures '\'' !in key ==> KeyFromHeader(Some(BuiltUrl(address, key, percent)), decode) == Some(key)
    ensures '(' !in address ==>
              (KeyFromHeader(Some(BuiltUrl(address, key, percent)), decode) == Some(key) <==> '\'' !in key)
  {
    hide UrlKey, Encoded, Trim, Unwrapped;
    var code := Encoded(key, percent);
    EncodedHoldsQuotes(key, percent);
    if '\'' !in key {
      NothingToDouble(code);
      assert BuiltUrl(address, key, percent) == EntityUrl(address, code);
      UrlKeyReadsBack(address, code, decode);
    } else if '(' !in address {
      var before := TrimStart(address);
      TrimmedBuilt(address, key, percent);
      NoneTrimmedIn(address);
      var text := BuiltUrl(before, key, percent);
      if UrlKey(text, 0).Some? {
        var short := ReadShorter(before, key, percent);
        assert decode(Encoded(short, percent)) == Some(short);
      } else {
        assert text[|text| - 1] == ')';
        NotUnwrapped(text);
        assert |text| > |key|;
      }
    }
  }

  lemma NotUnwrapped(text: string)
    requires text != "" && text[|text| - 1] != '"'
    ensures Unwrapped(text) == text
  {
  }

  lemma {:induction false} NoneTrimmedIn(address: string)
    requires '(' !in address
    ensures '(' !in TrimStart(address)
  {
    if address != "" && IsSpace(address[0]) {
      NoneTrimmedIn(address[1..]);
    }
  }

  lemma TrimmedBuilt(address: string, key: string, percent: char -> string)
    ensures Trim(BuiltUrl(address, key, percent)) == BuiltUrl(TrimStart(address), key, percent)
  {
    var rest := "('" + Encoded(key, percent) + "')";
    TrimStartConcat(address, rest);
    var text := TrimStart(address) + rest;
    hide TrimStart, Encoded;
    assert text[|text| - 1] == rest[|rest| - 1] == ')';
  }

  lemma {:induction false} NoParenthesis(text: string, from: nat)
    requires '(' !in text
    ensures UrlKey(text, from) == None
    decreases |text| - from
  {
    if from < |text| {
      NoParenthesis(text, from + 1);
    }
  }

  /** A key on its own, in quotation marks or not, is itself. */
  lemma BareKeyReadsBack(key: string, decode: string -> Option<string>)
    requires key != "" && IsTrimmed(key) && forall c | c in key :: c != '(' && c != '/' && c != '"' && !IsLineEnd(c)
    ensures KeyFromHeader(Some(key), decode) == Some(key)
    ensures KeyFromHeader(Some("\"" + key + "\""), decode) == Some(key)
  {
    hide UrlKey;
    var wrapped := "\"" + key + "\"";
    NoParenthesis(key, 0);
    NoParenthesis(wrapped, 0);
    assert wrapped[1..|wrapped| - 1] == key;
    assert key[0] in key && IsTrimmed(wrapped);
    assert Unwrapped(wrapped) == key && Unwrapped(key) == key;
  }

  // A created record's key

  datatype Response = Response(
    status: int, body: Json, entityId: Option<string>, odataEntityId: Option<string>, location: Option<string>)

  /** A body that is no object has no fields. */
  function BodyField(response: Response, keyProperty: Option<string>): Field {
    if keyProperty.Some? && keyProperty.value != "" && response.body.JObject? && keyProperty.value in response.body.fields then
      AsField(response.body.fields[keyProperty.value])
    else Field.Missing
  }

  /** The key a create gave the record it made, when it made one: the body's, else the first that a header names. */
  function CreatedKeyOf(response: Response, keyProperty: Option<string>, decode: string -> Option<string>): Option<string> {
    if response.status != 201 && response.status != 204 then None
    else if KeyOf(BodyField(response, keyProperty)).Some? then KeyOf(BodyField(response, keyProperty))
    else
      OrElse(KeyFromHeader(response.entityId, decode),
             OrElse(KeyFromHeader(response.odataEntityId, decode), KeyFromHeader(response.location, decode)))
  }

  /**
   * A create has made a record exactly where it is answered 201 or 204: then its key is the body's, else what `EntityId`
   * names, else `OData-EntityId`, else `Location`.
   */
  lemma CreatedKeyExactly(response: Response, keyProperty: Option<string>, decode: string -> Option<string>)
    ensures var key := CreatedKeyOf(response, keyProperty, decode);
            var body, named := KeyOf(BodyField(response, keyProperty)), KeyFromHeader(response.entityId, decode);
            var odata, location := KeyFromHeader(response.odataEntityId, decode), KeyFromHeader(response.location, decode);
            forall k :: key == Some(k) <==>
              && (response.status == 201 || response.status == 204)
              && (|| body == Some(k) || (body == None && named == Some(k)) || (body == None && named == None && odata == Some(k))
                  || (body == None && named == None && odata == None && location == Some(k)))
  {
  }

  /** Decoding never empties a text. */
  ghost predicate Decodes(decode: string -> Option<string>) {
    forall s | s != "" :: decode(s) != Some("")
  }

  /** A created key is never empty, so what is sent with it never goes to the whole collection. */
  lemma CreatedKeysAreNotEmpty(response: Response, keyProperty: Option<string>, decode: string -> Option<string>)
    requires Decodes(decode)
    ensures CreatedKeyOf(response, keyProperty, decode) != Some("")
  {
  }
}
