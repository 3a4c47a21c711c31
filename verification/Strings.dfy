/** Options, results, characters, and the scanning of a string by character class. */
module Strings {
  datatype Option<+T> = None | Some(value: T)

  datatype Result<+T, +E> = Success(value: T) | Failure(error: E) {
    predicate IsFailure() {
      Failure?
    }

    function PropagateFailure<U>(): Result<U, E>
      requires Failure?
    {
      Failure(error)
    }

    function Extract(): T
      requires Success?
    {
      value
    }
  }

  /** `??` */
  function OrElse<T>(first: Option<T>, second: Option<T>): Option<T> {
    if first.Some? then first else second
  }

  predicate IsDigit(c: char) {
    '0' <= c <= '9'
  }

  predicate IsHexDigit(c: char) {
    IsDigit(c) || 'a' <= c <= 'f' || 'A' <= c <= 'F'
  }

  predicate IsLetter(c: char) {
    'a' <= c <= 'z' || 'A' <= c <= 'Z'
  }

  /** `/[a-zA-Z0-9_]/` */
  predicate IsAlphanumeric(c: char) {
    IsLetter(c) || IsDigit(c) || c == '_'
  }

  /** `/\s/`, and what `trim` removes. */
  predicate IsSpace(c: char) {
    || c == ' ' || '\U{9}' <= c <= '\U{d}' || c == '\U{a0}' || c == '\U{1680}'
    || '\U{2000}' <= c <= '\U{200a}' || c == '\U{2028}' || c == '\U{2029}' || c == '\U{202f}'
    || c == '\U{205f}' || c == '\U{3000}' || c == '\U{feff}'
  }

  /** The character classes the scanners run over. */
  datatype CharClass = Digit | HexDigit | WordChar | Space | NotQuote

  predicate InClass(c: char, class_: CharClass) {
    match class_
    case Digit => IsDigit(c)
    case HexDigit => IsHexDigit(c)
    case WordChar => IsAlphanumeric(c) || c == '.'
    case Space => IsSpace(c)
    case NotQuote => c != '\''
  }

  predicate CharAt(s: string, i: nat, c: char) {
    i < |s| && s[i] == c
  }

  predicate AllIn(s: string, lo: nat, hi: nat, class_: CharClass) {
    lo <= hi <= |s| && forall i | lo <= i < hi :: InClass(s[i], class_)
  }

  /** The end of the longest run of a class that starts at `pos`. */
  function SpanEnd(s: string, pos: nat, class_: CharClass): (end: nat)
    requires pos <= |s|
    ensures pos <= end && AllIn(s, pos, end, class_)
    ensures end < |s| ==> !InClass(s[end], class_)
    decreases |s| - pos
  {
    if pos < |s| && InClass(s[pos], class_) then SpanEnd(s, pos + 1, class_) else pos
  }

  /** The run that `SpanEnd` finds is the only maximal one. */
  lemma SpanEndUnique(s: string, pos: nat, end: nat, class_: CharClass)
    requires AllIn(s, pos, end, class_)
    requires end < |s| ==> !InClass(s[end], class_)
    ensures SpanEnd(s, pos, class_) == end
  {
  }

  /** A text that sits inside another is scanned alike in both, up to where the text ends. */
  lemma {:induction false} SpanEndInside(inner: string, outer: string, at: nat, pos: nat, class_: CharClass)
    requires pos <= |inner| && at + |inner| <= |outer| && outer[at..at + |inner|] == inner
    requires SpanEnd(inner, pos, class_) < |inner|
          || at + |inner| == |outer| || !InClass(outer[at + |inner|], class_)
    ensures SpanEnd(outer, at + pos, class_) == at + SpanEnd(inner, pos, class_)
  {
    var end := SpanEnd(inner, pos, class_);
    assert forall i | 0 <= i < |inner| :: outer[at + i] == inner[i];
    assert forall i | at + pos <= i < at + end :: outer[i] == inner[i - at];
    SpanEndUnique(outer, at + pos, at + end, class_);
  }

  function LowerChar(c: char): char {
    if 'A' <= c <= 'Z' then (c as int + 32) as char else c
  }

  /** `toLowerCase` on the ASCII letters a word is made of. */
  function Lower(s: string): (lower: string)
    ensures |lower| == |s|
    ensures forall i | 0 <= i < |s| :: lower[i] == LowerChar(s[i])
  {
    seq(|s|, i requires 0 <= i < |s| => LowerChar(s[i]))
  }

  lemma LowerIdempotent(s: string)
    ensures Lower(Lower(s)) == Lower(s)
  {
  }

  /** `/^[a-zA-Z_][a-zA-Z0-9_.]*$/` */
  predicate IsWord(s: string) {
    |s| > 0 && (IsLetter(s[0]) || s[0] == '_') && AllIn(s, 0, |s|, WordChar)
  }

  // White space, digits and quotes

  function TrimStart(s: string): (t: string)
    ensures |t| <= |s| && (t != "" ==> !IsSpace(t[0]))
  {
    if s != "" && IsSpace(s[0]) then TrimStart(s[1..]) else s
  }

  function TrimEnd(s: string): (t: string)
    ensures |t| <= |s| && t == s[..|t|] && (t != "" ==> !IsSpace(t[|t| - 1]))
  {
    if s != "" && IsSpace(s[|s| - 1]) then TrimEnd(s[..|s| - 1]) else s
  }

  predicate IsTrimmed(s: string) {
    s != "" ==> !IsSpace(s[0]) && !IsSpace(s[|s| - 1])
  }

  function Trim(s: string): (t: string)
    ensures |t| <= |s| && IsTrimmed(t)
    ensures IsTrimmed(s) ==> t == s
  {
    TrimEnd(TrimStart(s))
  }

  function DigitChar(n: nat): char
    requires n < 10
  {
    ('0' as int + n) as char
  }

  function NatText(n: nat): string {
    if n < 10 then [DigitChar(n)] else NatText(n / 10) + [DigitChar(n % 10)]
  }

  function DigitValue(c: char): (value: nat)
    requires IsDigit(c)
    ensures value < 10
  {
    c as int - '0' as int
  }

  /** What a row of decimal digits stands for. */
  function NatValue(s: string): nat
    requires AllIn(s, 0, |s|, Digit)
  {
    if s == "" then 0 else NatValue(s[..|s| - 1]) * 10 + DigitValue(s[|s| - 1])
  }

  function Power(base: nat, n: nat): (power: nat)
    ensures base > 0 ==> power > 0
  {
    if n == 0 then 1 else base * Power(base, n - 1)
  }

  lemma {:induction false} NatReadsBack(n: nat)
    ensures NatText(n) != "" && AllIn(NatText(n), 0, |NatText(n)|, Digit)
    ensures NatValue(NatText(n)) == n
  {
    if n < 10 {
      assert [DigitChar(n)][..0] == "";
    } else {
      NatReadsBack(n / 10);
      assert NatText(n)[..|NatText(n)| - 1] == NatText(n / 10);
    }
  }

  /** Single quotes doubled. */
  function Escape(value: string): (escaped: string) {
    if value == "" then ""
    else (if value[0] == '\'' then "''" else [value[0]]) + Escape(value[1..])
  }

  // Lists without repetition

  predicate Distinct<T(==)>(keys: seq<T>) {
    forall i, j | 0 <= i < j < |keys| :: keys[i] != keys[j]
  }

  lemma DistinctCounts<T>(keys: seq<T>)
    ensures Distinct(keys) <==> forall key :: multiset(keys)[key] <= 1
  {
    if keys != [] {
      var init, last := keys[..|keys| - 1], keys[|keys| - 1];
      assert keys == init + [last];
      DistinctCounts(init);
      if Distinct(keys) {
        forall key ensures multiset(keys)[key] <= 1 {
          assert key == last ==> key !in init;
        }
      }
      if forall key :: multiset(keys)[key] <= 1 {
        forall key ensures multiset(init)[key] <= 1 {
          assert multiset(keys)[key] <= 1;
        }
        assert multiset(keys)[last] <= 1;
        assert last !in multiset(init);
        forall i | 0 <= i < |init| ensures init[i] != last {
          assert init[i] in multiset(init);
        }
      }
    }
  }

  lemma ConcatAssociates<T>(a: seq<T>, b: seq<T>, c: seq<T>)
    ensures (a + b) + c == a + (b + c)
  {
  }

  /** The places of a concatenation. */
  lemma ConcatAt<T>(a: seq<T>, b: seq<T>)
    ensures |a + b| == |a| + |b|
    ensures forall i | 0 <= i < |a| :: (a + b)[i] == a[i]
    ensures forall i | 0 <= i < |b| :: (a + b)[|a| + i] == b[i]
  {
  }

  /** A concatenation without its first element or its first two. */
  lemma ConcatRest<T>(a: seq<T>, b: seq<T>)
    ensures a == [] ==> a + b == b
    ensures |a| >= 1 ==> (a + b)[0] == a[0] && (a + b)[1..] == a[1..] + b
    ensures |a| >= 2 ==> (a + b)[1] == a[1] && (a + b)[2..] == a[2..] + b
  {
  }

  lemma ConcatFrom<T>(a: seq<T>, b: seq<T>, k: nat)
    requires |a| <= k <= |a| + |b|
    ensures (a + b)[k..] == b[k - |a|..]
  {
  }

  lemma DropsAdd<T>(s: seq<T>, i: nat, k: nat)
    requires i + k <= |s|
    ensures s[i..][k..] == s[i + k..]
  {
  }

  lemma SplitsAt<T>(s: seq<T>, k: nat)
    requires k <= |s|
    ensures s == s[..k] + s[k..]
  {
  }

  function Concat<T>(lists: seq<seq<T>>): seq<T> {
    if lists == [] then [] else Concat(lists[..|lists| - 1]) + lists[|lists| - 1]
  }

  lemma {:induction false} ConcatFirst<T>(lists: seq<seq<T>>)
    requires lists != []
    ensures Concat(lists) == lists[0] + Concat(lists[1..])
  {
    var init, last := lists[..|lists| - 1], lists[|lists| - 1];
    if init != [] {
      ConcatFirst(init);
      assert lists[1..][..|lists| - 2] == init[1..];
      ConcatAssociates(lists[0], Concat(init[1..]), last);
    }
  }
}
