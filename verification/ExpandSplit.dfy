/** Splitting at depth zero: the one way to cut a string at the delimiters that no parenthesis encloses. */
module ExpandSplit {
  import opened Strings

  function Delta(c: char): int {
    if c == '(' then 1 else if c == ')' then -1 else 0
  }

  function Depth(s: string): int {
    if s == "" then 0 else Depth(s[..|s| - 1]) + Delta(s[|s| - 1])
  }

  predicate IsDelimiter(d: char) {
    d != '(' && d != ')'
  }

  /** No delimiter stands where no parenthesis encloses it. */
  ghost predicate Uncut(s: string, d: char) {
    forall i | 0 <= i < |s| && s[i] == d :: Depth(s[..i]) != 0
  }

  /** The pieces, before they are trimmed: those of `s`, with `current` read of the first, `depth` deep. */
  function RawSplit(s: string, depth: int, current: string, d: char): (parts: seq<string>)
    ensures parts != []
  {
    if s == "" then [current]
    else if s[0] == '(' then RawSplit(s[1..], depth + 1, current + [s[0]], d)
    else if s[0] == ')' then RawSplit(s[1..], depth - 1, current + [s[0]], d)
    else if s[0] == d && depth == 0 then [current] + RawSplit(s[1..], 0, "", d)
    else RawSplit(s[1..], depth, current + [s[0]], d)
  }

  function Trimmed(parts: seq<string>): (trimmed: seq<string>)
    ensures |trimmed| == |parts| && forall i | 0 <= i < |parts| :: trimmed[i] == Trim(parts[i])
  {
    seq(|parts|, i requires 0 <= i < |parts| => Trim(parts[i]))
  }

  function NonEmpty(parts: seq<string>): (kept: seq<string>)
    ensures forall p <- kept :: p != "" && p in parts
  {
    if parts == [] then []
    else NonEmpty(parts[..|parts| - 1]) + if parts[|parts| - 1] == "" then [] else [parts[|parts| - 1]]
  }

  function Split(s: string, d: char): seq<string> {
    NonEmpty(Trimmed(RawSplit(s, 0, "", d)))
  }

  function JoinWith(parts: seq<string>, d: char): string {
    if |parts| == 0 then ""
    else if |parts| == 1 then parts[0]
    else parts[0] + [d] + JoinWith(parts[1..], d)
  }

  // The loop

  lemma TrimmedMore(parts: seq<string>, part: string)
    ensures Trimmed(parts + [part]) == Trimmed(parts) + [Trim(part)]
  {
  }

  /** One turn of the loop over the characters. */
  lemma RawSplitStep(s: string, i: nat, depth: int, start: nat, d: char)
    requires IsDelimiter(d) && start <= i < |s|
    ensures RawSplit(s[i..], depth, s[start..i], d)
         == if s[i] == d && depth == 0 then [s[start..i]] + RawSplit(s[i + 1..], 0, s[i + 1..i + 1], d)
            else RawSplit(s[i + 1..], depth + Delta(s[i]), s[start..i + 1], d)
  {
    assert s[i..][1..] == s[i + 1..];
    assert s[start..i] + [s[i]] == s[start..i + 1];
    assert s[i + 1..i + 1] == "";
  }

  method SplitAtDepthZero(input: string, delimiter: char) returns (kept: seq<string>)
    requires IsDelimiter(delimiter)
    ensures kept == Split(input, delimiter)
  {
    hide RawSplit, Trim, Trimmed, Split;
    var parts := [];
    var depth, start := 0, 0;
    ghost var raw := [];
    assert input[0..] == input && input[0..0] == "" && Trimmed(raw) == [];
    for i := 0 to |input|
      invariant 0 <= start <= i
      invariant RawSplit(input, 0, "", delimiter) == raw + RawSplit(input[i..], depth, input[start..i], delimiter)
      invariant parts == Trimmed(raw)
    {
      RawSplitStep(input, i, depth, start, delimiter);
      if input[i] == '(' {
        depth := depth + 1;
      } else if input[i] == ')' {
        depth := depth - 1;
      } else if input[i] == delimiter && depth == 0 {
        parts := parts + [Trim(input[start..i])];
        TrimmedMore(raw, input[start..i]);
        assert forall rest :: raw + ([input[start..i]] + rest) == raw + [input[start..i]] + rest;
        raw := raw + [input[start..i]];
        start := i + 1;
      }
    }
    RawSplitEnd(depth, input[start..], delimiter);
    TrimmedMore(raw, input[start..]);
    parts := parts + [Trim(input[start..])];
    assert input[|input|..] == "" && input[start..|input|] == input[start..];
    kept := FilterNonEmpty(parts);
    SplitParts(input, delimiter);
  }

  lemma SplitParts(s: string, d: char)
    ensures Split(s, d) == NonEmpty(Trimmed(RawSplit(s, 0, "", d)))
  {
  }

  lemma RawSplitEnd(depth: int, current: string, d: char)
    ensures RawSplit("", depth, current, d) == [current]
  {
  }

  method FilterNonEmpty(parts: seq<string>) returns (kept: seq<string>)
    ensures kept == NonEmpty(parts)
  {
    kept := [];
    for i := 0 to |parts|
      invariant kept == NonEmpty(parts[..i])
    {
      assert parts[..i + 1][..i] == parts[..i];
      if |parts[i]| > 0 {
        kept := kept + [parts[i]];
      }
    }
    assert parts[..|parts|] == parts;
  }

  // What the cuts are

  lemma {:induction false} DepthConcat(a: string, b: string)
    ensures Depth(a + b) == Depth(a) + Depth(b)
  {
    if b == "" {
      assert a + b == a;
    } else {
      assert (a + b)[..|a + b| - 1] == a + b[..|b| - 1];
      DepthConcat(a, b[..|b| - 1]);
    }
  }

  lemma DepthMore(s: string, c: char)
    ensures Depth(s + [c]) == Depth(s) + Delta(c)
  {
    assert (s + [c])[..|s|] == s;
  }

  lemma UncutMore(s: string, c: char, d: char)
    requires Uncut(s, d) && (c == d ==> Depth(s) != 0)
    ensures Uncut(s + [c], d)
  {
    forall i | 0 <= i < |s + [c]| && (s + [c])[i] == d ensures Depth((s + [c])[..i]) != 0 {
      assert (s + [c])[..i] == s[..i];
    }
  }

  /** The pieces cut apart: each but the last is balanced, and none holds a delimiter at depth zero. */
  ghost predicate AreCuts(parts: seq<string>, d: char) {
    && parts != []
    && (forall i | 0 <= i < |parts| - 1 :: Depth(parts[i]) == 0)
    && forall i | 0 <= i < |parts| :: Uncut(parts[i], d)
  }

  lemma JoinFirst(first: string, rest: seq<string>, d: char)
    requires rest != []
    ensures JoinWith([first] + rest, d) == first + [d] + JoinWith(rest, d)
  {
    assert ([first] + rest)[1..] == rest;
  }

  lemma RawSplitReadsOne(s: string, depth: int, current: string, d: char)
    requires s != "" && IsDelimiter(d)
    ensures RawSplit(s, depth, current, d)
         == if s[0] == d && depth == 0 then [current] + RawSplit(s[1..], 0, "", d)
            else RawSplit(s[1..], depth + Delta(s[0]), current + [s[0]], d)
  {
  }

  lemma RawSplitEnds(depth: int, current: string, d: char)
    requires depth == Depth(current) && Uncut(current, d)
    ensures RawSplit("", depth, current, d) == [current]
    ensures JoinWith([current], d) == current && AreCuts([current], d)
  {
  }

  lemma {:induction false} RawSplitCuts(s: string, depth: int, current: string, d: char)
    requires IsDelimiter(d) && depth == Depth(current) && Uncut(current, d)
    ensures JoinWith(RawSplit(s, depth, current, d), d) == current + s
    ensures AreCuts(RawSplit(s, depth, current, d), d)
    decreases |s|
  {
    hide *;
    if s == "" {
      RawSplitEnds(depth, current, d);
    } else {
      var c, rest := s[0], s[1..];
      RawSplitReadsOne(s, depth, current, d);
      SplitsAt(s, 1);
      ConcatAssociates(current, [c], rest);
      if c == d && depth == 0 {
        EmptyUncut(d);
        RawSplitCuts(rest, 0, "", d);
        ConcatRest("", rest);
        JoinFirst(current, RawSplit(rest, 0, "", d), d);
        CutsMore(current, RawSplit(rest, 0, "", d), d);
      } else {
        DepthMore(current, c);
        UncutMore(current, c, d);
        RawSplitCuts(rest, depth + Delta(c), current + [c], d);
      }
    }
  }

  lemma EmptyUncut(d: char)
    ensures Depth("") == 0 && Uncut("", d)
  {
  }

  lemma CutsMore(first: string, rest: seq<string>, d: char)
    requires AreCuts(rest, d) && Depth(first) == 0 && Uncut(first, d)
    ensures AreCuts([first] + rest, d)
  {
    var all := [first] + rest;
    forall i | 0 <= i < |all| ensures Uncut(all[i], d) && (i < |all| - 1 ==> Depth(all[i]) == 0) {
      assert i > 0 ==> all[i] == rest[i - 1];
    }
  }

  /** Reading a piece with no delimiter at depth zero cuts nothing. */
  lemma {:induction false} RawSplitReads(part: string, tail: string, i: nat, d: char)
    requires IsDelimiter(d) && Uncut(part, d) && i <= |part|
    ensures RawSplit(part + tail, 0, "", d) == RawSplit(part[i..] + tail, Depth(part[..i]), part[..i], d)
  {
    if i == 0 {
      assert part[0..] == part && part[..0] == "";
    } else {
      RawSplitReads(part, tail, i - 1, d);
      var rest := part[i - 1..] + tail;
      assert rest[0] == part[i - 1] && rest[1..] == part[i..] + tail;
      assert part[..i - 1] + [part[i - 1]] == part[..i];
      DepthMore(part[..i - 1], part[i - 1]);
    }
  }

  /** Any pieces that could have been cut apart are the pieces their join is cut into. */
  lemma {:induction false} RawSplitInverts(parts: seq<string>, d: char)
    requires IsDelimiter(d) && AreCuts(parts, d)
    ensures RawSplit(JoinWith(parts, d), 0, "", d) == parts
    decreases |parts|
  {
    var first := parts[0];
    if |parts| == 1 {
      RawSplitReads(first, "", |first|, d);
      assert first + "" == first && first[|first|..] + "" == "" && first[..|first|] == first;
      assert parts == [first];
    } else {
      var rest := parts[1..];
      assert AreCuts(rest, d) by {
        assert forall i | 0 <= i < |rest| :: rest[i] == parts[i + 1];
      }
      RawSplitInverts(rest, d);
      var tail := [d] + JoinWith(rest, d);
      assert JoinWith(parts, d) == first + tail;
      RawSplitReads(first, tail, |first|, d);
      assert first[|first|..] + tail == tail && first[..|first|] == first;
      assert tail[1..] == JoinWith(rest, d);
      assert parts == [first] + rest;
    }
  }

  /**
   * The cuts are the delimiters at depth zero, and no others: the pieces of a string are the only pieces that join to it,
   * are balanced but for the last, and hold no delimiter at depth zero.
   */
  lemma SplitIsTheOnlyCut(s: string, parts: seq<string>, d: char)
    requires IsDelimiter(d)
    ensures parts == RawSplit(s, 0, "", d) <==> JoinWith(parts, d) == s && AreCuts(parts, d)
  {
    assert "" + s == s;
    RawSplitCuts(s, 0, "", d);
    if JoinWith(parts, d) == s && AreCuts(parts, d) {
      RawSplitInverts(parts, d);
    }
  }

  lemma {:induction false} NonEmptyAll(parts: seq<string>)
    requires forall i | 0 <= i < |parts| :: parts[i] != ""
    ensures NonEmpty(parts) == parts
  {
    if parts != [] {
      NonEmptyAll(parts[..|parts| - 1]);
    }
  }

  lemma {:induction false} PartsLength(parts: seq<string>, d: char)
    ensures forall p <- parts :: |p| <= |JoinWith(parts, d)|
    decreases |parts|
  {
    if |parts| > 1 {
      PartsLength(parts[1..], d);
    } else if |parts| == 1 {
      assert parts == [parts[0]];
    }
  }

  lemma SplitLength(s: string, d: char)
    requires IsDelimiter(d)
    ensures forall p <- Split(s, d) :: |p| <= |s|
  {
    var raw := RawSplit(s, 0, "", d);
    assert "" + s == s;
    RawSplitCuts(s, 0, "", d);
    PartsLength(raw, d);
    forall p <- Trimmed(raw) ensures |p| <= |s| {
      var i :| 0 <= i < |raw| && p == Trim(raw[i]);
      assert raw[i] in raw;
    }
  }

  /** Splitting inverts joining, on trimmed, non-empty, balanced segments with no delimiter at depth zero. */
  lemma SplitInvertsJoin(segments: seq<string>, d: char)
    requires IsDelimiter(d)
    requires forall p <- segments :: p != "" && IsTrimmed(p) && Depth(p) == 0 && Uncut(p, d)
    ensures Split(JoinWith(segments, d), d) == segments
  {
    if segments == [] {
      assert RawSplit("", 0, "", d) == [""];
      assert Trimmed([""]) == [""];
      assert [""][..0] == [];
    } else {
      RawSplitInverts(segments, d);
      assert forall i | 0 <= i < |segments| :: segments[i] in segments;
      assert Trimmed(segments) == segments;
      NonEmptyAll(segments);
    }
  }
}
