/** Masking a text with secrets in it: the secrets become their masks, and the text between them stays. */
module SecretsInText {
  import opened Strings
  import opened Secrets

  /** Pieces of text with others between them. */
  function Interleaved(pieces: seq<string>, between: seq<string>): string
    requires |pieces| == |between| + 1
    decreases |between|
  {
    if between == [] then pieces[0]
    else pieces[0] + (between[0] + Interleaved(pieces[1..], between[1..]))
  }

  /** Four stars and the last four characters. */
  function LastFour(secret: string): string {
    "****" + if |secret| < 4 then secret else secret[|secret| - 4..]
  }

  /** The secrets, with those among `done` masked. */
  function Masked(secrets: seq<string>, done: set<string>): (masked: seq<string>)
    ensures |masked| == |secrets|
  {
    if secrets == [] then []
    else [if secrets[0] in done then MaskSecret(secrets[0]) else secrets[0]] + Masked(secrets[1..], done)
  }

  function Stage(pieces: seq<string>, secrets: seq<string>, done: set<string>): string
    requires |pieces| == |secrets| + 1
  {
    Interleaved(pieces, Masked(secrets, done))
  }

  /** The value is a secret that stands, not yet masked, at this place of the text. */
  predicate IsJoint(pieces: seq<string>, secrets: seq<string>, done: set<string>, i: int, value: string)
    requires |pieces| == |secrets| + 1
    decreases |secrets|
  {
    secrets != [] &&
    var first := if secrets[0] in done then MaskSecret(secrets[0]) else secrets[0];
    || (i == |pieces[0]| && value == secrets[0] && value !in done)
    || (i >= |pieces[0]| + |first| && IsJoint(pieces[1..], secrets[1..], done, i - |pieces[0]| - |first|, value))
  }

  /** The value occurs in the text after `w` only where it is a secret between pieces, and in `w` only where it may. */
  ghost predicate OnlyJoints(w: string, starts: set<int>, pieces: seq<string>, secrets: seq<string>, done: set<string>, value: string)
    requires |pieces| == |secrets| + 1
  {
    forall i: nat | OccursAt(w + Stage(pieces, secrets, done), value, i) ::
      i in starts || (i >= |w| && IsJoint(pieces, secrets, done, i - |w|, value))
  }

  lemma StageStep(pieces: seq<string>, secrets: seq<string>, done: set<string>)
    requires |pieces| == |secrets| + 1 && secrets != []
    ensures Stage(pieces, secrets, done)
         == pieces[0] + ((if secrets[0] in done then MaskSecret(secrets[0]) else secrets[0]) + Stage(pieces[1..], secrets[1..], done))
  {
    hide MaskSecret;
  }

  lemma StageEnd(pieces: seq<string>, done: set<string>)
    requires |pieces| == 1
    ensures Stage(pieces, [], done) == pieces[0]
  {
  }

  // Masking makes no occurrence of a value that meets no mask's stars

  /** An occurrence in a part of a text that follows another is one in both. */
  lemma OccursFurther(before: string, text: string, value: string, i: nat)
    requires OccursAt(text, value, i)
    ensures OccursAt(before + text, value, |before| + i)
  {
    OccursWithin(before, text, "", value, i);
    assert before + text + "" == before + text;
  }

  lemma OccursNearer(text: string, after: string, value: string, i: nat)
    requires OccursAt(text, value, i)
    ensures OccursAt(text + after, value, i)
  {
    OccursWithin("", text, after, value, i);
    assert "" + text + after == text + after;
  }

  /** Where a first secret is still as it was, what stands before the rest is longer by it. */
  lemma LongerBefore(w: string, starts: set<int>, pieces: seq<string>, secrets: seq<string>, done: set<string>, value: string)
    requires |pieces| == |secrets| + 1 && secrets != [] && secrets[0] !in done
    requires OnlyJoints(w, starts, pieces, secrets, done, value)
    ensures var more := if value == secrets[0] then starts + {|w| + |pieces[0]|} else starts;
            OnlyJoints(w + pieces[0] + secrets[0], more, pieces[1..], secrets[1..], done, value)
    ensures w + Stage(pieces, secrets, done) == w + pieces[0] + secrets[0] + Stage(pieces[1..], secrets[1..], done)
  {
    hide OccursAt, MaskSecret, Stage;
    StageStep(pieces, secrets, done);
    var rest := Stage(pieces[1..], secrets[1..], done);
    ConcatAssociates(w, pieces[0], secrets[0] + rest);
    ConcatAssociates(w + pieces[0], secrets[0], rest);
  }

  /** After a first secret that is masked, only its last four characters stand before the rest. */
  lemma TailBefore(w: string, starts: set<int>, pieces: seq<string>, secrets: seq<string>, value: string)
    requires |pieces| == |secrets| + 1 && secrets != [] && |secrets[0]| >= MIN_REGISTERABLE_LENGTH && value != secrets[0]
    requires OnlyJoints(w, starts, pieces, secrets, {}, value) && forall i <- starts :: i < |w|
    ensures OnlyJoints(Revealed(secrets[0]), {}, pieces[1..], secrets[1..], {}, value)
  {
    var secret := secrets[0];
    var rest := Stage(pieces[1..], secrets[1..], {});
    var tail := Revealed(secret);
    RevealedIsTail(secret);
    var head := w + pieces[0] + secret[..|secret| - 4];
    StageStep(pieces, secrets, {});
    HeadAndTail(w, pieces[0], secret, rest);
    hide OccursAt, MaskSecret, Stage, Revealed;
    forall i: nat | OccursAt(tail + rest, value, i)
      ensures i >= |tail| && IsJoint(pieces[1..], secrets[1..], {}, i - |tail|, value)
    {
      OccursFurther(head, tail + rest, value, i);
      assert OccursAt(w + Stage(pieces, secrets, {}), value, |head| + i);
    }
  }

  lemma HeadAndTail(w: string, piece: string, secret: string, rest: string)
    requires |secret| >= 4
    ensures w + (piece + (secret + rest)) == w + piece + secret[..|secret| - 4] + (secret[|secret| - 4..] + rest)
  {
    SplitsAt(secret, |secret| - 4);
    var a, b := secret[..|secret| - 4], secret[|secret| - 4..];
    hide *;
    ConcatAssociates(a, b, rest);
    ConcatAssociates(w, piece, a + (b + rest));
    ConcatAssociates(w + piece, a, b + rest);
  }

  /** A value that meets no mask's stars occurs, at any stage, only where it is a secret not yet masked. */
  lemma {:induction false} StageOccurrence(w: string, starts: set<int>, pieces: seq<string>, secrets: seq<string>, done: set<string>,
                                           value: string, i: nat)
    requires |pieces| == |secrets| + 1 && value !in done && Registrable(secrets) && value != ""
    requires forall s <- secrets | s in done :: !Meets(value, MaskSecret(s), |STARS|)
    requires OnlyJoints(w, starts, pieces, secrets, {}, value) && forall k <- starts :: k < |w|
    requires OccursAt(w + Stage(pieces, secrets, done), value, i)
    ensures i in starts || (i >= |w| && IsJoint(pieces, secrets, done, i - |w|, value))
    decreases |secrets|
  {
    hide OccursAt, MaskSecret, Stage, Meets, Revealed;
    if secrets == [] {
      StageEnd(pieces, done);
      StageEnd(pieces, {});
    } else if secrets[0] !in done {
      NextIsRegistrable(secrets);
      UnmaskedOccurrence(w, starts, pieces, secrets, done, value, i);
    } else {
      NextIsRegistrable(secrets);
      MaskedOccurrence(w, starts, pieces, secrets, done, value, i);
    }
  }

  lemma NextIsRegistrable(secrets: seq<string>)
    requires Registrable(secrets) && secrets != []
    ensures Registrable(secrets[1..]) && |secrets[0]| >= MIN_REGISTERABLE_LENGTH
  {
    assert forall i | 0 <= i < |secrets[1..]| :: secrets[1..][i] == secrets[i + 1];
  }

  lemma {:induction false} UnmaskedOccurrence(w: string, starts: set<int>, pieces: seq<string>, secrets: seq<string>, done: set<string>,
                                              value: string, i: nat)
    requires |pieces| == |secrets| + 1 && value !in done && secrets != [] && Registrable(secrets[1..]) && value != ""
    requires secrets[0] !in done && |secrets[0]| >= MIN_REGISTERABLE_LENGTH
    requires forall s <- secrets | s in done :: !Meets(value, MaskSecret(s), |STARS|)
    requires OnlyJoints(w, starts, pieces, secrets, {}, value) && forall k <- starts :: k < |w|
    requires OccursAt(w + Stage(pieces, secrets, done), value, i)
    ensures i in starts || (i >= |w| && IsJoint(pieces, secrets, done, i - |w|, value))
    decreases |secrets|, 0
  {
    hide OccursAt, MaskSecret, Stage, Meets, Revealed;
    LongerBefore(w, starts, pieces, secrets, {}, value);
    StageStep(pieces, secrets, done);
    var rest := Stage(pieces[1..], secrets[1..], done);
    ConcatAssociates(w, pieces[0], secrets[0] + rest);
    ConcatAssociates(w + pieces[0], secrets[0], rest);
    hide OnlyJoints;
    var more := if value == secrets[0] then starts + {|w| + |pieces[0]|} else starts;
    StageOccurrence(w + pieces[0] + secrets[0], more, pieces[1..], secrets[1..], done, value, i);
  }

  lemma {:induction false} MaskedOccurrence(w: string, starts: set<int>, pieces: seq<string>, secrets: seq<string>, done: set<string>,
                                            value: string, i: nat)
    requires |pieces| == |secrets| + 1 && value !in done && secrets != [] && Registrable(secrets[1..]) && value != ""
    requires secrets[0] in done && |secrets[0]| >= MIN_REGISTERABLE_LENGTH
    requires forall s <- secrets | s in done :: !Meets(value, MaskSecret(s), |STARS|)
    requires OnlyJoints(w, starts, pieces, secrets, {}, value) && forall k <- starts :: k < |w|
    requires OccursAt(w + Stage(pieces, secrets, done), value, i)
    ensures i in starts || (i >= |w| && IsJoint(pieces, secrets, done, i - |w|, value))
    decreases |secrets|, 0
  {
    hide OccursAt, MaskSecret, Stage, Meets, Revealed;
    var secret, rest := secrets[0], Stage(pieces[1..], secrets[1..], done);
    assert secret in secrets;
    StageStep(pieces, secrets, done);
    MaskIsStarsAndTail(secret);
    var before := w + pieces[0];
    ConcatAssociates(w, pieces[0], MaskSecret(secret) + rest);
    ConcatAssociates(STARS, Revealed(secret), rest);
    AroundStars(before, secret, rest, value, i);
    if OccursAt(before, value, i) {
      BeforeFirst(w, starts, pieces, secrets, value, i);
    } else {
      TailBefore(w, starts, pieces, secrets, value);
      hide OnlyJoints;
      StageOccurrence(Revealed(secret), {}, pieces[1..], secrets[1..], done, value, i - |before| - |STARS|);
      MaskLength(secret);
    }
  }

  lemma MaskLength(secret: string)
    requires |secret| >= MIN_REGISTERABLE_LENGTH
    ensures |MaskSecret(secret)| == 8 && |Revealed(secret)| == 4
  {
  }

  /** An occurrence before the first secret is one that may be. */
  lemma BeforeFirst(w: string, starts: set<int>, pieces: seq<string>, secrets: seq<string>, value: string, i: nat)
    requires |pieces| == |secrets| + 1 && secrets != [] && value != secrets[0] && value != ""
    requires OnlyJoints(w, starts, pieces, secrets, {}, value) && OccursAt(w + pieces[0], value, i)
    ensures i in starts
  {
    var rest := secrets[0] + Stage(pieces[1..], secrets[1..], {});
    assert i + |value| <= |w| + |pieces[0]|;
    OccursNearer(w + pieces[0], rest, value, i);
    StageStep(pieces, secrets, {});
    ConcatAssociates(w, pieces[0], rest);
    hide OccursAt, Stage, MaskSecret;
  }

  // One value masked

  /** A text before whose end the secret does not start is passed over. */
  lemma PassesOver(before: string, rest: string, secret: string, mask: string)
    requires secret != "" && forall i: nat | OccursAt(before + rest, secret, i) :: i >= |before|
    ensures ReplaceAll(before + rest, secret, mask) == before + ReplaceAll(rest, secret, mask)
  {
    hide ReplaceAll;
    if |rest| >= |secret| {
      PassedOver(before, rest, secret, mask);
    } else {
      forall i: nat ensures !OccursAt(before + rest, secret, i) && !OccursAt(rest, secret, i) {
        if OccursAt(rest, secret, i) {
          OccursFurther(before, rest, secret, i);
        }
      }
      AbsentIsKept(before + rest, secret, mask);
      AbsentIsKept(rest, secret, mask);
    }
  }

  /** Masking a value that occurs only where it is a secret masks those secrets. */
  lemma {:induction false} MasksJoints(pieces: seq<string>, secrets: seq<string>, done: set<string>, value: string)
    requires |pieces| == |secrets| + 1 && |value| >= MIN_REGISTERABLE_LENGTH && value !in done
    requires forall i: nat | OccursAt(Stage(pieces, secrets, done), value, i) :: IsJoint(pieces, secrets, done, i, value)
    ensures ReplaceAll(Stage(pieces, secrets, done), value, MaskSecret(value)) == Stage(pieces, secrets, done + {value})
    decreases |secrets|
  {
    hide OccursAt, MaskSecret, Stage, ReplaceAll;
    var mask := MaskSecret(value);
    if secrets == [] {
      StageEnd(pieces, done);
      StageEnd(pieces, done + {value});
      AbsentIsKept(pieces[0], value, mask);
    } else {
      var first := if secrets[0] in done then MaskSecret(secrets[0]) else secrets[0];
      var rest := Stage(pieces[1..], secrets[1..], done);
      StageStep(pieces, secrets, done);
      StageStep(pieces, secrets, done + {value});
      ConcatAssociates(pieces[0], first, rest);
      forall i: nat | OccursAt(rest, value, i) ensures IsJoint(pieces[1..], secrets[1..], done, i, value) {
        OccursFurther(pieces[0] + first, rest, value, i);
      }
      MasksJoints(pieces[1..], secrets[1..], done, value);
      if secrets[0] == value {
        PassesOver(pieces[0], value + rest, value, mask);
        ReplacesFirst(value, rest, mask);
      } else {
        PassesOver(pieces[0] + first, rest, value, mask);
        ConcatAssociates(pieces[0], first, ReplaceAll(rest, value, mask));
      }
    }
  }

  lemma ReplacesFirst(secret: string, rest: string, mask: string)
    requires secret != ""
    ensures ReplaceAll(secret + rest, secret, mask) == mask + ReplaceAll(rest, secret, mask)
  {
    assert (secret + rest)[..|secret|] == secret && (secret + rest)[|secret|..] == rest;
    ReplaceStep(secret + rest, secret, mask);
  }

  // All values masked

  /** No value overlaps the stars of the mask of another that is no shorter, and so is masked before it, perhaps. */
  predicate ClearOfStars(values: seq<string>, secrets: seq<string>) {
    forall v, s | v in values && s in secrets && |s| >= |v| :: s == v || !Meets(v, MaskSecret(s), |STARS|)
  }

  function SetOf(values: seq<string>): (all: set<string>)
    ensures forall v :: v in all <==> v in values
  {
    set v | v in values
  }

  /** The values are still to be masked, longest first, after others no shorter, and occur only where they are secrets. */
  ghost predicate Ahead(pieces: seq<string>, secrets: seq<string>, values: seq<string>, done: set<string>)
    requires |pieces| == |secrets| + 1
  {
    && Registrable(values) && Distinct(values) && Descending(values) && ClearOfStars(values, secrets)
    && (forall v <- values :: v !in done && OnlyJoints("", {}, pieces, secrets, {}, v))
    && forall d <- done, v <- values :: |d| >= |v|
  }

  lemma FirstAhead(pieces: seq<string>, secrets: seq<string>, values: seq<string>, done: set<string>)
    requires |pieces| == |secrets| + 1 && Registrable(secrets) && values != [] && Ahead(pieces, secrets, values, done)
    ensures |values[0]| >= MIN_REGISTERABLE_LENGTH
    ensures var value := values[0];
            ReplaceAll(Stage(pieces, secrets, done), value, MaskSecret(value)) == Stage(pieces, secrets, done + {value})
  {
    hide OccursAt, MaskSecret, Stage, Meets, ReplaceAll, OnlyJoints, ClearOfStars, Descending, Distinct;
    var value := values[0];
    assert value in values;
    forall s <- secrets | s in done ensures !Meets(value, MaskSecret(s), |STARS|) {
      NoneMet(values, secrets, value, s);
    }
    FirstMasked(pieces, secrets, value, done);
  }

  lemma RestAhead(pieces: seq<string>, secrets: seq<string>, value: string, rest: seq<string>, done: set<string>)
    requires |pieces| == |secrets| + 1 && Ahead(pieces, secrets, [value] + rest, done)
    ensures Ahead(pieces, secrets, rest, done + {value})
  {
    hide OnlyJoints, ClearOfStars, Descending, Distinct;
    var values := [value] + rest;
    FirstIsApart(value, rest);
    FirstIsLongest(value, rest);
    RestIsClear(value, rest, secrets);
    hide Registrable;
    forall v <- rest ensures v !in done + {value} && OnlyJoints("", {}, pieces, secrets, {}, v) {
      assert v in values;
    }
    forall d <- done + {value}, v <- rest ensures |d| >= |v| {
      assert v in values;
    }
  }

  lemma {:induction false} MasksAll(pieces: seq<string>, secrets: seq<string>, values: seq<string>, done: set<string>, all: set<string>)
    requires |pieces| == |secrets| + 1 && Registrable(secrets) && Registrable(values) && Ahead(pieces, secrets, values, done)
    requires forall v :: v in all <==> v in done || v in values
    ensures MaskEach(Stage(pieces, secrets, done), values) == Stage(pieces, secrets, all)
    decreases |values|
  {
    hide MaskSecret, Stage, ReplaceAll, Ahead;
    if values == [] {
      assert all == done;
    } else {
      var value, rest := values[0], values[1..];
      assert values == [value] + rest;
      FirstAhead(pieces, secrets, values, done);
      RestAhead(pieces, secrets, value, rest, done);
      MasksAll(pieces, secrets, rest, done + {value}, all);
    }
  }

  lemma NoneMet(values: seq<string>, secrets: seq<string>, value: string, secret: string)
    requires ClearOfStars(values, secrets) && value in values && secret in secrets && |secret| >= |value| && secret != value
    ensures !Meets(value, MaskSecret(secret), |STARS|)
  {
  }

  lemma RestIsClear(value: string, rest: seq<string>, secrets: seq<string>)
    requires ClearOfStars([value] + rest, secrets)
    ensures ClearOfStars(rest, secrets)
  {
    hide Meets, MaskSecret;
    assert forall v <- rest :: v in [value] + rest;
  }

  /** One value masked, after those no shorter. */
  lemma FirstMasked(pieces: seq<string>, secrets: seq<string>, value: string, done: set<string>)
    requires |pieces| == |secrets| + 1 && Registrable(secrets) && |value| >= MIN_REGISTERABLE_LENGTH
    requires value !in done && OnlyJoints("", {}, pieces, secrets, {}, value)
    requires forall s <- secrets | s in done :: !Meets(value, MaskSecret(s), |STARS|)
    ensures ReplaceAll(Stage(pieces, secrets, done), value, MaskSecret(value)) == Stage(pieces, secrets, done + {value})
  {
    hide OccursAt, MaskSecret, Stage, Meets, ReplaceAll, OnlyJoints;
    var text := Stage(pieces, secrets, done);
    forall i: nat | OccursAt(text, value, i) ensures IsJoint(pieces, secrets, done, i, value) {
      assert "" + text == text;
      StageOccurrence("", {}, pieces, secrets, done, value, i);
    }
    MasksJoints(pieces, secrets, done, value);
  }

  lemma FirstIsLongest(value: string, rest: seq<string>)
    requires Descending([value] + rest)
    ensures Descending(rest) && forall v <- rest :: |value| >= |v|
  {
    var all := [value] + rest;
    assert all[0] == value && forall i | 0 <= i < |rest| :: all[i + 1] == rest[i];
  }

  lemma FirstIsApart(value: string, rest: seq<string>)
    requires Distinct([value] + rest) && Registrable([value] + rest)
    ensures value !in rest && Distinct(rest) && Registrable(rest) && |value| >= MIN_REGISTERABLE_LENGTH
  {
    var all := [value] + rest;
    assert all[0] == value && forall i | 0 <= i < |rest| :: all[i + 1] == rest[i];
  }

  // The theorems

  function LastFours(secrets: seq<string>): (masks: seq<string>)
    ensures |masks| == |secrets|
  {
    if secrets == [] then [] else [LastFour(secrets[0])] + LastFours(secrets[1..])
  }

  lemma {:induction false} NoneMasked(secrets: seq<string>)
    ensures Masked(secrets, {}) == secrets
  {
    if secrets != [] {
      NoneMasked(secrets[1..]);
    }
  }

  lemma {:induction false} AllMasked(secrets: seq<string>, done: set<string>)
    requires Registrable(secrets) && forall s <- secrets :: s in done
    ensures Masked(secrets, done) == LastFours(secrets)
  {
    hide MaskSecret, LastFour;
    if secrets != [] {
      NextIsRegistrable(secrets);
      assert secrets[0] in secrets;
      MaskIsLastFour(secrets[0]);
      AllMasked(secrets[1..], done);
    }
  }

  lemma MaskIsLastFour(secret: string)
    requires |secret| >= MIN_REGISTERABLE_LENGTH
    ensures MaskSecret(secret) == LastFour(secret)
  {
  }

  /** The value is one of the secrets, and stands at this place between the pieces. */
  predicate IsBetween(pieces: seq<string>, secrets: seq<string>, i: int, value: string)
    requires |pieces| == |secrets| + 1
    decreases |secrets|
  {
    secrets != [] &&
    (|| (i == |pieces[0]| && value == secrets[0])
     || (i >= |pieces[0]| + |secrets[0]| && IsBetween(pieces[1..], secrets[1..], i - |pieces[0]| - |secrets[0]|, value)))
  }

  lemma {:induction false} BetweenIsJoint(pieces: seq<string>, secrets: seq<string>, i: int, value: string)
    requires |pieces| == |secrets| + 1
    ensures IsBetween(pieces, secrets, i, value) <==> IsJoint(pieces, secrets, {}, i, value)
    decreases |secrets|
  {
    if secrets != [] {
      BetweenIsJoint(pieces[1..], secrets[1..], i - |pieces[0]| - |secrets[0]|, value);
    }
  }

  /**
   * Masking keeps the text around the secrets. Pieces of text with registered secrets between them, in which registered
   * values occur nowhere else, come out as the same pieces with four stars and the last four characters of each secret
   * between them, where no registered value overlaps the stars of the mask of one no shorter; none does that has no star.
   */
  lemma MaskingKeepsTheRest(pieces: seq<string>, between: seq<string>, secrets: seq<string>)
    requires Registrable(secrets) && Distinct(secrets)
    requires |pieces| == |between| + 1 && forall s <- between :: s in secrets
    requires forall v <- secrets, i: nat | OccursAt(Interleaved(pieces, between), v, i) :: IsBetween(pieces, between, i, v)
    requires ClearOfStars(secrets, between) || forall v <- secrets :: StarFree(v)
    ensures Registrable(ByLengthDescending(secrets))
    ensures MaskEach(Interleaved(pieces, between), ByLengthDescending(secrets)) == Interleaved(pieces, LastFours(between))
  {
    hide OccursAt, MaskSecret, Meets, Interleaved, StarFree, ClearOfStars, IsBetween;
    SortKeeps(secrets);
    var sorted := ByLengthDescending(secrets);
    SortedAreSame(secrets, sorted);
    BetweenAreRegistrable(between, secrets);
    NoneMasked(between);
    AllMasked(between, SetOf(sorted));
    var text := Interleaved(pieces, between);
    assert Stage(pieces, between, {}) == text && Stage(pieces, between, SetOf(sorted)) == Interleaved(pieces, LastFours(between));
    SortedAhead(pieces, between, secrets, sorted);
    hide Stage, ByLengthDescending, MaskEach, Masked, LastFours, Ahead;
    MasksAll(pieces, between, sorted, {}, SetOf(sorted));
  }

  lemma SortedAhead(pieces: seq<string>, between: seq<string>, secrets: seq<string>, sorted: seq<string>)
    requires |pieces| == |between| + 1 && Registrable(secrets)
    requires Registrable(sorted) && Distinct(sorted) && Descending(sorted) && forall v :: v in sorted <==> v in secrets
    requires forall v <- secrets, i: nat | OccursAt(Interleaved(pieces, between), v, i) :: IsBetween(pieces, between, i, v)
    requires ClearOfStars(secrets, between) || forall v <- secrets :: StarFree(v)
    ensures Ahead(pieces, between, sorted, {})
  {
    hide OccursAt, MaskSecret, Meets, Interleaved, StarFree, ClearOfStars, IsBetween, OnlyJoints;
    forall v <- sorted ensures OnlyJoints("", {}, pieces, between, {}, v) {
      BetweenOnly(pieces, between, v);
    }
    SortedClear(secrets, sorted, between);
  }

  lemma BetweenOnly(pieces: seq<string>, between: seq<string>, value: string)
    requires |pieces| == |between| + 1
    requires forall i: nat | OccursAt(Interleaved(pieces, between), value, i) :: IsBetween(pieces, between, i, value)
    ensures OnlyJoints("", {}, pieces, between, {}, value)
  {
    hide OccursAt, IsBetween, Interleaved, IsJoint;
    NoneMasked(between);
    var text := Interleaved(pieces, between);
    assert Stage(pieces, between, {}) == text && "" + text == text;
    forall i: nat | OccursAt(text, value, i) ensures IsJoint(pieces, between, {}, i, value) {
      BetweenIsJoint(pieces, between, i, value);
    }
  }

  lemma SortedClear(secrets: seq<string>, sorted: seq<string>, between: seq<string>)
    requires forall v :: v in sorted <==> v in secrets
    requires ClearOfStars(secrets, between) || forall v <- secrets :: StarFree(v)
    requires Registrable(secrets)
    ensures ClearOfStars(sorted, between)
  {
    hide Meets, MaskSecret, StarFree;
    forall v, s | v in sorted && s in between && |s| >= |v| ensures s == v || !Meets(v, MaskSecret(s), |STARS|) {
      assert v in secrets;
      if StarFree(v) {
        var i :| 0 <= i < |secrets| && secrets[i] == v;
        StarFreeMeetsNoStars(v, s);
      }
    }
  }

  lemma SortedAreSame(secrets: seq<string>, sorted: seq<string>)
    requires multiset(sorted) == multiset(secrets) && Distinct(secrets)
    ensures Distinct(sorted) && forall v :: v in sorted <==> v in secrets
  {
    DistinctCounts(secrets);
    DistinctCounts(sorted);
    forall v ensures v in sorted <==> v in secrets {
      assert v in multiset(sorted) <==> v in multiset(secrets);
    }
  }

  lemma BetweenAreRegistrable(between: seq<string>, secrets: seq<string>)
    requires Registrable(secrets) && forall s <- between :: s in secrets
    ensures Registrable(between)
  {
    forall i | 0 <= i < |between| ensures |between[i]| >= MIN_REGISTERABLE_LENGTH {
      assert between[i] in secrets;
    }
  }

  lemma MaskTwo(text: string, first: string, second: string)
    requires |first| >= MIN_REGISTERABLE_LENGTH && |second| >= MIN_REGISTERABLE_LENGTH
    ensures Registrable([first, second])
    ensures MaskEach(text, [first, second])
         == ReplaceAll(ReplaceAll(text, first, MaskSecret(first)), second, MaskSecret(second))
  {
    hide ReplaceAll, MaskSecret;
    assert [first, second][1..] == [second] && [second][1..] == [];
    assert Registrable([first, second]) && Registrable([second]) && Registrable([]);
    var once := ReplaceAll(text, first, MaskSecret(first));
    assert MaskEach(text, [first, second]) == MaskEach(once, [second]);
    assert MaskEach(once, [second]) == MaskEach(ReplaceAll(once, second, MaskSecret(second)), []);
  }

  lemma ReplacesWhole(secret: string, mask: string)
    requires secret != ""
    ensures ReplaceAll(secret, secret, mask) == mask
  {
    assert secret + "" == secret && mask + "" == mask;
    ReplacesFirst(secret, "", mask);
  }

  lemma ReplacesAfter(before: string, secret: string, mask: string)
    requires secret != "" && secret[0] !in before
    ensures ReplaceAll(before + secret, secret, mask) == before + mask
  {
    forall i: nat | OccursAt(before + secret, secret, i) ensures i >= |before| {
      assert (before + secret)[i + 0] == secret[0];
    }
    PassesOver(before, secret, secret, mask);
    ReplacesWhole(secret, mask);
  }

  /** With stars it need not be so: a mask and the text before it can be another registered value, and are masked again. */
  lemma AMaskCanBeMasked()
    ensures MaskEach("xyz " + "abcdefgh12345678", ["abcdefgh12345678", "xyz ****5678"]) == "****5678"
  {
    var first, second, mask := "abcdefgh12345678", "xyz ****5678", "****5678";
    MaskTwo("xyz " + first, first, second);
    assert MaskSecret(first) == mask && MaskSecret(second) == mask && "xyz " + mask == second;
    assert first[0] == 'a' && 'a' !in "xyz ";
    hide *;
    ReplacesAfter("xyz ", first, mask);
    ReplacesWhole(second, mask);
  }
}
