/** Masking registered secrets: what is replaced, what cannot survive, and exactly when a secret can. */
module Secrets {
  import opened Strings

  const MIN_REGISTERABLE_LENGTH: nat := 8
  const STARS := "****"
  const MAX_REVEALED: nat := 4

  /** The trailing characters that stay. */
  function Revealed(value: string): (tail: string)
    ensures |tail| <= MAX_REVEALED
  {
    var hidden: int := |value| - |STARS|;
    var revealed := if hidden < 0 then 0 else if hidden > MAX_REVEALED then MAX_REVEALED else hidden;
    value[|value| - revealed..]
  }

  function MaskSecret(value: string): string {
    STARS + Revealed(value)
  }

  /** `text.split(secret).join(mask)`: from the left, occurrences that do not overlap. */
  function ReplaceAll(text: string, secret: string, mask: string): string
    requires secret != ""
    decreases |text|
  {
    if |text| < |secret| then text
    else if text[..|secret|] == secret then mask + ReplaceAll(text[|secret|..], secret, mask)
    else [text[0]] + ReplaceAll(text[1..], secret, mask)
  }

  /** A value after every value that is no shorter. */
  function Insert(value: string, sorted: seq<string>): seq<string> {
    if sorted == [] || |sorted[0]| < |value| then [value] + sorted
    else [sorted[0]] + Insert(value, sorted[1..])
  }

  /** The values, longest first, and those of one length in the order they were registered. */
  function ByLengthDescending(values: seq<string>): seq<string> {
    if values == [] then [] else Insert(values[|values| - 1], ByLengthDescending(values[..|values| - 1]))
  }

  predicate Registrable(values: seq<string>) {
    forall i | 0 <= i < |values| :: |values[i]| >= MIN_REGISTERABLE_LENGTH
  }

  /** Each value masked in turn. */
  function MaskEach(text: string, values: seq<string>): string
    requires Registrable(values)
    decreases |values|
  {
    if values == [] then text
    else MaskEach(ReplaceAll(text, values[0], MaskSecret(values[0])), values[1..])
  }

  class Registry {
    /** The registered values, each once, in the order they came. */
    var secrets: seq<string>

    ghost predicate Valid()
      reads this
    {
      Registrable(secrets) && Distinct(secrets)
    }

    constructor ()
      ensures Valid() && secrets == []
    {
      secrets := [];
    }

    method RegisterSecret(value: Option<string>) returns (same: Option<string>)
      requires Valid()
      modifies this
      ensures Valid() && same == value
      ensures secrets == if value.Some? && |value.value| >= MIN_REGISTERABLE_LENGTH && value.value !in old(secrets)
                         then old(secrets) + [value.value] else old(secrets)
    {
      same := value;
      if value.Some? && |value.value| >= MIN_REGISTERABLE_LENGTH && value.value !in secrets {
        secrets := secrets + [value.value];
      }
    }

    method MaskSecrets(text: string) returns (masked: string)
      requires Valid()
      ensures Registrable(ByLengthDescending(secrets))
      ensures masked == MaskEach(text, ByLengthDescending(secrets))
    {
      SortKeeps(secrets);
      var sorted := ByLengthDescending(secrets);
      masked := text;
      assert sorted[0..] == sorted;
      for i := 0 to |sorted|
        invariant MaskEach(masked, sorted[i..]) == MaskEach(text, sorted)
      {
        assert sorted[i..][1..] == sorted[i + 1..];
        masked := ReplaceAll(masked, sorted[i], MaskSecret(sorted[i]));
      }
    }
  }

  // The order

  predicate Descending(values: seq<string>) {
    forall i, j | 0 <= i < j < |values| :: |values[i]| >= |values[j]|
  }

  lemma FirstLongest(first: string, rest: seq<string>)
    requires Descending(rest) && forall v <- rest :: |first| >= |v|
    ensures Descending([first] + rest)
  {
    var all := [first] + rest;
    forall i, j | 0 <= i < j < |all| ensures |all[i]| >= |all[j]| {
      assert all[j] == rest[j - 1] && rest[j - 1] in rest;
      assert i > 0 ==> all[i] == rest[i - 1];
    }
  }

  lemma {:induction false} InsertKeeps(value: string, sorted: seq<string>)
    requires Descending(sorted)
    ensures Descending(Insert(value, sorted))
    ensures multiset(Insert(value, sorted)) == multiset(sorted) + multiset{value}
  {
    if sorted == [] || |sorted[0]| < |value| {
      forall v <- sorted ensures |value| >= |v| {
      }
      FirstLongest(value, sorted);
    } else {
      var first, rest := sorted[0], Insert(value, sorted[1..]);
      InsertKeeps(value, sorted[1..]);
      assert sorted == [first] + sorted[1..];
      forall v <- rest ensures |first| >= |v| {
        assert v in multiset(rest);
        assert v == value || v in sorted[1..];
      }
      hide Insert;
      FirstLongest(first, rest);
    }
  }

  /** Sorting orders the values, and neither drops nor adds one. */
  lemma {:induction false} SortKeeps(values: seq<string>)
    ensures Descending(ByLengthDescending(values))
    ensures multiset(ByLengthDescending(values)) == multiset(values)
    ensures Registrable(values) ==> Registrable(ByLengthDescending(values))
  {
    if values != [] {
      var init, last := values[..|values| - 1], values[|values| - 1];
      SortKeeps(init);
      InsertKeeps(last, ByLengthDescending(init));
      assert values == init + [last];
    }
    StaysRegistrable(values, ByLengthDescending(values));
  }

  lemma StaysRegistrable(values: seq<string>, sorted: seq<string>)
    requires multiset(sorted) == multiset(values)
    ensures Registrable(values) ==> Registrable(sorted)
  {
    forall i | 0 <= i < |sorted| ensures Registrable(values) ==> |sorted[i]| >= MIN_REGISTERABLE_LENGTH {
      assert sorted[i] in multiset(values);
    }
  }

  // What cannot appear, and what cannot survive

  ghost predicate OccursAt(text: string, value: string, i: nat) {
    i + |value| <= |text| && forall k | 0 <= k < |value| :: text[i + k] == value[k]
  }

  ghost predicate Occurs(text: string, value: string) {
    exists i: nat :: OccursAt(text, value, i)
  }

  predicate StarFree(value: string) {
    forall i | 0 <= i < |value| :: value[i] != '*'
  }

  /** The value starts and ends with the same `length` characters. */
  predicate HasBorder(value: string, length: nat) {
    length <= |value| && forall k | 0 <= k < length :: value[k] == value[|value| - length + k]
  }

  /** Nothing that masking reveals of the value can be the start of the value again. */
  predicate Borderless(value: string) {
    forall length | 1 <= length <= MAX_REVEALED :: !HasBorder(value, length)
  }

  lemma OccursAtStart(text: string, value: string)
    ensures OccursAt(text, value, 0) <==> |value| <= |text| && text[..|value|] == value
  {
    if OccursAt(text, value, 0) {
      assert forall k | 0 <= k < |value| :: text[0 + k] == value[k];
    }
  }

  /** An occurrence in a part of a text is one in the text. */
  lemma OccursWithin(before: string, text: string, after: string, value: string, i: nat)
    requires OccursAt(text, value, i)
    ensures OccursAt(before + text + after, value, |before| + i)
  {
    var all := before + text + after;
    forall k | 0 <= k < |value| ensures all[|before| + i + k] == value[k] {
      assert all[|before| + (i + k)] == text[i + k];
    }
  }

  /** The value, laid over a mask `shift` characters from the mask's start, agrees with it wherever the two overlap. */
  predicate AgreesAt(value: string, mask: string, shift: int) {
    forall k | 0 <= k < |mask| && 0 <= k - shift < |value| :: value[k - shift] == mask[k]
  }

  /** The value agrees with a mask at some overlapping shift before `bound`. */
  predicate Meets(value: string, mask: string, bound: int) {
    exists shift | -|value| < shift < bound :: AgreesAt(value, mask, shift)
  }

  /** The secret agrees with its own mask at some overlapping shift. */
  predicate MeetsItsMask(secret: string) {
    Meets(secret, MaskSecret(secret), |MaskSecret(secret)|)
  }

  /** An occurrence about a mask is before it, after it, or over it, and there it agrees with it. */
  lemma AboutMask(before: string, mask: string, after: string, value: string, i: nat)
    requires OccursAt(before + mask + after, value, i)
    ensures || (i + |value| <= |before| && OccursAt(before, value, i))
            || (i >= |before| + |mask| && OccursAt(after, value, i - |before| - |mask|))
            || (-|value| < i - |before| < |mask| && AgreesAt(value, mask, i - |before|))
  {
    var all := before + mask + after;
    if i + |value| <= |before| {
      forall k | 0 <= k < |value| ensures before[i + k] == value[k] {
        assert all[i + k] == value[k];
      }
    } else if i >= |before| + |mask| {
      var j := i - |before| - |mask|;
      forall k | 0 <= k < |value| ensures after[j + k] == value[k] {
        assert all[i + k] == value[k];
      }
    } else {
      var shift := i - |before|;
      forall k | 0 <= k < |mask| && 0 <= k - shift < |value| ensures value[k - shift] == mask[k] {
        assert all[i + (k - shift)] == value[k - shift];
      }
    }
  }

  /** What overlaps the stars of a mask and agrees with it has a star. */
  lemma StarFreeMeetsNoStars(value: string, secret: string)
    requires value != "" && StarFree(value)
    ensures !Meets(value, MaskSecret(secret), |STARS|)
  {
    var mask := MaskSecret(secret);
    forall shift | -|value| < shift < |STARS| ensures !AgreesAt(value, mask, shift) {
      var k := if shift < 0 then 0 else shift;
      assert mask[k] == '*' && value[k - shift] != '*';
    }
  }

  lemma RevealedIsTail(secret: string)
    requires |secret| >= MIN_REGISTERABLE_LENGTH
    ensures Revealed(secret) == secret[|secret| - 4..]
  {
  }

  lemma ReplaceStep(text: string, secret: string, mask: string)
    requires secret != "" && |text| >= |secret| && text[..|secret|] == secret
    ensures ReplaceAll(text, secret, mask) == mask + ReplaceAll(text[|secret|..], secret, mask)
  {
  }

  lemma ReplaceFound(text: string, secret: string)
    requires |secret| >= MIN_REGISTERABLE_LENGTH && |text| >= |secret| && text[..|secret|] == secret
    ensures ReplaceAll(text, secret, MaskSecret(secret))
         == STARS + (Revealed(secret) + ReplaceAll(text[|secret|..], secret, MaskSecret(secret)))
    ensures text == secret[..|secret| - 4] + (Revealed(secret) + text[|secret|..])
  {
    RevealedIsTail(secret);
    MaskIsStarsAndTail(secret);
    ReplaceStep(text, secret, MaskSecret(secret));
    hide *;
    var rest, tail := text[|secret|..], secret[|secret| - 4..];
    ConcatAssociates(STARS, tail, ReplaceAll(rest, secret, MaskSecret(secret)));
    ConcatAssociates(secret[..|secret| - 4], tail, rest);
    SplitsAt(secret, |secret| - 4);
    SplitsAt(text, |secret|);
  }

  lemma MaskIsStarsAndTail(secret: string)
    requires |secret| >= MIN_REGISTERABLE_LENGTH
    ensures MaskSecret(secret) == STARS + Revealed(secret)
  {
  }

  lemma PassOne(text: string, secret: string, mask: string)
    requires secret != "" && |text| >= |secret| && text[..|secret|] != secret
    ensures ReplaceAll(text, secret, mask) == [text[0]] + ReplaceAll(text[1..], secret, mask)
  {
  }

  lemma ReplacePassed(w: string, text: string, secret: string)
    requires secret != "" && |text| >= |secret| && text[..|secret|] != secret
    ensures w + ReplaceAll(text, secret, MaskSecret(secret))
         == (w + [text[0]]) + ReplaceAll(text[1..], secret, MaskSecret(secret))
    ensures (w + [text[0]]) + text[1..] == w + text
  {
    PassOne(text, secret, MaskSecret(secret));
    hide *;
    ConcatAssociates(w, [text[0]], ReplaceAll(text[1..], secret, MaskSecret(secret)));
    ConcatAssociates(w, [text[0]], text[1..]);
    assert text == [text[0]] + text[1..];
  }

  /**
   * Masking makes no text: whatever agrees with the mask nowhere over its stars, and is in the masked text after `w`, was
   * in the text after `w`.
   */
  lemma {:induction false} NothingNew(w: string, text: string, secret: string, value: string, i: nat)
    requires |secret| >= MIN_REGISTERABLE_LENGTH && !Meets(value, MaskSecret(secret), |STARS|)
    requires OccursAt(w + ReplaceAll(text, secret, MaskSecret(secret)), value, i)
    ensures Occurs(w + text, value)
    decreases |text|
  {
    hide OccursAt, Revealed, MaskSecret, AgreesAt;
    if |text| < |secret| {
    } else if text[..|secret|] == secret {
      var rest, tail := text[|secret|..], Revealed(secret);
      var masked := ReplaceAll(rest, secret, MaskSecret(secret));
      ReplaceFound(text, secret);
      MaskIsStarsAndTail(secret);
      AroundStars(w, secret, masked, value, i);
      if OccursAt(w, value, i) {
        OccursWithin("", w, text, value, i);
        assert "" + w + text == w + text;
      } else {
        NothingNew(tail, rest, secret, value, i - |w| - |STARS|);
        var k: nat :| OccursAt(tail + rest, value, k);
        var head := w + secret[..|secret| - 4];
        OccursWithin(head, tail + rest, "", value, k);
        assert head + (tail + rest) + "" == w + text;
      }
    } else {
      ReplacePassed(w, text, secret);
      NothingNew(w + [text[0]], text[1..], secret, value, i);
    }
  }

  lemma AroundStars(before: string, secret: string, after: string, value: string, i: nat)
    requires |secret| >= MIN_REGISTERABLE_LENGTH && !Meets(value, MaskSecret(secret), |STARS|)
    requires OccursAt(before + (STARS + (Revealed(secret) + after)), value, i)
    ensures || OccursAt(before, value, i)
            || (i >= |before| + |STARS| && OccursAt(Revealed(secret) + after, value, i - |before| - |STARS|))
  {
    hide OccursAt, AgreesAt, Revealed;
    var tail := Revealed(secret);
    assert before + (STARS + (tail + after)) == before + STARS + (tail + after);
    AboutMask(before, STARS, tail + after, value, i);
    assert before + (STARS + (tail + after)) == before + MaskSecret(secret) + after;
    AboutMask(before, MaskSecret(secret), after, value, i);
  }

  /** The secret does not start within `w`. */
  ghost predicate StartsOutside(w: string, text: string, secret: string) {
    forall i: nat | OccursAt(w + text, secret, i) :: i >= |w|
  }

  lemma OccursAfter(w: string, text: string, value: string)
    requires OccursAt(w + text, value, |w|)
    ensures |value| <= |text| && text[..|value|] == value
  {
    forall k | 0 <= k < |value| ensures text[0 + k] == value[k] {
      assert (w + text)[|w| + k] == value[k];
    }
    OccursAtStart(text, value);
  }

  lemma NextOutside(w: string, text: string, secret: string)
    requires secret != "" && |text| >= |secret| && text[..|secret|] != secret && StartsOutside(w, text, secret)
    ensures StartsOutside(w + [text[0]], text[1..], secret)
  {
    assert w + [text[0]] + text[1..] == w + text;
    forall i: nat | OccursAt(w + text, secret, i) ensures i >= |w| + 1 {
      if i == |w| {
        OccursAfter(w, text, secret);
      }
    }
  }

  /** Where the secret does not start within `w` and meets its mask nowhere, masking the text after `w` leaves no secret. */
  lemma {:induction false} NoneLeft(w: string, text: string, secret: string, i: nat)
    requires |secret| >= MIN_REGISTERABLE_LENGTH && !MeetsItsMask(secret)
    requires StartsOutside(w, text, secret)
    ensures !OccursAt(w + ReplaceAll(text, secret, MaskSecret(secret)), secret, i)
    decreases |text|
  {
    hide Revealed, MaskSecret, AgreesAt;
    if |text| < |secret| {
      TooShort(w, text, secret, i);
    } else if text[..|secret|] == secret {
      hide OccursAt;
      var rest, mask := text[|secret|..], MaskSecret(secret);
      var masked := ReplaceAll(rest, secret, mask);
      ReplaceStep(text, secret, mask);
      ConcatAssociates(w, mask, masked);
      if OccursAt(w + mask + masked, secret, i) {
        AboutMask(w, mask, masked, secret, i);
        if OccursAt(w, secret, i) {
          StartsWithin(w, text, secret, i);
        } else {
          assert "" + masked == masked;
          NoneLeft("", rest, secret, i - |w| - |mask|);
        }
      }
    } else {
      ReplacePassed(w, text, secret);
      NextOutside(w, text, secret);
      NoneLeft(w + [text[0]], text[1..], secret, i);
    }
  }

  lemma TooShort(w: string, text: string, secret: string, i: nat)
    requires |text| < |secret| && StartsOutside(w, text, secret)
    ensures !OccursAt(w + text, secret, i)
  {
  }

  lemma StartsWithin(w: string, text: string, secret: string, i: nat)
    requires secret != "" && OccursAt(w, secret, i)
    ensures !StartsOutside(w, text, secret)
  {
    OccursWithin("", w, text, secret, i);
    assert "" + w + text == w + text;
  }

  lemma NoneLeftOfOne(text: string, secret: string)
    requires |secret| >= MIN_REGISTERABLE_LENGTH && !MeetsItsMask(secret)
    ensures !Occurs(ReplaceAll(text, secret, MaskSecret(secret)), secret)
  {
    var masked := ReplaceAll(text, secret, MaskSecret(secret));
    assert "" + masked == masked;
    forall i: nat ensures !OccursAt(masked, secret, i) {
      NoneLeft("", text, secret, i);
    }
  }

  /** What was in no text, and agrees with no mask over its stars, is in no masked text. */
  lemma {:induction false} StaysAbsent(text: string, values: seq<string>, value: string)
    requires Registrable(values) && !Occurs(text, value)
    requires forall v | v in values :: v == value || !Meets(value, MaskSecret(v), |STARS|)
    ensures !Occurs(MaskEach(text, values), value)
    decreases |values|
  {
    hide Meets, MaskSecret, OccursAt;
    if values != [] {
      var masked := ReplaceAll(text, values[0], MaskSecret(values[0]));
      if values[0] == value {
        AbsentIsKept(text, value, MaskSecret(value));
      } else if Occurs(masked, value) {
        assert "" + masked == masked && "" + text == text;
        var i: nat :| OccursAt(masked, value, i);
        NothingNew("", text, values[0], value, i);
      }
      StaysAbsent(masked, values[1..], value);
    }
  }

  lemma {:induction false} MaskEachLeavesNone(text: string, values: seq<string>, k: nat)
    requires Registrable(values) && k < |values| && Unmet(values[k], values)
    ensures !Occurs(MaskEach(text, values), values[k])
    decreases |values|
  {
    hide Meets, MaskSecret;
    var masked := ReplaceAll(text, values[0], MaskSecret(values[0]));
    if k == 0 {
      NoneLeftOfOne(text, values[0]);
      StaysAbsent(masked, values[1..], values[0]);
    } else {
      MaskEachLeavesNone(masked, values[1..], k - 1);
    }
  }

  /** The secret meets its own mask nowhere, and no other registered value's over its stars. */
  predicate Unmet(secret: string, secrets: seq<string>) {
    !MeetsItsMask(secret) && forall other | other in secrets :: other == secret || !Meets(secret, MaskSecret(other), |STARS|)
  }

  /** A value with no star, and no border of up to four characters, is unmet, whatever else is registered. */
  lemma StarFreeIsUnmet(secret: string, secrets: seq<string>)
    requires |secret| >= MIN_REGISTERABLE_LENGTH && StarFree(secret) && Borderless(secret)
    ensures Unmet(secret, secrets)
  {
    StarFreeMeetsExactly(secret);
    forall other | other in secrets && other != secret ensures !Meets(secret, MaskSecret(other), |STARS|) {
      StarFreeMeetsNoStars(secret, other);
    }
  }

  /** Without stars, meeting its own mask is having a border that the mask reveals. */
  lemma StarFreeMeetsExactly(secret: string)
    requires |secret| >= MIN_REGISTERABLE_LENGTH && StarFree(secret)
    ensures MeetsItsMask(secret) <==> !Borderless(secret)
  {
    var mask := MaskSecret(secret);
    RevealedIsTail(secret);
    StarFreeMeetsNoStars(secret, secret);
    hide StarFree;
    if shift :| -|secret| < shift < |mask| && AgreesAt(secret, mask, shift) {
      assert shift >= |STARS|;
      BorderAtShift(secret, |mask| - shift);
    }
    if length: nat :| 1 <= length <= MAX_REVEALED && HasBorder(secret, length) {
      BorderAtShift(secret, length);
    }
  }

  lemma BorderAtShift(secret: string, length: nat)
    requires |secret| >= MIN_REGISTERABLE_LENGTH && 1 <= length <= MAX_REVEALED
    ensures |MaskSecret(secret)| == |STARS| + MAX_REVEALED
    ensures AgreesAt(secret, MaskSecret(secret), |STARS| + MAX_REVEALED - length) <==> HasBorder(secret, length)
  {
    var mask, shift := MaskSecret(secret), |STARS| + MAX_REVEALED - length;
    RevealedIsTail(secret);
    assert forall k | 4 <= k < 8 :: mask[k] == secret[|secret| - 8 + k];
    if AgreesAt(secret, mask, shift) {
      forall k | 0 <= k < length ensures secret[k] == secret[|secret| - length + k] {
        assert mask[shift + k] == secret[(shift + k) - shift];
      }
    }
  }

  /**
   * Masking leaves nothing registered: whatever the text, and whatever else is registered, no unmet value of it occurs in
   * the masked text; in particular none that has no star and no border of up to four characters.
   */
  lemma MaskingLeavesNothing(text: string, secrets: seq<string>, secret: string)
    requires Registrable(secrets) && secret in secrets
    requires Unmet(secret, secrets) || (StarFree(secret) && Borderless(secret))
    ensures Registrable(ByLengthDescending(secrets))
    ensures !Occurs(MaskEach(text, ByLengthDescending(secrets)), secret)
  {
    hide Meets, MaskSecret, MeetsItsMask, StarFree, Borderless;
    SortKeeps(secrets);
    var sorted := ByLengthDescending(secrets);
    assert secret in multiset(secrets);
    var k :| 0 <= k < |sorted| && sorted[k] == secret;
    if StarFree(secret) && Borderless(secret) {
      StarFreeIsUnmet(secret, sorted);
    } else {
      forall other | other in sorted ensures other in secrets {
        assert other in multiset(sorted);
      }
    }
    MaskEachLeavesNone(text, sorted, k);
  }

  /** A bordered secret, and the same again from the end of its border on: the mask completes it. */
  lemma BorderSurvives(secret: string, length: nat)
    requires |secret| >= MIN_REGISTERABLE_LENGTH && 1 <= length <= MAX_REVEALED && HasBorder(secret, length)
    ensures Occurs(ReplaceAll(secret + secret[length..], secret, MaskSecret(secret)), secret)
  {
    hide ReplaceAll, Revealed, MaskSecret;
    var rest := secret[length..];
    var text := secret + rest;
    assert text[..|secret|] == secret && text[|secret|..] == rest;
    ReplaceFound(text, secret);
    ReplaceShort(rest, secret);
    RevealedIsTail(secret);
    var masked := STARS + (Revealed(secret) + rest);
    var at := 8 - length;
    forall k | 0 <= k < |secret| ensures masked[at + k] == secret[k] {
      if k < length {
        assert masked[at + k] == secret[|secret| - 4..][4 - length + k];
      } else {
        assert masked[at + k] == rest[k - length];
      }
    }
    assert OccursAt(masked, secret, at);
  }

  lemma ReplaceShort(text: string, secret: string)
    requires secret != "" && |text| < |secret|
    ensures ReplaceAll(text, secret, MaskSecret(secret)) == text
  {
  }

  /** The value starts in the text before `end`. */
  ghost predicate StartsBefore(text: string, value: string, end: int) {
    exists i: nat :: i < end && OccursAt(text, value, i)
  }

  lemma PassStep(text: string, secret: string, mask: string)
    requires secret != "" && |text| >= |secret| && !OccursAt(text, secret, 0)
    ensures ReplaceAll(text, secret, mask) == [text[0]] + ReplaceAll(text[1..], secret, mask)
  {
    OccursAtStart(text, secret);
    PassOne(text, secret, mask);
  }

  lemma LaterStart(text: string, value: string, end: int)
    requires text != ""
    ensures StartsBefore(text[1..], value, end - 1) ==> StartsBefore(text, value, end)
  {
    hide OccursAt;
    if StartsBefore(text[1..], value, end - 1) {
      var j: nat :| j < end - 1 && OccursAt(text[1..], value, j);
      OccursWithin(text[..1], text[1..], "", value, j);
      assert text[..1] + text[1..] + "" == text;
      assert OccursAt(text, value, 1 + j);
    }
  }

  /** The text up to the first occurrence is passed over. */
  lemma {:induction false} PassedOver(before: string, rest: string, secret: string, mask: string)
    requires secret != "" && |rest| >= |secret| && !StartsBefore(before + rest, secret, |before|)
    ensures ReplaceAll(before + rest, secret, mask) == before + ReplaceAll(rest, secret, mask)
    decreases |before|
  {
    hide ReplaceAll, OccursAt;
    if before == "" {
      assert before + rest == rest;
    } else {
      var all := before + rest;
      assert all[1..] == before[1..] + rest;
      PassStep(all, secret, mask);
      LaterStart(all, secret, |before|);
      hide StartsBefore;
      PassedOver(before[1..], rest, secret, mask);
      ConcatAssociates([before[0]], before[1..], ReplaceAll(rest, secret, mask));
      assert before == [before[0]] + before[1..];
    }
  }

  /** An occurrence of the secret before the end of `before` lies in `before` and the secret that follows it. */
  lemma OccursEarly(before: string, secret: string, after: string, j: nat)
    requires j < |before| && OccursAt(before + secret + after, secret, j)
    ensures OccursAt(before + secret, secret, j)
  {
    forall k | 0 <= k < |secret| ensures (before + secret)[j + k] == secret[k] {
      assert (before + secret + after)[j + k] == secret[k];
    }
  }

  /** The text in which a secret survives, that meets its mask at a shift: as much of it as stands before, and after. */
  function Surviving(secret: string, shift: int): string
    requires -|secret| < shift < 8 && |secret| >= MIN_REGISTERABLE_LENGTH
  {
    var after := if 8 - shift < |secret| then secret[8 - shift..] else "";
    (if shift < 0 then secret[..-shift] else "") + secret + after
  }

  lemma OneIsMasked(before: string, secret: string, after: string)
    requires |secret| >= MIN_REGISTERABLE_LENGTH && |after| < |secret| && !StartsBefore(before + secret, secret, |before|)
    ensures ReplaceAll(before + secret + after, secret, MaskSecret(secret)) == before + (MaskSecret(secret) + after)
  {
    hide MaskSecret, OccursAt, ReplaceAll;
    forall j: nat | j < |before| ensures !OccursAt(before + secret + after, secret, j) {
      if OccursAt(before + secret + after, secret, j) {
        OccursEarly(before, secret, after, j);
      }
    }
    assert !StartsBefore(before + secret + after, secret, |before|);
    hide StartsBefore;
    ConcatAssociates(before, secret, after);
    AtStart(secret, after);
    PassedOver(before, secret + after, secret, MaskSecret(secret));
    ReplaceStep(secret + after, secret, MaskSecret(secret));
    ReplaceShort(after, secret);
  }

  lemma SurvivesAtShift(secret: string, shift: int)
    requires |secret| >= MIN_REGISTERABLE_LENGTH && -|secret| < shift < 8 && AgreesAt(secret, MaskSecret(secret), shift)
    requires shift < 0 ==> !StartsBefore(secret[..-shift] + secret, secret, -shift)
    ensures Occurs(ReplaceAll(Surviving(secret, shift), secret, MaskSecret(secret)), secret)
  {
    hide AgreesAt, MaskSecret, OccursAt, Occurs, ReplaceAll;
    var before := if shift < 0 then secret[..-shift] else "";
    var after := if 8 - shift < |secret| then secret[8 - shift..] else "";
    OneIsMasked(before, secret, after);
    StandsOver(secret, shift, before, after);
  }

  lemma AtStart(secret: string, after: string)
    ensures (secret + after)[..|secret|] == secret && (secret + after)[|secret|..] == after
  {
  }

  lemma ThreeParts(before: string, mask: string, after: string, i: nat)
    requires i < |before| + |mask| + |after|
    ensures (before + (mask + after))[i]
         == if i < |before| then before[i] else if i < |before| + |mask| then mask[i - |before|] else after[i - |before| - |mask|]
  {
  }

  lemma StandsOver(secret: string, shift: int, before: string, after: string)
    requires |secret| >= MIN_REGISTERABLE_LENGTH && -|secret| < shift < 8 && AgreesAt(secret, MaskSecret(secret), shift)
    requires before == if shift < 0 then secret[..-shift] else ""
    requires after == if 8 - shift < |secret| then secret[8 - shift..] else ""
    ensures Occurs(before + (MaskSecret(secret) + after), secret)
  {
    var mask, at := MaskSecret(secret), |before| + shift;
    MaskIs(secret);
    hide MaskSecret, Revealed;
    forall k | 0 <= k < |secret| ensures (before + (mask + after))[at + k] == secret[k] {
      ThreeParts(before, mask, after, at + k);
      if 0 <= shift + k < 8 {
        assert secret[(shift + k) - shift] == mask[shift + k];
      }
    }
    assert OccursAt(before + (mask + after), secret, at);
  }

  /** Where a secret follows its own start, and an earlier one overlaps both, what is left of that start starts it too. */
  lemma Periodic(secret: string, k: nat, j: nat)
    requires j < k < |secret| && OccursAt(secret[..k] + secret, secret, j)
    ensures forall i | 0 <= i < |secret| - k :: secret[k + i] == secret[i]
  {
    var both, t := secret[..k] + secret, k - j;
    forall y | 0 <= y < |secret| ensures secret[y] == if y < t then secret[j + y] else secret[y - t] {
      assert both[j + y] == secret[y];
    }
    forall i | 0 <= i < |secret| - k ensures secret[k + i] == secret[i] {
      Shifted(secret, j, t, t + i);
    }
  }

  lemma {:induction false} Shifted(secret: string, j: nat, t: nat, y: nat)
    requires t > 0 && j + t <= |secret| && j + y < |secret|
    requires forall x | 0 <= x < t :: secret[j + x] == secret[x]
    requires forall x | t <= x < |secret| :: secret[x] == secret[x - t]
    ensures secret[j + y] == secret[y]
    decreases y
  {
    if y >= t {
      Shifted(secret, j, t, y - t);
      assert secret[j + y] == secret[j + y - t] && secret[y] == secret[y - t];
    }
  }

  lemma MaskIs(secret: string)
    requires |secret| >= MIN_REGISTERABLE_LENGTH
    ensures var mask := MaskSecret(secret);
            |mask| == 8 && mask[..4] == STARS && forall i | 4 <= i < 8 :: mask[i] == secret[|secret| - 8 + i]
  {
    RevealedIsTail(secret);
  }

  lemma AgreesBefore(secret: string, mask: string, k: int)
    requires 0 <= k < |secret| && AgreesAt(secret, mask, -k)
    ensures forall i | 0 <= i < |mask| && i < |secret| - k :: mask[i] == secret[k + i]
  {
    forall i | 0 <= i < |mask| && i < |secret| - k ensures mask[i] == secret[k + i] {
      assert secret[i - (-k)] == mask[i];
    }
  }

  /** If an earlier secret hides the one that would survive, the secret meets its mask further on as well. */
  lemma EarlierMeetsLater(secret: string, k: int, j: nat)
    requires |secret| >= MIN_REGISTERABLE_LENGTH && 0 <= j < k < |secret| && AgreesAt(secret, MaskSecret(secret), -k)
    requires OccursAt(secret[..k] + secret, secret, j)
    ensures exists shift | 0 <= shift < 8 :: AgreesAt(secret, MaskSecret(secret), shift)
  {
    hide MaskSecret, Revealed, OccursAt, AgreesAt;
    var mask, length := MaskSecret(secret), |secret| - k;
    MaskIs(secret);
    Periodic(secret, k, j);
    AgreesBefore(secret, mask, k);
    var shift := if length >= 8 then 0 else if length <= 4 then 8 - length else 4;
    if 5 <= length <= 7 {
      AllStars(secret, mask, k);
    }
    assert AgreesAt(secret, mask, shift) by {
      AgreesLater(secret, mask, k, shift);
    }
  }

  lemma AgreesLater(secret: string, mask: string, k: nat, shift: nat)
    requires k < |secret| && |secret| >= 8 && |mask| == 8
    requires forall i | 4 <= i < 8 :: mask[i] == secret[|secret| - 8 + i]
    requires forall i | 0 <= i < |secret| - k :: secret[k + i] == secret[i]
    requires forall i | 0 <= i < 8 && i < |secret| - k :: mask[i] == secret[k + i]
    requires shift == if |secret| - k >= 8 then 0 else if |secret| - k <= 4 then 8 - (|secret| - k) else 4
    requires 5 <= |secret| - k <= 7 ==> (forall i | 0 <= i < 4 :: secret[i] == '*') && forall i | 0 <= i < 8 :: mask[i] == '*'
    ensures AgreesAt(secret, mask, shift)
  {
    var length := |secret| - k;
    forall x | 0 <= x < 8 && 0 <= x - shift < |secret| ensures secret[x - shift] == mask[x] {
      if length >= 8 {
        assert mask[x] == secret[k + x] == secret[x];
      } else if length <= 4 {
        assert mask[x] == secret[|secret| - 8 + x] == secret[k + (x - shift)];
      }
    }
  }

  lemma AllStars(secret: string, mask: string, k: nat)
    requires k < |secret| && 5 <= |secret| - k <= 7 && |mask| == 8 && mask[..4] == STARS
    requires forall i | 4 <= i < 8 :: mask[i] == secret[|secret| - 8 + i]
    requires forall i | 0 <= i < |secret| - k :: mask[i] == secret[k + i] == secret[i]
    ensures forall i | 0 <= i < 4 :: secret[i] == '*'
    ensures forall i | 0 <= i < 8 :: mask[i] == '*'
  {
    var length := |secret| - k;
    assert mask[..4] == ['*', '*', '*', '*'];
    forall i | 0 <= i < 4 ensures mask[i] == '*' && secret[i] == '*' {
      assert mask[..4][i] == '*' && mask[i] == secret[k + i];
    }
    forall i | 4 <= i < 8 ensures mask[i] == mask[i - (8 - length)] {
      assert mask[i] == secret[k + (length - 8 + i)] && mask[length - 8 + i] == secret[k + (length - 8 + i)];
    }
    assert mask[4] == mask[length - 4];
    assert mask[5] == mask[length - 3];
    assert mask[6] == mask[length - 2];
    assert mask[7] == mask[length - 1];
  }

  /**
   * Over every secret that can be registered, stars or none: masking it leaves none of it in any text if and only if it
   * agrees with its own mask at no overlapping shift. Without stars, that is to have no border that the mask reveals.
   */
  lemma MaskedForGoodExactly(secret: string)
    requires |secret| >= MIN_REGISTERABLE_LENGTH
    ensures (forall text: string :: !Occurs(ReplaceAll(text, secret, MaskSecret(secret)), secret)) <==> !MeetsItsMask(secret)
    ensures StarFree(secret) ==> (MeetsItsMask(secret) <==> !Borderless(secret))
  {
    hide Occurs, ReplaceAll, StarFree, Borderless, AgreesAt, OccursAt;
    if StarFree(secret) {
      StarFreeMeetsExactly(secret);
    }
    if !MeetsItsMask(secret) {
      forall text: string ensures !Occurs(ReplaceAll(text, secret, MaskSecret(secret)), secret) {
        NoneLeftOfOne(text, secret);
      }
    } else {
      MeetingSurvives(secret);
    }
  }

  lemma MeetingSurvives(secret: string)
    requires |secret| >= MIN_REGISTERABLE_LENGTH && MeetsItsMask(secret)
    ensures exists text: string :: Occurs(ReplaceAll(text, secret, MaskSecret(secret)), secret)
  {
    RevealedIsTail(secret);
    assert |MaskSecret(secret)| == 8;
    hide Occurs, ReplaceAll, AgreesAt, OccursAt, MaskSecret;
    var shift :| -|secret| < shift < 8 && AgreesAt(secret, MaskSecret(secret), shift);
    if shift < 0 && StartsBefore(secret[..-shift] + secret, secret, -shift) {
      var j: nat :| j < -shift && OccursAt(secret[..-shift] + secret, secret, j);
      EarlierMeetsLater(secret, -shift, j);
      var later :| 0 <= later < 8 && AgreesAt(secret, MaskSecret(secret), later);
      SurvivesAtShift(secret, later);
    } else {
      SurvivesAtShift(secret, shift);
    }
  }

  /** A secret with stars and no border that survives: its mask gives it the stars it ends with. */
  lemma StarsCanSurvive()
    ensures var secret := "secret****";
            && Borderless(secret) && ReplaceAll("secret" + secret, secret, MaskSecret(secret)) == "secret********"
            && OccursAt("secret********", secret, 0)
  {
    var secret := "secret****";
    var text := "secret" + secret;
    RevealedIsTail(secret);
    assert MaskSecret(secret) == "********";
    forall length | 1 <= length <= MAX_REVEALED ensures !HasBorder(secret, length) {
      assert secret[0] != secret[|secret| - length + 0];
    }
    forall j: nat | j < 6 ensures !OccursAt(text, secret, j) {
      assert text[j + 6] != '*' && secret[6] == '*';
    }
    PassedOver("secret", secret, secret, "********");
    assert secret[..|secret|] == secret && secret[|secret|..] == "";
    ReplaceStep(secret, secret, "********");
    ReplaceShort("", secret);
  }

  /** A secret is its own mask, and is left in every text, if and only if it is the stars and four characters. */
  lemma StarredSecretIsKept(secret: string)
    requires |secret| >= MIN_REGISTERABLE_LENGTH
    ensures (forall text: string :: ReplaceAll(text, secret, MaskSecret(secret)) == text)
       <==> |secret| == 8 && secret[..4] == STARS
  {
    RevealedIsTail(secret);
    if |secret| == 8 && secret[..4] == STARS {
      assert MaskSecret(secret) == secret;
      forall text: string ensures ReplaceAll(text, secret, secret) == text {
        ReplacedByItself(text, secret);
      }
    } else {
      assert secret[..|secret|] == secret && secret[|secret|..] == "";
      ReplaceStep(secret, secret, MaskSecret(secret));
      ReplaceShort("", secret);
      assert MaskSecret(secret)[..4] == STARS;
      assert ReplaceAll(secret, secret, MaskSecret(secret)) == MaskSecret(secret);
    }
  }

  lemma {:induction false} ReplacedByItself(text: string, secret: string)
    requires secret != ""
    ensures ReplaceAll(text, secret, secret) == text
    decreases |text|
  {
    if |text| >= |secret| {
      if text[..|secret|] == secret {
        ReplacedByItself(text[|secret|..], secret);
      } else {
        ReplacedByItself(text[1..], secret);
      }
    }
  }

  // What is left alone, and what is masked whole

  lemma OccursInTail(text: string, value: string)
    requires text != ""
    ensures Occurs(text[1..], value) ==> Occurs(text, value)
  {
    if Occurs(text[1..], value) {
      var i: nat :| OccursAt(text[1..], value, i);
      OccursWithin(text[..1], text[1..], "", value, i);
      assert text[..1] + text[1..] + "" == text;
    }
  }

  lemma {:induction false} AbsentIsKept(text: string, secret: string, mask: string)
    requires secret != "" && !Occurs(text, secret)
    ensures ReplaceAll(text, secret, mask) == text
    decreases |text|
  {
    if |text| >= |secret| {
      OccursAtStart(text, secret);
      assert !OccursAt(text, secret, 0);
      OccursInTail(text, secret);
      AbsentIsKept(text[1..], secret, mask);
    }
  }

  /** Masking touches nothing else: a text with no registered value in it is as it was. */
  lemma {:induction false} UnregisteredIsKept(text: string, values: seq<string>)
    requires Registrable(values) && forall v <- values :: !Occurs(text, v)
    ensures MaskEach(text, values) == text
    decreases |values|
  {
    if values != [] {
      AbsentIsKept(text, values[0], MaskSecret(values[0]));
      UnregisteredIsKept(text, values[1..]);
    }
  }

  /** Masking twice is masking once, where masking leaves nothing registered. */
  lemma MaskingSettles(text: string, secrets: seq<string>)
    requires Registrable(secrets) && forall s | s in secrets :: Unmet(s, secrets) || (StarFree(s) && Borderless(s))
    ensures Registrable(ByLengthDescending(secrets))
    ensures var sorted := ByLengthDescending(secrets); MaskEach(MaskEach(text, sorted), sorted) == MaskEach(text, sorted)
  {
    SortKeeps(secrets);
    var sorted := ByLengthDescending(secrets);
    forall v <- sorted ensures !Occurs(MaskEach(text, sorted), v) {
      assert v in multiset(sorted);
      MaskingLeavesNothing(text, secrets, v);
    }
    UnregisteredIsKept(MaskEach(text, sorted), sorted);
  }

  lemma ShorterHoldsNone(text: string, value: string)
    requires |text| <= |value| && text != value
    ensures !Occurs(text, value)
  {
    if Occurs(text, value) {
      var i: nat :| OccursAt(text, value, i);
      OccursAtStart(text, value);
    }
  }

  /** A mask is no longer than a registered value: it holds none but one that it is, and that is its own mask. */
  lemma MaskIsKept(secret: string, value: string)
    requires |secret| >= MIN_REGISTERABLE_LENGTH && |value| >= MIN_REGISTERABLE_LENGTH
    ensures ReplaceAll(MaskSecret(secret), value, MaskSecret(value)) == MaskSecret(secret)
  {
    var mask := MaskSecret(secret);
    RevealedIsTail(secret);
    RevealedIsTail(value);
    if mask == value {
      assert MaskSecret(value) == mask;
      ReplacedByItself(mask, value);
    } else {
      ShorterHoldsNone(mask, value);
      AbsentIsKept(mask, value, MaskSecret(value));
    }
  }

  lemma {:induction false} MaskStays(secret: string, values: seq<string>)
    requires |secret| >= MIN_REGISTERABLE_LENGTH && Registrable(values)
    ensures MaskEach(MaskSecret(secret), values) == MaskSecret(secret)
    decreases |values|
  {
    if values != [] {
      MaskIsKept(secret, values[0]);
      MaskStays(secret, values[1..]);
    }
  }

  lemma {:induction false} WholeIsMasked(values: seq<string>, k: nat)
    requires Registrable(values) && Descending(values) && k < |values|
    requires Distinct(values)
    ensures MaskEach(values[k], values) == MaskSecret(values[k])
    decreases |values|
  {
    var secret := values[k];
    if k == 0 {
      assert secret[..|secret|] == secret && secret[|secret|..] == "";
      assert ReplaceAll(secret, secret, MaskSecret(secret)) == MaskSecret(secret) + "" == MaskSecret(secret);
      MaskStays(secret, values[1..]);
    } else {
      ShorterHoldsNone(secret, values[0]);
      AbsentIsKept(secret, values[0], MaskSecret(values[0]));
      WholeIsMasked(values[1..], k - 1);
    }
  }

  /** Longest first: a registered value is masked as a whole, even where it contains another, and whatever its characters. */
  lemma LongestFirstMasksWhole(secrets: seq<string>, secret: string)
    requires Registrable(secrets) && secret in secrets
    requires Distinct(secrets)
    ensures Registrable(ByLengthDescending(secrets))
    ensures MaskEach(secret, ByLengthDescending(secrets)) == MaskSecret(secret)
  {
    SortKeeps(secrets);
    var sorted := ByLengthDescending(secrets);
    assert secret in multiset(sorted);
    var k :| 0 <= k < |sorted| && sorted[k] == secret;
    DistinctCounts(secrets);
    DistinctCounts(sorted);
    WholeIsMasked(sorted, k);
  }
}
