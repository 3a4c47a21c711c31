/** JSON values, and how `String` writes them. */
module JsonValues {
  import opened Strings

  datatype Json = JNull | JBool(b: bool) | JNumber(n: int) | JString(s: string) | JArray(items: seq<Json>) | JObject(fields: map<string, Json>)

  function IntText(n: int): string {
    if n < 0 then "-" + NatText(-n) else NatText(n)
  }

  /** `String(value)`; none where that throws: for an object that has a `toString` of its own, since JSON has no functions. */
  function TextOf(value: Json): Option<string> {
    match value
    case JNull => Some("null")
    case JBool(b) => Some(if b then "true" else "false")
    case JNumber(n) => Some(IntText(n))
    case JString(s) => Some(s)
    case JArray(items) => ItemsText(items)
    case JObject(fields) => if "toString" in fields then None else Some("[object Object]")
  }

  /** An array's items with commas between, a null among them as nothing. */
  function ItemsText(items: seq<Json>): Option<string> {
    if items == [] then Some("")
    else
      var first := if items[0].JNull? then Some("") else TextOf(items[0]);
      var rest := ItemsText(items[1..]);
      if first.None? || rest.None? then None
      else if |items| == 1 then first
      else Some(first.value + "," + rest.value)
  }

  // What is written

  /** A number is written as its digits, after a minus sign where it is negative: as the numeral that reads as it. */
  lemma NumberText(n: int)
    ensures n >= 0 ==> var text := IntText(n); text != "" && AllIn(text, 0, |text|, Digit) && NatValue(text) == n
    ensures n < 0 ==>
              var text := IntText(n); |text| > 1 && text[0] == '-' && AllIn(text[1..], 0, |text| - 1, Digit) && NatValue(text[1..]) == -n
  {
    NatReadsBack(if n < 0 then -n else n);
    hide NatText, NatValue, AllIn;
    assert n < 0 ==> IntText(n)[1..] == NatText(-n);
  }

  /** What an item of an array is written as: a null as nothing. */
  function ItemText(item: Json): Option<string> {
    if item == JNull then Some("") else TextOf(item)
  }

  function JoinedBy(a: Option<string>, b: Option<string>): Option<string> {
    if a.Some? && b.Some? then Some(a.value + "," + b.value) else None
  }

  /** An array is written as its items with commas between, and not at all where one of them is not. */
  lemma ArrayText(items: seq<Json>, more: seq<Json>)
    ensures TextOf(JArray([])) == Some("")
    ensures forall item :: TextOf(JArray([item])) == ItemText(item)
    ensures items != [] && more != [] ==> TextOf(JArray(items + more)) == JoinedBy(TextOf(JArray(items)), TextOf(JArray(more)))
  {
    forall item ensures TextOf(JArray([item])) == ItemText(item) {
      assert [item][1..] == [] && ItemsText([]) == Some("");
    }
    if items != [] && more != [] {
      ItemsJoin(items, more);
    }
  }

  lemma {:induction false} ItemsJoin(items: seq<Json>, more: seq<Json>)
    requires items != [] && more != []
    ensures ItemsText(items + more) == JoinedBy(ItemsText(items), ItemsText(more))
  {
    ConcatRest(items, more);
    var first := ItemText(items[0]);
    if |items| == 1 {
      assert items[1..] + more == more;
    } else {
      ItemsJoin(items[1..], more);
      if first.Some? && ItemsText(items[1..]).Some? && ItemsText(more).Some? {
        var a, b, c := first.value + ",", ItemsText(items[1..]).value, ItemsText(more).value;
        ConcatAssociates(a, b + ",", c);
        ConcatAssociates(a, b, ",");
      }
    }
  }

  /** Everything else is written as it is named: an object as none of its fields, unless one of them is in the way. */
  lemma OtherText(value: Json)
    ensures value == JNull ==> TextOf(value) == Some("null")
    ensures value.JBool? ==> TextOf(value) == Some(if value.b then "true" else "false")
    ensures value.JString? ==> TextOf(value) == Some(value.s)
    ensures value.JObject? ==> TextOf(value) == if "toString" in value.fields then None else Some("[object Object]")
  {
  }
}
