/** JSON values, and the comparison of device state with reviewed state. */
module Jsons {

  datatype Json = Null | Bool(b: bool) | Number(text: string) | Text(s: string) | Arr(items: seq<Json>) | Obj(fields: map<string, Json>)

  /** Text and numbers compare by their text; everything else has none. */
  function ScalarText(j: Json): string {
    match j
    case Number(text) => text
    case Text(s) => s
    case _ => ""
  }

  predicate EmptyCollection(j: Json) {
    j.Arr? && j.items == []
  }

  predicate ScalarSame(wanted: Json, got: Json) {
    if wanted.Null? || got.Null? then wanted.Null? && got.Null?
    else if wanted.Bool? then got == wanted
    else if got.Bool? then false
    else ScalarText(wanted) == ScalarText(got)
  }

  /** Whether the device value shows everything that is wanted: objects may have
      more fields; lists have the same length, and each wanted item in turn takes
      the first unused candidate that shows it. */
  predicate Same(wanted: Json, got: Json)
    decreases wanted, 1
  {
    match wanted
    case Obj(fields) => got.Obj? && forall k :: k in fields ==>
      if k in got.fields then FieldSame(fields[k], got.fields[k]) else EmptyCollection(fields[k])
    case Arr(items) => got.Arr? && |got.items| == |items| && AllMatched(items, got.items)
    case _ => ScalarSame(wanted, got)
  }

  /** An empty collection is the same as no value. */
  predicate FieldSame(wanted: Json, got: Json)
    decreases wanted, 2
  {
    (EmptyCollection(wanted) && (got.Null? || EmptyCollection(got))) || Same(wanted, got)
  }

  /** Each wanted item takes the first unused candidate that shows it. */
  predicate AllMatched(wanted: seq<Json>, unused: seq<Json>)
    decreases wanted, 0, 0
  {
    wanted == [] ||
    var i := FirstMatch(wanted[0], unused);
    i < |unused| && AllMatched(wanted[1..], unused[..i] + unused[i + 1..])
  }

  function FirstMatch(wanted: Json, unused: seq<Json>): (i: nat)
    ensures i <= |unused|
    decreases wanted, 2, unused
  {
    if unused == [] then 0
    else if Same(wanted, unused[0]) then 0
    else 1 + FirstMatch(wanted, unused[1..])
  }

  ghost predicate Textual(j: Json, text: string) {
    j == Text(text) || j == Number(text)
  }

  /** Texts and numbers show what has the same text, and nothing else does: different
      texts differ. A blank text shows a list or an object too. */
  lemma TextsCompare(wanted: Json, got: Json, text: string)
    requires Textual(wanted, text)
    ensures Same(wanted, got) <==> Textual(got, text) || (text == "" && (got.Arr? || got.Obj?))
  {
  }

  lemma ConstantsCompare(wanted: Json, got: Json)
    requires wanted.Null? || wanted.Bool?
    ensures Same(wanted, got) <==> wanted == got
  {
  }

  /** An object shows the fields that are wanted, whatever else it has. Only an empty
      list may be missing, or be null. */
  lemma ObjectsCompare(fields: map<string, Json>, got: Json)
    ensures Same(Obj(fields), got) <==> got.Obj? && forall k :: k in fields ==>
      if k !in got.fields then fields[k] == Arr([])
      else Same(fields[k], got.fields[k]) || (fields[k] == Arr([]) && got.fields[k] == Null)
  {
  }

  /** Every value shows itself. */
  lemma {:induction false} SameAsItself(j: Json)
    ensures Same(j, j)
    decreases j, 1
  {
    match j
    case Obj(fields) =>
      forall k | k in fields ensures FieldSame(fields[k], fields[k]) { SameAsItself(fields[k]); }
    case Arr(items) => MatchedByItself(items);
    case _ =>
  }

  lemma {:induction false} MatchedByItself(items: seq<Json>)
    ensures AllMatched(items, items)
    decreases items, 0
  {
    if items != [] {
      SameAsItself(items[0]);
      assert FirstMatch(items[0], items) == 0;
      assert items[..0] + items[1..] == items[1..];
      MatchedByItself(items[1..]);
    }
  }
}
