/** The payload the box form submits (admin/src/component/mainComponents/CreateBox.jsx):
    the form's fields, with `keyWords` turned into a list when the input holds a
    comma-separated string. */
module CreateBox {
  import opened Wrappers
  import opened Json
  import opened Text

  /** The `payload` literal of `handleSubmit`. `None` is the `TypeError` thrown when
      `keyWords` is neither an array nor a string (it has no `split`). */
  function BoxPayload(form: map<string, Json>): (r: Option<map<string, Json>>)
    ensures r.Some? <==> "keyWords" in form && (form["keyWords"].JArr? || form["keyWords"].JStr?)
    ensures r.Some? ==> r.value.Keys == form.Keys
    ensures r.Some? ==> forall k :: k in form && k != "keyWords" ==> r.value[k] == form[k]
    ensures r.Some? && form["keyWords"].JArr? ==> r.value == form
    ensures r.Some? && form["keyWords"].JStr? ==>
              r.value["keyWords"] == JArr(StringList(Pieces(form["keyWords"].s, ',')))
  {
    if "keyWords" !in form then None
    else match form["keyWords"]
      case JArr(_) => Some(form)
      case JStr(s) => Some(form["keyWords" := JArr(StringList(Pieces(s, ',')))])
      case _ => None
  }

  /** Keywords typed as text arrive as non-empty strings without surrounding white space
      and without commas. */
  lemma KeywordsAreClean(form: map<string, Json>, i: nat)
    requires "keyWords" in form && form["keyWords"].JStr?
    ensures BoxPayload(form).Some?
    ensures BoxPayload(form).value["keyWords"].JArr?
    ensures i < |BoxPayload(form).value["keyWords"].items| ==>
              var k := BoxPayload(form).value["keyWords"].items[i];
              k.JStr? && k.s != "" && IsTrimmed(k.s) && ',' !in k.s
  {
  }

  /** Keywords shown in the input as `a, b, c` are sent as exactly those keywords, in
      that order. */
  lemma KeywordsRoundTrip(form: map<string, Json>, keywords: seq<string>)
    requires forall i :: 0 <= i < |keywords| ==> keywords[i] != [] && IsTrimmed(keywords[i]) && ',' !in keywords[i]
    requires "keyWords" in form && form["keyWords"] == JStr(Join(keywords, ", "))
    ensures BoxPayload(form) == Some(form["keyWords" := JArr(StringList(keywords))])
  {
    PiecesOfJoin(keywords);
  }

  /** Building the payload from a payload changes nothing: the list it holds is sent as is. */
  lemma PayloadIdempotent(form: map<string, Json>)
    requires BoxPayload(form).Some?
    ensures BoxPayload(BoxPayload(form).value) == BoxPayload(form)
  {
  }
}
