/** The variant editor of the admin forms (admin/src/component/mainComponents/variantProduct.jsx).
    The form holds variants as loose objects (`Json`); each handler computes the list it
    hands to `onChange`. `None` stands for a handler that throws. */
module VariantManager {
  import opened Wrappers
  import opened Json
  import opened Seqs
  import opened Text

  /** The dimensions object a new box variant starts with. */
  const ZeroDimensions: Json :=
    JObj(map["height" := JNum(0.0), "width" := JNum(0.0), "depth" := JNum(0.0)])

  /** The variant `addVariant` appends for a form of the given type. */
  function NewVariant(formType: string): (v: Json)
    ensures v.JObj?
    ensures Get(v, "stock_unit") == Some(JStr(if formType == "box" then "pcs" else "ml"))
    ensures ("boxDetails" in v.fields) <==> formType == "box"
    ensures formType == "box" ==>
              v.fields["boxDetails"] == JObj(map["dimensions" := ZeroDimensions, "max_capacity" := JNum(1.0)])
    ensures Get(v, "images") == Some(JArr([])) && Get(v, "color") == Some(JArr([]))
  {
    var base := map[
      "name" := JStr(""), "color" := JArr([]), "price" := JNum(0.0), "stock_count" := JNum(0.0),
      "stock_unit" := JStr(if formType == "box" then "pcs" else "ml"),
      "discount_type" := JNull, "tags" := JNull, "low_stock_threshold" := JNum(10.0),
      "discount_value" := JNum(0.0), "taxIncluded" := JBool(true), "taxPercent" := JNum(0.0),
      "sku" := JStr(""), "images" := JArr([])];
    if formType == "box" then
      JObj(base["boxDetails" := JObj(map["dimensions" := ZeroDimensions, "max_capacity" := JNum(1.0)])])
    else JObj(base)
  }

  function AddVariant(variants: seq<Json>, formType: string): seq<Json> {
    variants + [NewVariant(formType)]
  }

  /** Adding appends exactly one variant and leaves the earlier ones as they were. */
  lemma AddVariantSpec(variants: seq<Json>, formType: string)
    ensures |AddVariant(variants, formType)| == |variants| + 1
    ensures AddVariant(variants, formType)[..|variants|] == variants
    ensures AddVariant(variants, formType)[|variants|] == NewVariant(formType)
  {
  }

  /** A field name containing a dot has at least two pieces. */
  lemma {:induction false} SplitAtLeastTwo(s: string, sep: char)
    requires sep in s
    ensures |Split(s, sep)| >= 2
    decreases |s|
  {
    if s[0] == sep {
      SplitAtSeparator("", sep, s[1..]);
      assert "" + [sep] + s[1..] == s;
    } else {
      SplitAtLeastTwo(s[1..], sep);
      SplitCons(s[0], s[1..], sep);
      assert [s[0]] + s[1..] == s;
    }
  }

  /** `{ ...v, [field]: value }`. */
  function SetField(v: Json, field: string, value: Json): (r: Json)
    ensures r.JObj? && Get(r, field) == Some(value)
    ensures forall key :: key != field ==> Get(r, key) == Get(v, key) || (!v.JObj? && Get(r, key).None?)
  {
    JObj(Spread(Some(v))[field := value])
  }

  /** The object `updateVariant` builds for the edited variant: `field` set at the top
      level, or the path `parent.child` or `parent.child.grandchild` set with the sibling
      keys at each level kept. Reading `variant[parent][child]` throws when
      `variant[parent]` is missing or null. */
  function SetPath(v: Json, field: string, value: Json): (r: Option<Json>)
    ensures '.' !in field ==> r == Some(SetField(v, field, value))
  {
    if '.' !in field then Some(SetField(v, field, value))
    else
      SplitAtLeastTwo(field, '.');
      var parts := Split(field, '.');
      var parent, child := parts[0], parts[1];
      var inner := Get(v, parent);
      if |parts| > 2 && parts[2] != "" then
        if inner.None? || inner.value.JNull? then None
        else
          var leaf := JObj(Spread(Get(inner.value, child))[parts[2] := value]);
          Some(JObj(Spread(Some(v))[parent := JObj(Spread(inner)[child := leaf])]))
      else Some(JObj(Spread(Some(v))[parent := JObj(Spread(inner)[child := value])]))
  }

  /** `variants.map((variant, i) => i === index ? <edited> : variant)`. */
  function UpdateVariant(variants: seq<Json>, index: int, field: string, value: Json): (r: Option<seq<Json>>)
    ensures !(0 <= index < |variants|) ==> r == Some(variants)
    ensures 0 <= index < |variants| ==>
              (r.Some? <==> SetPath(variants[index], field, value).Some?)
              && (r.Some? ==> r.value == variants[index := SetPath(variants[index], field, value).value])
    ensures '.' !in field ==>
              r == Some(if 0 <= index < |variants| then variants[index := SetField(variants[index], field, value)] else variants)
  {
    if 0 <= index < |variants| then
      match SetPath(variants[index], field, value)
      case None => None
      case Some(w) => Some(variants[index := w])
    else Some(variants)
  }

  /** An update touches only the entry at `index`: the length and every other entry stay. */
  lemma UpdateTouchesOneEntry(variants: seq<Json>, index: int, field: string, value: Json)
    requires UpdateVariant(variants, index, field, value).Some?
    ensures var r := UpdateVariant(variants, index, field, value).value;
            |r| == |variants| && forall j :: 0 <= j < |r| && j != index ==> r[j] == variants[j]
  {
  }

  /** A plain field is set at the top level; every other key keeps its value. */
  lemma TopLevelField(v: Json, field: string, value: Json, key: string)
    requires v.JObj? && '.' !in field
    ensures Get(SetPath(v, field, value).value, field) == Some(value)
    ensures key != field ==> Get(SetPath(v, field, value).value, key) == Get(v, key)
  {
  }

  /** The pieces of `parent.child.rest` when neither of the first two contains a dot. */
  lemma SplitPath(parent: string, child: string, rest: string)
    requires '.' !in parent && '.' !in child
    ensures Split(parent + "." + child + "." + rest, '.') == [parent, child] + Split(rest, '.')
  {
    SplitAtSeparator(parent, '.', child + "." + rest);
    assert parent + "." + child + "." + rest == parent + ['.'] + (child + "." + rest);
    SplitAtSeparator(child, '.', rest);
    assert child + "." + rest == child + ['.'] + rest;
  }

  /** `parent.child` sets `child` inside `parent` and keeps `parent`'s other keys and the
      variant's other keys. */
  lemma TwoLevelField(v: Json, parent: string, child: string, value: Json, key: string)
    requires v.JObj? && '.' !in parent && '.' !in child
    ensures var r := SetPath(v, parent + "." + child, value);
            && r.Some? && Get(r.value, parent).Some?
            && Get(Get(r.value, parent).value, child) == Some(value)
            && (key != child ==>
                  Get(Get(r.value, parent).value, key) == (match Get(v, parent) case Some(p) => Get(p, key) case None => None))
            && (key != parent ==> Get(r.value, key) == Get(v, key))
  {
    SplitAtSeparator(parent, '.', child);
    assert parent + "." + child == parent + ['.'] + child;
    SplitNoSeparator(child, '.');
  }

  /** `parent.child.grandchild` sets `grandchild` two levels down, keeping the sibling keys
      of both levels. */
  lemma ThreeLevelField(v: Json, parent: string, child: string, grandchild: string, value: Json, key: string)
    requires v.JObj? && '.' !in parent && '.' !in child && '.' !in grandchild && grandchild != ""
    requires Get(v, parent).Some? && Get(v, parent).value.JObj?
    ensures var r := SetPath(v, parent + "." + child + "." + grandchild, value);
            && r.Some? && Get(r.value, parent).Some? && Get(Get(r.value, parent).value, child).Some?
            && Get(Get(Get(r.value, parent).value, child).value, grandchild) == Some(value)
            && (key != grandchild ==>
                  Get(Get(Get(r.value, parent).value, child).value, key) ==
                    match Get(Get(v, parent).value, child) case Some(c) => Get(c, key) case None => None)
            && (key != child ==> Get(Get(r.value, parent).value, key) == Get(Get(v, parent).value, key))
  {
    var path := parent + "." + child + "." + grandchild;
    SplitPath(parent, child, grandchild);
    SplitNoSeparator(grandchild, '.');
    assert Split(path, '.') == [parent, child, grandchild];
    assert path[|parent|] == '.';
    var inner := Get(v, parent);
    var leaf := JObj(Spread(Get(inner.value, child))[grandchild := value]);
    assert SetPath(v, path, value) == Some(JObj(v.fields[parent := JObj(inner.value.fields[child := leaf])]));
  }

  /** Path segments after the third play no part. */
  lemma ExtraSegmentsIgnored(v: Json, parent: string, child: string, grandchild: string, rest: string, value: Json)
    requires '.' !in parent && '.' !in child && '.' !in grandchild
    ensures var path := parent + "." + child + "." + grandchild;
            SetPath(v, path + "." + rest, value) == SetPath(v, path, value)
  {
    var path := parent + "." + child + "." + grandchild;
    SplitPath(parent, child, grandchild);
    SplitNoSeparator(grandchild, '.');
    assert path + "." + rest == parent + "." + child + "." + (grandchild + "." + rest);
    SplitPath(parent, child, grandchild + "." + rest);
    SplitAtSeparator(grandchild, '.', rest);
    assert grandchild + "." + rest == grandchild + ['.'] + rest;
  }

  /** `removeVariant`: the last remaining variant stays (the user is alerted instead);
      otherwise position `index` is dropped. */
  function RemoveVariant(variants: seq<Json>, index: nat): seq<Json> {
    if |variants| == 1 then variants else FilterIndex(variants, index)
  }

  lemma RemoveVariantSpec(variants: seq<Json>, index: nat)
    ensures |variants| == 1 ==> RemoveVariant(variants, index) == variants
    ensures |variants| != 1 ==> RemoveVariant(variants, index) == RemoveAt(variants, index)
    ensures |variants| != 1 && index < |variants| ==>
              RemoveVariant(variants, index) == variants[..index] + variants[index + 1..]
  {
    FilterIndexIsRemoveAt(variants, index);
  }

  // ---- Colours ----

  /** `handleColorChange`: the text typed so far is kept in `colorInput`; the colour list
      itself is left as it was until the box is left. */
  function HandleColorChange(variants: seq<Json>, index: int, value: string): (r: seq<Json>)
    ensures |r| == |variants|
    ensures forall j :: 0 <= j < |r| && j != index ==> r[j] == variants[j]
    ensures 0 <= index < |variants| ==> Get(r[index], "colorInput") == Some(JStr(value))
    ensures 0 <= index < |variants| && variants[index].JObj? ==>
              Get(r[index], "color") == Get(variants[index], "color")
  {
    ColorFieldsArePlain();
    UpdateVariant(variants, index, "colorInput", JStr(value)).value
  }

  /** `value.split(',').map((c) => c.trim()).filter(Boolean)`. */
  function ParseColors(value: string): (colors: seq<string>)
    ensures forall i :: 0 <= i < |colors| ==> colors[i] != "" && IsTrimmed(colors[i]) && ',' !in colors[i]
  {
    Pieces(value, ',')
  }

  /** The two `updateVariant` calls of `handleColorBlur` for the parsed colours: the
      payloads of the first and of the second `onChange`. */
  function ColorPayloads(variants: seq<Json>, index: int, colors: seq<string>): (r: (seq<Json>, seq<Json>))
    ensures |r.0| == |variants| && |r.1| == |variants|
  {
    ColorFieldsArePlain();
    (UpdateVariant(variants, index, "color", JArr(StringList(colors))).value,
     UpdateVariant(variants, index, "colorInput", JStr(Join(colors, ", "))).value)
  }

  /** `handleColorBlur` as written: both `updateVariant` calls start from the same
      `variants` prop and the parent keeps the list of the last `onChange`, so only
      `colorInput` survives. */
  function HandleColorBlurAsWritten(variants: seq<Json>, index: int, value: string): seq<Json> {
    ColorPayloads(variants, index, ParseColors(value)).1
  }

  /** As written, blurring the colour box never changes `color`, whatever was entered:
      the first payload had the colours, the one the form keeps does not. */
  lemma ColorBlurLosesColors(variants: seq<Json>, index: int, colors: seq<string>)
    requires 0 <= index < |variants| && variants[index].JObj?
    ensures Get(ColorPayloads(variants, index, colors).1[index], "color") == Get(variants[index], "color")
    ensures Get(ColorPayloads(variants, index, colors).0[index], "color") == Some(JArr(StringList(colors)))
  {
    var c, ci := JArr(StringList(colors)), JStr(Join(colors, ", "));
    ColorFieldsArePlain();
    assert UpdateVariant(variants, index, "color", c) == Some(variants[index := SetField(variants[index], "color", c)]);
    assert UpdateVariant(variants, index, "colorInput", ci) == Some(variants[index := SetField(variants[index], "colorInput", ci)]);
  }

  /** "red, blue" entered on a variant without colours leaves it without colours. */
  lemma RedBlueIsLost()
    ensures var v := JObj(map["color" := JArr([])]);
            Get(HandleColorBlurAsWritten([v], 0, "red, blue")[0], "color") == Some(JArr([]))
  {
    var v := JObj(map["color" := JArr([])]);
    ColorBlurLosesColors([v], 0, ParseColors("red, blue"));
  }

  /** `updateVariant` on a plain field applied to the result of another one on the same
      variant: both fields end up set. */
  function ApplyColors(variants: seq<Json>, index: int, colors: seq<string>): seq<Json> {
    ColorFieldsArePlain();
    var withColors := UpdateVariant(variants, index, "color", JArr(StringList(colors))).value;
    UpdateVariant(withColors, index, "colorInput", JStr(Join(colors, ", "))).value
  }

  /** `handleColorBlur` with the two updates composed, as evidently intended. */
  function HandleColorBlur(variants: seq<Json>, index: int, value: string): seq<Json> {
    ApplyColors(variants, index, ParseColors(value))
  }

  /** With the updates composed, the variant gets the parsed colours, and the cleaned-up
      text left in the box parses back to the same colours. */
  lemma ColorBlurSetsColors(variants: seq<Json>, index: int, value: string)
    requires 0 <= index < |variants| && variants[index].JObj?
    ensures var r := HandleColorBlur(variants, index, value);
            && |r| == |variants|
            && Get(r[index], "color") == Some(JArr(StringList(ParseColors(value))))
            && Get(r[index], "colorInput") == Some(JStr(Join(ParseColors(value), ", ")))
            && ParseColors(Join(ParseColors(value), ", ")) == ParseColors(value)
  {
    ApplyColorsSets(variants, index, ParseColors(value));
    PiecesOfJoin(ParseColors(value));
  }

  lemma ApplyColorsSets(variants: seq<Json>, index: int, colors: seq<string>)
    requires 0 <= index < |variants| && variants[index].JObj?
    ensures var r := ApplyColors(variants, index, colors);
            && |r| == |variants|
            && Get(r[index], "color") == Some(JArr(StringList(colors)))
            && Get(r[index], "colorInput") == Some(JStr(Join(colors, ", ")))
  {
    var c, ci := JArr(StringList(colors)), JStr(Join(colors, ", "));
    ColorFieldsArePlain();
    var w := variants[index := SetField(variants[index], "color", c)];
    assert UpdateVariant(variants, index, "color", c) == Some(w);
    var r := w[index := SetField(w[index], "colorInput", ci)];
    assert UpdateVariant(w, index, "colorInput", ci) == Some(r);
  }

  /** The two colour fields are plain names, set at the top level. */
  lemma ColorFieldsArePlain()
    ensures '.' !in "color" && '.' !in "colorInput" && "color" != "colorInput"
  {
    assert "colorInput"[5] == 'I';
  }

  // ---- Images ----

  /** `variants[index].images || []`, as a list. */
  function FormImages(v: Json): seq<Json> {
    match Get(v, "images")
    case Some(JArr(xs)) => xs
    case _ => []
  }

  /** `handleImageUpload`: the chosen files go after the variant's existing images. Reading
      `variants[index]` past the end throws. */
  function HandleImageUpload(variants: seq<Json>, index: int, files: seq<Json>): (r: Option<seq<Json>>)
    ensures r.Some? <==> 0 <= index < |variants|
    ensures r.Some? ==> |r.value| == |variants| && FormImages(r.value[index]) == FormImages(variants[index]) + files
    ensures r.Some? ==> forall j :: 0 <= j < |variants| && j != index ==> r.value[j] == variants[j]
  {
    if 0 <= index < |variants| then
      UpdateVariant(variants, index, "images", JArr(FormImages(variants[index]) + files))
    else None
  }

  /** A variant object of the form state, which `handleRemoveImage` changes in place. */
  class VariantObject {
    var fields: map<string, Json>

    constructor (fields: map<string, Json>)
      ensures this.fields == fields
    {
      this.fields := fields;
    }
  }

  /** `handleRemoveImage`: the list is copied, but the variant object is the one the
      previous state holds, and its `images` are replaced in place by the list without
      position `imgIndex`. The handler throws when there is no such variant or its
      `images` is not an array. */
  method HandleRemoveImage(prev: seq<VariantObject>, variantIndex: nat, imgIndex: nat)
    returns (updated: Option<seq<VariantObject>>)
    modifies if variantIndex < |prev| then {prev[variantIndex]} else {}
    ensures variantIndex >= |prev| ==> updated.None?
    ensures variantIndex < |prev| ==>
              var v := prev[variantIndex];
              && (updated.Some? <==> "images" in old(v.fields) && old(v.fields)["images"].JArr?)
              && (updated.Some? ==>
                    && updated.value == prev
                    && v.fields == old(v.fields)["images" := JArr(RemoveAt(old(v.fields)["images"].items, imgIndex))])
              && (updated.None? ==> v.fields == old(v.fields))
  {
    if variantIndex >= |prev| {
      return None;
    }
    var v := prev[variantIndex];
    if !("images" in v.fields && v.fields["images"].JArr?) {
      return None;
    }
    var images := v.fields["images"].items;
    FilterIndexIsRemoveAt(images, imgIndex);
    v.fields := v.fields["images" := JArr(FilterIndex(images, imgIndex))];
    updated := Some(prev);
  }
}
