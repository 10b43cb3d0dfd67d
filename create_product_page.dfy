/** The create-product form's data shaping
    (admin/src/component/mainComponents/CreateProductPage.jsx): slug normalisation, the
    name-to-slug sync, the category and box toggles, and the multipart keys the variants
    are sent under. */
module CreateProductPage {
  import opened Wrappers
  import opened Json
  import opened Seqs
  import opened Text
  import ProductController

  // ---- toSlug ----

  /** The characters a slug is made of: `a-z`, `0-9` and `-`. */
  predicate SlugChar(c: char) { IsLower(c) || IsDigit(c) || c == '-' }

  /** The characters `/[^a-z0-9\s-]/g` keeps. `\s` is the same set `trim` strips. */
  predicate Kept(c: char) { SlugChar(c) || IsSpace(c) }

  predicate IsHyphen(c: char) { c == '-' }

  /** `s` with its leading characters satisfying `p` dropped. */
  function DropWhile(s: string, p: char -> bool): string {
    if s != [] && p(s[0]) then DropWhile(s[1..], p) else s
  }

  lemma {:induction false} DropWhileSpec(s: string, p: char -> bool)
    ensures |DropWhile(s, p)| <= |s| && DropWhile(s, p) == s[|s| - |DropWhile(s, p)|..]
    ensures DropWhile(s, p) == [] || !p(DropWhile(s, p)[0])
    decreases |s|
  {
    if s != [] && p(s[0]) {
      DropWhileSpec(s[1..], p);
      var r := DropWhile(s[1..], p);
      assert s[1..][|s| - 1 - |r|..] == s[|s| - |r|..];
    }
  }

  /** `s.replace(/<p>+/g, '-')`: every maximal run of characters satisfying `p` becomes
      one hyphen. */
  function ReplaceRuns(s: string, p: char -> bool): string
    decreases |s|
  {
    if s == [] then []
    else if p(s[0]) then
      DropWhileSpec(s[1..], p);
      ['-'] + ReplaceRuns(DropWhile(s[1..], p), p)
    else [s[0]] + ReplaceRuns(s[1..], p)
  }

  /** The result has a hyphen where each run was and the other characters unchanged, and
      never two characters satisfying `p` in a row. `q` is any property all characters of
      the input share. */
  lemma {:induction false} ReplaceRunsSpec(s: string, p: char -> bool, q: char -> bool)
    requires forall i :: 0 <= i < |s| ==> q(s[i])
    ensures var r := ReplaceRuns(s, p);
            forall i :: 0 <= i < |r| ==> r[i] == '-' || (!p(r[i]) && q(r[i]))
    ensures var r := ReplaceRuns(s, p);
            s != [] ==> r != [] && r[0] == (if p(s[0]) then '-' else s[0])
    ensures var r := ReplaceRuns(s, p);
            forall i :: 0 <= i < |r| - 1 ==> !(p(r[i]) && p(r[i + 1]))
    decreases |s|
  {
    if s != [] {
      var t := if p(s[0]) then DropWhile(s[1..], p) else s[1..];
      DropWhileSpec(s[1..], p);
      assert t == s[|s| - |t|..];
      assert forall i :: 0 <= i < |t| ==> q(t[i]) by {
        forall i | 0 <= i < |t| ensures q(t[i]) {
          assert t[i] == s[|s| - |t| + i];
        }
      }
      ReplaceRunsSpec(t, p, q);
      var rest := ReplaceRuns(t, p);
      var r := ReplaceRuns(s, p);
      assert r == [if p(s[0]) then '-' else s[0]] + rest;
      assert forall i :: 1 <= i < |r| ==> r[i] == rest[i - 1];
    }
  }

  /** A string with no character satisfying `p` has no run to replace. */
  lemma {:induction false} ReplaceRunsNone(s: string, p: char -> bool)
    requires forall i :: 0 <= i < |s| ==> !p(s[i])
    ensures ReplaceRuns(s, p) == s
  {
    if s != [] {
      ReplaceRunsNone(s[1..], p);
    }
  }

  /** When the only characters satisfying `p` are lone hyphens, every run is one hyphen
      already. */
  lemma {:induction false} ReplaceRunsSingles(s: string, p: char -> bool)
    requires forall i :: 0 <= i < |s| && p(s[i]) ==> s[i] == '-'
    requires forall i :: 0 <= i < |s| - 1 ==> !(p(s[i]) && p(s[i + 1]))
    ensures ReplaceRuns(s, p) == s
  {
    if s != [] {
      ReplaceRunsSingles(s[1..], p);
      if p(s[0]) {
        assert DropWhile(s[1..], p) == s[1..];
      }
    }
  }

  /** `str.toLowerCase().trim().replace(/[^a-z0-9\s-]/g, '').replace(/\s+/g, '-').replace(/-+/g, '-')`. */
  function ToSlug(s: string): string {
    ReplaceRuns(ReplaceRuns(Filter(Trim(Lower(s)), Kept), IsSpace), IsHyphen)
  }

  /** What `toSlug` produces: slug characters only, and never two hyphens in a row. */
  predicate IsSlug(s: string) {
    && (forall i :: 0 <= i < |s| ==> SlugChar(s[i]))
    && (forall i :: 0 <= i < |s| - 1 ==> !(s[i] == '-' && s[i + 1] == '-'))
  }

  lemma ToSlugIsSlug(s: string)
    ensures IsSlug(ToSlug(s))
  {
    var a := Filter(Trim(Lower(s)), Kept);
    var b := ReplaceRuns(a, IsSpace);
    ReplaceRunsSpec(a, IsSpace, Kept);
    assert forall i :: 0 <= i < |b| ==> SlugChar(b[i]);
    ReplaceRunsSpec(b, IsHyphen, SlugChar);
  }

  /** A slug is its own slug, so `toSlug` is idempotent. */
  lemma SlugIsFixed(s: string)
    requires IsSlug(s)
    ensures ToSlug(s) == s
  {
    SlugSurvivesLowerTrim(s);
    SlugSurvivesReplaces(s);
  }

  lemma SlugSurvivesLowerTrim(s: string)
    requires IsSlug(s)
    ensures Filter(Trim(Lower(s)), Kept) == s
  {
    SlugHasNoUpper(s);
    TrimmedFixed(s);
    SlugIsKept(s);
  }

  lemma SlugHasNoUpper(s: string)
    requires IsSlug(s)
    ensures Lower(s) == s
  {
    LowerNoUpper(s);
  }

  lemma SlugIsKept(s: string)
    requires IsSlug(s)
    ensures Filter(s, Kept) == s
  {
    FilterAll(s, Kept);
  }

  lemma SlugSurvivesReplaces(s: string)
    requires IsSlug(s)
    ensures ReplaceRuns(ReplaceRuns(s, IsSpace), IsHyphen) == s
  {
    assert forall i :: 0 <= i < |s| ==> !IsSpace(s[i]);
    ReplaceRunsNone(s, IsSpace);
    ReplaceRunsSingles(s, IsHyphen);
  }

  lemma ToSlugIdempotent(s: string)
    ensures ToSlug(ToSlug(s)) == ToSlug(s)
  {
    ToSlugIsSlug(s);
    SlugIsFixed(ToSlug(s));
  }

  /** Trimming runs before invalid characters are stripped, so a hyphen can be left at
      either end: "a !" becomes "a-". */
  lemma TrailingHyphenKept()
    ensures ToSlug("a !") == "a-"
  {
    LowerTrimExample();
    StripExample();
    SpaceRunExample();
    HyphenRunExample();
    calc {
      ToSlug("a !");
      ReplaceRuns(ReplaceRuns(Filter("a !", Kept), IsSpace), IsHyphen);
      ReplaceRuns(ReplaceRuns("a ", IsSpace), IsHyphen);
      ReplaceRuns("a-", IsHyphen);
    }
  }

  lemma LowerTrimExample()
    ensures Trim(Lower("a !")) == "a !"
  {
    LowerNoUpper("a !");
    TrimmedFixed("a !");
  }

  lemma HyphenRunExample()
    ensures ReplaceRuns("a-", IsHyphen) == "a-"
  {
    ReplaceRunsSingles("a-", IsHyphen);
  }

  lemma StripExample()
    ensures Filter("a !", Kept) == "a "
  {
    var s := "a !";
    assert s[1..] == " !" && s[1..][1..] == "!" && "!"[1..] == [];
    assert Filter("!", Kept) == [];
  }

  lemma SpaceRunExample()
    ensures ReplaceRuns("a ", IsSpace) == "a-"
  {
    var s := "a ";
    assert s[1..] == " " && " "[1..] == [];
    assert DropWhile([], IsSpace) == [];
    assert ReplaceRuns(" ", IsSpace) == "-";
  }

  // ---- The name and slug inputs ----

  /** The part of the form state the two inputs touch. */
  datatype SlugFields = SlugFields(name: string, slug: string, slugEdited: bool)

  datatype Edit = TypeName(value: string) | TypeSlug(value: string)

  /** One `onChange`: typing a name re-derives the slug until the slug has been typed in. */
  function OnEdit(f: SlugFields, e: Edit): (g: SlugFields)
    ensures e.TypeSlug? ==> g.slugEdited && g.slug == ToSlug(e.value) && g.name == f.name
    ensures e.TypeName? ==> g.name == e.value && g.slugEdited == f.slugEdited
    ensures e.TypeName? && !f.slugEdited ==> g.slug == ToSlug(e.value)
    ensures e.TypeName? && f.slugEdited ==> g.slug == f.slug
  {
    match e
    case TypeName(v) => f.(name := v, slug := if f.slugEdited then f.slug else ToSlug(v))
    case TypeSlug(v) => f.(slug := ToSlug(v), slugEdited := true)
  }

  function Replay(f: SlugFields, es: seq<Edit>): SlugFields
    decreases |es|
  {
    if es == [] then f else Replay(OnEdit(f, es[0]), es[1..])
  }

  /** Until the slug is typed in, the slug follows the last name typed. */
  lemma {:induction false} SlugFollowsName(f: SlugFields, es: seq<Edit>)
    requires !f.slugEdited && es != []
    requires forall i :: 0 <= i < |es| ==> es[i].TypeName?
    ensures !Replay(f, es).slugEdited
    ensures Replay(f, es).slug == ToSlug(es[|es| - 1].value)
    decreases |es|
  {
    if |es| > 1 {
      SlugFollowsName(OnEdit(f, es[0]), es[1..]);
    }
  }

  /** Once the slug has been typed in, typing names never changes it again. */
  lemma {:induction false} EditedSlugStays(f: SlugFields, es: seq<Edit>)
    requires f.slugEdited
    requires forall i :: 0 <= i < |es| ==> es[i].TypeName?
    ensures Replay(f, es).slugEdited && Replay(f, es).slug == f.slug
    decreases |es|
  {
    if es != [] {
      EditedSlugStays(OnEdit(f, es[0]), es[1..]);
    }
  }

  /** Both inputs only ever store a `toSlug` result. */
  lemma {:induction false} SlugStaysSlug(f: SlugFields, es: seq<Edit>)
    requires IsSlug(f.slug)
    ensures IsSlug(Replay(f, es).slug)
    decreases |es|
  {
    if es != [] {
      ToSlugIsSlug(es[0].value);
      SlugStaysSlug(OnEdit(f, es[0]), es[1..]);
    }
  }

  // ---- Category and box toggles ----

  predicate Differs(id: string, x: string) { x != id }

  /** `list.includes(id) ? list.filter((x) => x !== id) : [...list, id]`. */
  function Toggle(list: seq<string>, id: string): seq<string> {
    if id in list then Filter(list, (x: string) => Differs(id, x)) else list + [id]
  }

  /** A present id leaves with all its occurrences, an absent one is appended at the end,
      and the other ids keep their order either way. */
  lemma ToggleSpec(list: seq<string>, id: string)
    ensures id in Toggle(list, id) <==> id !in list
    ensures id !in list ==> Toggle(list, id) == list + [id]
    ensures forall x :: x != id ==> (x in Toggle(list, id) <==> x in list)
    ensures Filter(Toggle(list, id), (x: string) => Differs(id, x)) == Filter(list, (x: string) => Differs(id, x))
  {
    var p := (x: string) => Differs(id, x);
    if id in list {
      FilterAll(Filter(list, p), p);
    } else {
      FilterAppend(list, [id], p);
      assert Filter([id], p) == [];
    }
  }

  /** Toggling an absent id twice gives the list back. */
  lemma ToggleTwice(list: seq<string>, id: string)
    requires id !in list
    ensures Toggle(Toggle(list, id), id) == list
  {
    var p := (x: string) => Differs(id, x);
    FilterAppend(list, [id], p);
    assert Filter([id], p) == [];
    FilterAll(list, p);
  }

  /** The form fields the toggles edit. */
  datatype Selection = Selection(categories: seq<string>, compatibleBoxes: seq<string>)

  function HandleCategoryToggle(s: Selection, id: string): (t: Selection)
    ensures t.categories == Toggle(s.categories, id)
    ensures t.compatibleBoxes == s.compatibleBoxes && (id in t.categories <==> id !in s.categories)
  {
    ToggleSpec(s.categories, id);
    s.(categories := Toggle(s.categories, id))
  }

  function HandleBoxToggle(s: Selection, id: string): (t: Selection)
    ensures t.compatibleBoxes == Toggle(s.compatibleBoxes, id)
    ensures t.categories == s.categories && (id in t.compatibleBoxes <==> id !in s.compatibleBoxes)
  {
    ToggleSpec(s.compatibleBoxes, id);
    s.(compatibleBoxes := Toggle(s.compatibleBoxes, id))
  }

  // ---- The variant part of the multipart body ----

  /** The scalar variant fields `handleSubmit` appends, in order. */
  const VariantFields: seq<string> :=
    ["name", "price", "sku", "stock_count", "stock_unit", "discount_type", "tags",
     "low_stock_threshold", "discount_value", "taxIncluded", "taxPercent", "color"]

  /** `variants[${i}][${field}]`. */
  function FormKey(i: nat, field: string): string {
    "variants[" + NatText(i) + "][" + field + "]"
  }

  /** A `FormData` entry: a text field (the value `undefined` when missing), or a file. */
  datatype FormEntry = TextEntry(key: string, value: Option<Json>) | FileEntry(key: string, file: nat)

  /** The form's image list for a variant: its `images` array, else nothing. */
  function FormImages(v: Json): seq<Json> {
    match Get(v, "images")
    case Some(JArr(xs)) => xs
    case _ => []
  }

  function ImageEntries(i: nat, images: seq<Json>): seq<FormEntry> {
    if images == [] then []
    else
      var e := match images[0]
               case JFile(h) => FileEntry(FormKey(i, "images"), h)
               case other => TextEntry(FormKey(i, "images"), Some(other));
      [e] + ImageEntries(i, images[1..])
  }

  /** The entries one variant contributes: its scalar fields, then one per image. */
  function VariantEntries(i: nat, v: Json): seq<FormEntry> {
    seq(|VariantFields|, k requires 0 <= k < |VariantFields| => TextEntry(FormKey(i, VariantFields[k]), Get(v, VariantFields[k])))
    + ImageEntries(i, FormImages(v))
  }

  /** The `form.variants.forEach` of `handleSubmit`. */
  function FormEntries(variants: seq<Json>): seq<FormEntry>
    decreases |variants|
  {
    if variants == [] then []
    else FormEntries(variants[..|variants| - 1]) + VariantEntries(|variants| - 1, variants[|variants| - 1])
  }

  /** The files the server receives: one per file entry, in order. */
  function Uploads(entries: seq<FormEntry>): seq<ProductController.UploadFile> {
    if entries == [] then []
    else
      (if entries[0].FileEntry? then [ProductController.UploadFile(entries[0].key, entries[0].file)] else [])
      + Uploads(entries[1..])
  }

  lemma {:induction false} UploadsAppend(a: seq<FormEntry>, b: seq<FormEntry>)
    ensures Uploads(a + b) == Uploads(a) + Uploads(b)
    decreases |a|
  {
    if a == [] {
      assert a + b == b;
    } else {
      assert (a + b)[0] == a[0];
      assert (a + b)[1..] == a[1..] + b;
      UploadsAppend(a[1..], b);
    }
  }

  /** The browser files among a variant's images, in order. */
  function FileHandles(images: seq<Json>): seq<nat> {
    if images == [] then []
    else (if images[0].JFile? then [images[0].handle] else []) + FileHandles(images[1..])
  }

  /** The uploads variant `i` sends: its files, each under `variants[i][images]`. */
  function VariantUploads(i: nat, handles: seq<nat>): seq<ProductController.UploadFile> {
    seq(|handles|, k requires 0 <= k < |handles| => ProductController.UploadFile(FormKey(i, "images"), handles[k]))
  }

  lemma {:induction false} ImageUploads(i: nat, images: seq<Json>)
    ensures Uploads(ImageEntries(i, images)) == VariantUploads(i, FileHandles(images))
    decreases |images|
  {
    if images != [] {
      ImageUploads(i, images[1..]);
    }
  }

  lemma TextEntriesUploadNothing(i: nat, v: Json)
    ensures Uploads(VariantEntries(i, v)) == VariantUploads(i, FileHandles(FormImages(v)))
  {
    var texts := seq(|VariantFields|, k requires 0 <= k < |VariantFields| => TextEntry(FormKey(i, VariantFields[k]), Get(v, VariantFields[k])));
    assert forall j :: 0 <= j < |texts| ==> texts[j].TextEntry?;
    NoFileEntries(texts);
    UploadsAppend(texts, ImageEntries(i, FormImages(v)));
    ImageUploads(i, FormImages(v));
  }

  lemma {:induction false} NoFileEntries(es: seq<FormEntry>)
    requires forall j :: 0 <= j < |es| ==> es[j].TextEntry?
    ensures Uploads(es) == []
    decreases |es|
  {
    if es != [] {
      NoFileEntries(es[1..]);
    }
  }

  /** The key an image is sent under is the key the server groups by. */
  lemma ImageKeyParses(i: nat)
    ensures ProductController.ParseImageField(FormKey(i, "images")) == Some(i)
  {
    var d := NatText(i);
    var suffix: string := "][" + "images" + "]";
    assert suffix == ProductController.FieldSuffix;
    calc {
      FormKey(i, "images");
      "variants[" + d + "][" + "images" + "]";
      ProductController.FieldPrefix + d + suffix;
      ProductController.FieldPrefix + d + ProductController.FieldSuffix + "";
    }
    ProductController.ImageFieldRoundTrip(i, "");
  }

  lemma VariantUploadsGroup(i: nat, n: nat, handles: seq<nat>)
    ensures Filter(VariantUploads(i, handles), (f: ProductController.UploadFile) => ProductController.InGroup(n, f))
            == if i == n then VariantUploads(i, handles) else []
  {
    var p := (f: ProductController.UploadFile) => ProductController.InGroup(n, f);
    var u := VariantUploads(i, handles);
    ImageKeyParses(i);
    if i == n {
      FilterAll(u, p);
    } else {
      FilterNone(u, p);
    }
  }

  /** The uploads of the first variants that the server puts under index `n`. */
  lemma {:induction false} FilteredUploads(variants: seq<Json>, n: nat)
    ensures Filter(Uploads(FormEntries(variants)), (f: ProductController.UploadFile) => ProductController.InGroup(n, f)) ==
              if n < |variants| then VariantUploads(n, FileHandles(FormImages(variants[n]))) else []
    decreases |variants|
  {
    var p := (f: ProductController.UploadFile) => ProductController.InGroup(n, f);
    if variants != [] {
      var init, last := variants[..|variants| - 1], variants[|variants| - 1];
      var i := |variants| - 1;
      var a, b := Uploads(FormEntries(init)), Uploads(VariantEntries(i, last));
      assert Uploads(FormEntries(variants)) == a + b by {
        UploadsAppend(FormEntries(init), VariantEntries(i, last));
      }
      FilteredUploads(init, n);
      TextEntriesUploadNothing(i, last);
      FilterAppend(a, b, p);
      VariantUploadsGroup(i, n, FileHandles(FormImages(last)));
      if n < i {
        assert init[n] == variants[n];
      }
    }
  }

  /** Round trip through the multipart body: the server groups under index `n` exactly
      the browser files of form variant `n`, in order, and nothing under an index past
      the last variant. */
  lemma UploadsReachTheirVariant(variants: seq<Json>, n: nat)
    ensures ProductController.GroupOf(ProductController.GroupSpec(Uploads(FormEntries(variants))), n) ==
              if n < |variants| then VariantUploads(n, FileHandles(FormImages(variants[n]))) else []
  {
    ProductController.GroupsAreFilters(Uploads(FormEntries(variants)), n);
    FilteredUploads(variants, n);
  }
}
