/** The product request handlers' data shaping (backend/controllers/productController.js):
    the upload field-name parser and grouping, the create input check, how upload URLs
    land in the variants, the variant merge of an update and the product field copy.
    Request bodies are loose objects (`Json`); uploads are a function from a file to the
    URL it was stored under, or `None` when the upload gave nothing. */
module ProductController {
  import opened Wrappers
  import opened Json
  import opened Seqs
  import opened Text

  // ---- Upload field names: /variants\[(\d+)\]\[images\]/ ----

  const FieldPrefix: string := "variants["
  const FieldSuffix: string := "][images]"

  /** The length of the run of decimal digits at the start of `s`. */
  function DigitRun(s: string): (n: nat)
    ensures n <= |s|
    ensures forall i :: 0 <= i < n ==> IsDigit(s[i])
    ensures n < |s| ==> !IsDigit(s[n])
  {
    if s != [] && IsDigit(s[0]) then 1 + DigitRun(s[1..]) else 0
  }

  /** The pattern matches `s` at position `i` with a digit group of length `d`. */
  predicate MatchesAt(s: string, i: nat, d: nat) {
    && i + |FieldPrefix| + d + |FieldSuffix| <= |s|
    && s[i..i + |FieldPrefix|] == FieldPrefix
    && 0 < d
    && (forall k :: i + |FieldPrefix| <= k < i + |FieldPrefix| + d ==> IsDigit(s[k]))
    && s[i + |FieldPrefix| + d..i + |FieldPrefix| + d + |FieldSuffix|] == FieldSuffix
  }

  /** `parseInt(match[1], 10)` for the digit group of a match. */
  function GroupValue(s: string, i: nat, d: nat): nat
    requires MatchesAt(s, i, d)
  {
    DigitsValue(s[i + |FieldPrefix|..i + |FieldPrefix| + d])
  }

  /** The regex tried at one start position. The greedy digit group can only end at the
      end of the digit run, since `]` is not a digit. */
  function MatchAt(s: string, i: nat): (r: Option<nat>)
    ensures r.Some? ==> i + |FieldPrefix| <= |s| && MatchesAt(s, i, DigitRun(s[i + |FieldPrefix|..]))
                        && r.value == GroupValue(s, i, DigitRun(s[i + |FieldPrefix|..]))
  {
    if i + |FieldPrefix| <= |s| && s[i..i + |FieldPrefix|] == FieldPrefix then
      var d := DigitRun(s[i + |FieldPrefix|..]);
      if 0 < d && i + |FieldPrefix| + d + |FieldSuffix| <= |s|
         && s[i + |FieldPrefix| + d..i + |FieldPrefix| + d + |FieldSuffix|] == FieldSuffix
      then Some(GroupValue(s, i, d))
      else None
    else None
  }

  /** A match at `i` has exactly the digit run as its group, so `MatchAt` finds it. */
  lemma MatchAtComplete(s: string, i: nat, d: nat)
    requires MatchesAt(s, i, d)
    ensures MatchAt(s, i) == Some(GroupValue(s, i, d))
  {
    var t := s[i + |FieldPrefix|..];
    var j := i + |FieldPrefix| + d;
    assert s[j..j + |FieldSuffix|][0] == FieldSuffix[0] == ']';
    assert t[d] == s[j];
  }

  /** The leftmost match at or after position `i`. */
  function ParseFrom(s: string, i: nat): Option<nat>
    requires i <= |s|
    decreases |s| - i
  {
    if MatchAt(s, i).Some? then MatchAt(s, i)
    else if i == |s| then None
    else ParseFrom(s, i + 1)
  }

  /** The index a file's field name names, or `None` when the name does not match. */
  function ParseImageField(fieldname: string): Option<nat> {
    ParseFrom(fieldname, 0)
  }

  lemma {:induction false} ParseFromSpec(s: string, i: nat)
    requires i <= |s|
    ensures ParseFrom(s, i).Some? <==> exists j: nat, d: nat :: i <= j && MatchesAt(s, j, d)
    ensures ParseFrom(s, i).Some? ==>
              exists j: nat, d: nat :: i <= j && MatchesAt(s, j, d) && ParseFrom(s, i).value == GroupValue(s, j, d)
                && forall j': nat, e: nat :: i <= j' < j ==> !MatchesAt(s, j', e)
    decreases |s| - i
  {
    if MatchAt(s, i).Some? {
      var d := DigitRun(s[i + |FieldPrefix|..]);
      assert MatchesAt(s, i, d);
    } else {
      forall e: nat ensures !MatchesAt(s, i, e) {
        if MatchesAt(s, i, e) { MatchAtComplete(s, i, e); }
      }
      if i == |s| {
        forall j: nat, d: nat | i <= j ensures !MatchesAt(s, j, d) {}
      } else {
        ParseFromSpec(s, i + 1);
        forall j: nat, d: nat | i <= j && MatchesAt(s, j, d) ensures i + 1 <= j {}
      }
    }
  }

  /** A field name is grouped exactly when the pattern occurs somewhere in it (the regex
      is not anchored), and then under the number of its leftmost occurrence. */
  lemma ParseImageFieldSpec(s: string)
    ensures ParseImageField(s).Some? <==> exists j: nat, d: nat :: MatchesAt(s, j, d)
    ensures ParseImageField(s).Some? ==>
              exists j: nat, d: nat :: MatchesAt(s, j, d) && ParseImageField(s).value == GroupValue(s, j, d)
                && forall j': nat, e: nat :: j' < j ==> !MatchesAt(s, j', e)
  {
    ParseFromSpec(s, 0);
  }

  /** The field name `variants[<n>][images]` parses back to `n`, and so does any name it is
      the start of. */
  lemma {:induction false} ImageFieldRoundTrip(n: nat, rest: string)
    ensures ParseImageField(FieldPrefix + NatText(n) + FieldSuffix + rest) == Some(n)
  {
    var t := NatText(n);
    var s := FieldPrefix + t + FieldSuffix + rest;
    var p := |FieldPrefix|;
    assert s == FieldPrefix + (t + (FieldSuffix + rest));
    forall k | 0 <= k < |t| ensures s[p + k] == t[k] {}
    forall k | 0 <= k < |FieldSuffix| ensures s[p + |t| + k] == FieldSuffix[k] {}
    assert s[..p] == FieldPrefix;
    assert s[p..p + |t|] == t;
    assert s[p + |t|..p + |t| + |FieldSuffix|] == FieldSuffix;
    assert MatchesAt(s, 0, |t|);
    MatchAtComplete(s, 0, |t|);
    NatTextRoundTrip(n);
  }

  // ---- Grouping the uploaded files by variant index ----

  /** An uploaded file: the multipart field it came in and which browser file it is
      (the handle of a `Json.JFile`). */
  datatype UploadFile = UploadFile(fieldname: string, file: nat)

  predicate InGroup(n: nat, f: UploadFile) {
    ParseImageField(f.fieldname) == Some(n)
  }

  /** `variantFiles` after the `forEach` over the first `|files|` files. */
  function GroupSpec(files: seq<UploadFile>): map<nat, seq<UploadFile>> {
    if files == [] then map[]
    else
      var m := GroupSpec(files[..|files| - 1]);
      var f := files[|files| - 1];
      match ParseImageField(f.fieldname)
      case None => m
      case Some(n) => m[n := GroupOf(m, n) + [f]]
  }

  /** The files grouped under `n`, none when `n` is not a key. */
  function GroupOf(groups: map<nat, seq<UploadFile>>, n: nat): seq<UploadFile> {
    if n in groups then groups[n] else []
  }

  /** The grouping loop of `createProduct` and `updateProduct`. */
  method GroupFiles(files: seq<UploadFile>) returns (groups: map<nat, seq<UploadFile>>)
    ensures groups == GroupSpec(files)
  {
    groups := map[];
    var i := 0;
    while i < |files|
      invariant 0 <= i <= |files|
      invariant groups == GroupSpec(files[..i])
    {
      assert files[..i + 1][..i] == files[..i];
      var index := ParseImageField(files[i].fieldname);
      if index.Some? {
        var n := index.value;
        if n !in groups {
          groups := groups[n := []];
        }
        groups := groups[n := groups[n] + [files[i]]];
      }
      i := i + 1;
    }
    assert files[..i] == files;
  }

  /** Each group holds exactly the files whose field names parse to its index, in arrival
      order; every key has at least one file, and files that parse to nothing are in no group. */
  lemma {:induction false} GroupsAreFilters(files: seq<UploadFile>, n: nat)
    ensures GroupOf(GroupSpec(files), n) == Filter(files, (f: UploadFile) => InGroup(n, f))
    ensures n in GroupSpec(files) ==> GroupSpec(files)[n] != []
    decreases |files|
  {
    var p := (f: UploadFile) => InGroup(n, f);
    if files != [] {
      var init, f := files[..|files| - 1], files[|files| - 1];
      assert files == init + [f];
      var m := GroupSpec(init);
      assert GroupSpec(files) == match ParseImageField(f.fieldname)
                                 case None => m
                                 case Some(k) => m[k := GroupOf(m, k) + [f]];
      GroupsAreFilters(init, n);
      FilterAppend(init, [f], p);
      assert Filter([f], p) == if p(f) then [f] else [];
    }
  }

  // ---- createProduct ----

  datatype ProductError =
    | MissingNameOrVariants   // 400 "Name and at least one variant are required."
    | ProductNotFound         // 404
    | InvalidVariantsFormat   // 400, the variants string is not JSON
    | TypeError               // a property written on, or `map` called on, a non-object

  /** The first check of `createProduct`: a truthy name and a non-empty array of variants. */
  function CheckCreateInput(body: map<string, Json>): (r: Result<seq<Json>, ProductError>)
    ensures r.Success? <==>
              && "name" in body && Truthy(body["name"])
              && "variants" in body && body["variants"].JArr? && body["variants"].items != []
    ensures r.Success? ==> r.value == body["variants"].items
    ensures r.Failure? ==> r.error == MissingNameOrVariants
  {
    if "name" !in body || !Truthy(body["name"]) then Failure(MissingNameOrVariants)
    else if "variants" !in body || !body["variants"].JArr? || body["variants"].items == [] then Failure(MissingNameOrVariants)
    else Success(body["variants"].items)
  }

  /** The files whose upload gave a URL, in file order. */
  function Succeeded(files: seq<UploadFile>, upload: UploadFile -> Option<string>): seq<UploadFile> {
    Filter(files, f => upload(f).Some?)
  }

  /** `uploadResults.filter((r) => r).map((r) => r.secure_url)`: one URL per successful
      upload, in file order. */
  function SuccessfulUrls(files: seq<UploadFile>, upload: UploadFile -> Option<string>): (urls: seq<string>)
    ensures |urls| <= |files|
    ensures |urls| == |Succeeded(files, upload)|
    ensures forall i :: 0 <= i < |urls| ==> upload(Succeeded(files, upload)[i]) == Some(urls[i])
  {
    if files == [] then []
    else
      var rest := SuccessfulUrls(files[1..], upload);
      match upload(files[0])
      case Some(u) => [u] + rest
      case None => rest
  }

  /** A URL is returned exactly when the upload of one of the files gave it. */
  lemma {:induction false} SuccessfulUrlsMembers(files: seq<UploadFile>, upload: UploadFile -> Option<string>, u: string)
    ensures u in SuccessfulUrls(files, upload) <==> exists k :: 0 <= k < |files| && upload(files[k]) == Some(u)
  {
    if files != [] {
      var tail := files[1..];
      SuccessfulUrlsMembers(tail, upload, u);
      if exists k :: 0 <= k < |files| && upload(files[k]) == Some(u) {
        var k :| 0 <= k < |files| && upload(files[k]) == Some(u);
        if k > 0 && upload(files[0]) != Some(u) {
          assert tail[k - 1] == files[k];
        }
      }
      if exists k :: 0 <= k < |tail| && upload(tail[k]) == Some(u) {
        var k :| 0 <= k < |tail| && upload(tail[k]) == Some(u);
        assert files[k + 1] == tail[k];
      }
    }
  }

  /** When every upload succeeds, the URLs are all of them, in file order. */
  lemma {:induction false} SuccessfulUrlsAllSucceed(files: seq<UploadFile>, upload: UploadFile -> Option<string>)
    requires forall k :: 0 <= k < |files| ==> upload(files[k]).Some?
    ensures |SuccessfulUrls(files, upload)| == |files|
    ensures forall k :: 0 <= k < |files| ==> SuccessfulUrls(files, upload)[k] == upload(files[k]).value
  {
    if files != [] {
      var tail := files[1..];
      assert forall k :: 0 <= k < |tail| ==> tail[k] == files[k + 1];
      SuccessfulUrlsAllSucceed(tail, upload);
      var urls := SuccessfulUrls(files, upload);
      assert urls == [upload(files[0]).value] + SuccessfulUrls(tail, upload);
      forall k | 0 <= k < |files| ensures urls[k] == upload(files[k]).value {
        if k > 0 { assert urls[k] == SuccessfulUrls(tail, upload)[k - 1]; }
      }
    }
  }

  /** When every upload fails, there are no URLs. */
  lemma {:induction false} SuccessfulUrlsAllFail(files: seq<UploadFile>, upload: UploadFile -> Option<string>)
    requires forall k :: 0 <= k < |files| ==> upload(files[k]).None?
    ensures SuccessfulUrls(files, upload) == []
  {
    if files != [] {
      var tail := files[1..];
      assert forall k :: 0 <= k < |tail| ==> tail[k] == files[k + 1];
      SuccessfulUrlsAllFail(tail, upload);
    }
  }

  /** Every group index names an object in the variant list: otherwise `createProduct`
      writes `images` on `undefined` (there is no range check) and throws. */
  predicate Attachable(variants: seq<Json>, groups: map<nat, seq<UploadFile>>) {
    forall n :: n in groups ==> n < |variants| && variants[n].JObj?
  }

  /** A variant object whose `images` are replaced by the URLs of `files`. */
  function WithUploads(v: Json, files: seq<UploadFile>, upload: UploadFile -> Option<string>): Json
    requires v.JObj?
  {
    JObj(v.fields["images" := JArr(StringList(SuccessfulUrls(files, upload)))])
  }

  /** The variant list `Product.create` receives: each grouped variant's images replaced by
      the URLs its uploads produced. */
  function Attached(variants: seq<Json>, groups: map<nat, seq<UploadFile>>, upload: UploadFile -> Option<string>): (r: seq<Json>)
    requires Attachable(variants, groups)
    ensures |r| == |variants|
    ensures forall i :: 0 <= i < |variants| && i !in groups ==> r[i] == variants[i]
    ensures forall i :: 0 <= i < |variants| && i in groups ==>
              && r[i].JObj?
              && r[i].fields == variants[i].fields["images" := JArr(StringList(SuccessfulUrls(groups[i], upload)))]
  {
    seq(|variants|, i requires 0 <= i < |variants| => AttachedAt(variants, groups, upload, i))
  }

  /** Entry `k` of the attached list. */
  function AttachedAt(variants: seq<Json>, groups: map<nat, seq<UploadFile>>, upload: UploadFile -> Option<string>, k: nat): Json
    requires Attachable(variants, groups) && k < |variants|
  {
    if k in groups then WithUploads(variants[k], groups[k], upload) else variants[k]
  }

  /** The upload loop of `createProduct`, writing into `processedVariants`. */
  method AttachUploads(variants: array<Json>, groups: map<nat, seq<UploadFile>>, upload: UploadFile -> Option<string>)
    returns (ok: bool)
    modifies variants
    ensures ok <==> Attachable(old(variants[..]), groups)
    ensures ok ==> variants[..] == Attached(old(variants[..]), groups, upload)
    ensures !ok ==> variants[..] == old(variants[..])
  {
    if !(forall n | n in groups :: n < variants.Length && variants[n].JObj?) {
      return false;
    }
    ghost var before := variants[..];
    var i := 0;
    while i < variants.Length
      invariant 0 <= i <= variants.Length
      invariant forall k :: 0 <= k < i ==> variants[k] == AttachedAt(before, groups, upload, k)
      invariant forall k :: i <= k < variants.Length ==> variants[k] == before[k]
    {
      if i in groups {
        variants[i] := WithUploads(variants[i], groups[i], upload);
      }
      i := i + 1;
    }
    assert variants[..] == Attached(before, groups, upload);
    return true;
  }

  // ---- updateProduct ----

  /** `req.body.variants || product.variants`, parsed when it is a string; `parse` stands for
      `JSON.parse`, `None` when it throws. What `.map` is then called on must be an array. */
  function UpdatedVariantsSource(bodyVariants: Option<Json>, stored: seq<Json>, parse: string -> Option<Json>)
    : (r: Result<seq<Json>, ProductError>)
    ensures (bodyVariants.None? || !Truthy(bodyVariants.value)) ==> r == Success(stored)
    ensures bodyVariants.Some? && bodyVariants.value.JArr? && Truthy(bodyVariants.value) ==>
              r == Success(bodyVariants.value.items)
    ensures r == Failure(InvalidVariantsFormat) <==>
              bodyVariants.Some? && bodyVariants.value.JStr? && Truthy(bodyVariants.value) && parse(bodyVariants.value.s).None?
  {
    if bodyVariants.None? || !Truthy(bodyVariants.value) then Success(stored)
    else
      match bodyVariants.value
      case JStr(s) =>
        (match parse(s)
         case None => Failure(InvalidVariantsFormat)
         case Some(JArr(xs)) => Success(xs)
         case Some(_) => Failure(TypeError))
      case JArr(xs) => Success(xs)
      case _ => Failure(TypeError)
  }

  /** The body key the edit form sends a variant's kept image URLs under. */
  function ExistingImagesKey(index: nat, brackets: bool): string {
    "variants[" + NatText(index) + "][existingImages]" + (if brackets then "[]" else "")
  }

  /** `body[key1] || body[key2] || []`: the bracketed key wins, then the plain one. */
  function ExistingImages(body: map<string, Json>, index: nat): (j: Json)
    ensures Truthy(j) || j == JArr([])
    ensures var k1 := ExistingImagesKey(index, true);
            k1 in body && Truthy(body[k1]) ==> j == body[k1]
    ensures var k1, k2 := ExistingImagesKey(index, true), ExistingImagesKey(index, false);
            !(k1 in body && Truthy(body[k1])) && k2 in body && Truthy(body[k2]) ==> j == body[k2]
    ensures var k1, k2 := ExistingImagesKey(index, true), ExistingImagesKey(index, false);
            !(k1 in body && Truthy(body[k1])) && !(k2 in body && Truthy(body[k2])) ==> j == JArr([])
  {
    var k1, k2 := ExistingImagesKey(index, true), ExistingImagesKey(index, false);
    if k1 in body && Truthy(body[k1]) then body[k1]
    else if k2 in body && Truthy(body[k2]) then body[k2]
    else JArr([])
  }

  /** A single value becomes a one-element list. */
  function Normalized(j: Json): (r: seq<Json>)
    ensures j.JArr? ==> r == j.items
    ensures !j.JArr? ==> r == [j]
  {
    if j.JArr? then j.items else [j]
  }

  /** `product.variants[index]?.images || []`. */
  function StoredImages(stored: seq<Json>, index: nat): Json {
    if index < |stored| then
      match Get(stored[index], "images")
      case Some(imgs) => if Truthy(imgs) then imgs else JArr([])
      case None => JArr([])
    else JArr([])
  }

  /** The images a merged variant starts from: the kept URLs the form sent for this index,
      else what the stored variant had. */
  function BaseImages(body: map<string, Json>, stored: seq<Json>, index: nat): (r: Json)
    ensures Normalized(ExistingImages(body, index)) != [] ==> r == JArr(Normalized(ExistingImages(body, index)))
    ensures Normalized(ExistingImages(body, index)) == [] ==> r == StoredImages(stored, index)
  {
    var normalized := Normalized(ExistingImages(body, index));
    if |normalized| > 0 then JArr(normalized) else StoredImages(stored, index)
  }

  /** `{ ...storedVariant, ...variant, images: baseImages }`. */
  function MergeVariant(variant: Json, index: nat, body: map<string, Json>, stored: seq<Json>): Json {
    var saved := if index < |stored| then Spread(Some(stored[index])) else map[];
    JObj((saved + Spread(Some(variant)))["images" := BaseImages(body, stored, index)])
  }

  /** The `map` of `updateProduct` over the submitted variants. */
  function MergeVariants(variants: seq<Json>, body: map<string, Json>, stored: seq<Json>): (r: seq<Json>)
    ensures |r| == |variants|
    ensures forall i :: 0 <= i < |r| ==> r[i] == MergeVariant(variants[i], i, body, stored)
  {
    seq(|variants|, i requires 0 <= i < |variants| => MergeVariant(variants[i], i, body, stored))
  }

  /** A merged variant is an object whose `images` are the base images and whose every
      other field is the submitted one when submitted, else the stored one. */
  lemma MergeFields(variant: Json, index: nat, body: map<string, Json>, stored: seq<Json>, key: string)
    ensures MergeVariant(variant, index, body, stored).JObj?
    ensures Get(MergeVariant(variant, index, body, stored), "images") == Some(BaseImages(body, stored, index))
    ensures key != "images" ==>
              Get(MergeVariant(variant, index, body, stored), key) ==
                if Get(variant, key).Some? then Get(variant, key)
                else if index < |stored| then Get(stored[index], key)
                else None
  {
  }

  /** A non-empty list under the bracketed key, which is what the edit page sends, is used
      as it is; a kept-images value sent as one string under the plain key becomes a
      one-element list; when nothing is sent, the stored variant's images are kept. */
  lemma BaseImagesCases(body: map<string, Json>, stored: seq<Json>, index: nat, url: string, urls: seq<Json>)
    ensures (body.Keys >= {ExistingImagesKey(index, true)} && body[ExistingImagesKey(index, true)] == JArr(urls)
             && urls != []) ==>
              BaseImages(body, stored, index) == JArr(urls)
    ensures (ExistingImagesKey(index, true) !in body && body.Keys >= {ExistingImagesKey(index, false)}
             && body[ExistingImagesKey(index, false)] == JStr(url) && url != "") ==>
              BaseImages(body, stored, index) == JArr([JStr(url)])
    ensures (ExistingImagesKey(index, true) !in body && ExistingImagesKey(index, false) !in body) ==>
              BaseImages(body, stored, index) == StoredImages(stored, index)
  {
  }

  /** `updatedVariants[index].images || []`, as a list. */
  function ImagesOf(v: Json): seq<Json> {
    match Get(v, "images")
    case Some(JArr(xs)) => xs
    case _ => []
  }

  /** A variant object with the URLs of `files` appended to its images. */
  function AppendUploadsTo(v: Json, files: seq<UploadFile>, upload: UploadFile -> Option<string>): Json
    requires v.JObj?
  {
    JObj(v.fields["images" := JArr(ImagesOf(v) + StringList(SuccessfulUrls(files, upload)))])
  }

  /** The variant list after the new uploads: for a group index that names a variant, the
      URLs are appended to its images; other group indices are skipped. */
  function Appended(variants: seq<Json>, groups: map<nat, seq<UploadFile>>, upload: UploadFile -> Option<string>)
    : (r: seq<Json>)
    requires forall i :: 0 <= i < |variants| ==> variants[i].JObj?
    ensures |r| == |variants|
    ensures forall i :: 0 <= i < |variants| && i !in groups ==> r[i] == variants[i]
    ensures forall i :: 0 <= i < |variants| && i in groups ==>
              && r[i].JObj? && r[i].fields.Keys == variants[i].fields.Keys + {"images"}
              && ImagesOf(r[i]) == ImagesOf(variants[i]) + StringList(SuccessfulUrls(groups[i], upload))
              && forall k :: k in variants[i].fields && k != "images" ==> r[i].fields[k] == variants[i].fields[k]
  {
    seq(|variants|, i requires 0 <= i < |variants| => AppendedAt(variants, groups, upload, i))
  }

  /** Entry `k` of the appended list. */
  function AppendedAt(variants: seq<Json>, groups: map<nat, seq<UploadFile>>, upload: UploadFile -> Option<string>, k: nat): Json
    requires k < |variants| && variants[k].JObj?
  {
    if k in groups then AppendUploadsTo(variants[k], groups[k], upload) else variants[k]
  }

  /** The upload loop of `updateProduct`, writing into `updatedVariants`. */
  method AppendUploads(variants: array<Json>, groups: map<nat, seq<UploadFile>>, upload: UploadFile -> Option<string>)
    requires forall i :: 0 <= i < variants.Length ==> variants[i].JObj?
    modifies variants
    ensures variants[..] == Appended(old(variants[..]), groups, upload)
  {
    ghost var before := variants[..];
    var i := 0;
    while i < variants.Length
      invariant 0 <= i <= variants.Length
      invariant forall k :: 0 <= k < i ==> variants[k] == AppendedAt(before, groups, upload, k)
      invariant forall k :: i <= k < variants.Length ==> variants[k] == before[k]
    {
      if i in groups {
        variants[i] := AppendUploadsTo(variants[i], groups[i], upload);
      }
      i := i + 1;
    }
    assert variants[..] == Appended(before, groups, upload);
  }

  /** Merged variants are objects, so the append loop may write into every one of them. */
  lemma MergedAreObjects(variants: seq<Json>, body: map<string, Json>, stored: seq<Json>)
    ensures forall i :: 0 <= i < |MergeVariants(variants, body, stored)| ==> MergeVariants(variants, body, stored)[i].JObj?
  {
  }

  /** The product-level fields an update may set. */
  const AllowedFields: seq<string> :=
    ["name", "slug", "description", "tags", "categories", "compatibleBoxes", "low_stock_threshold", "boxDetails", "type"]

  /** The `allowedFields.forEach` of `updateProduct` on the product's fields: each allowed
      field present in the body (even as `null`) is copied; nothing else changes. */
  method CopyAllowedFields(product: map<string, Json>, body: map<string, Json>) returns (r: map<string, Json>)
    ensures forall k :: k in r <==> k in product || (k in AllowedFields && k in body)
    ensures forall k :: k in AllowedFields && k in body ==> r[k] == body[k]
    ensures forall k :: k in product && !(k in AllowedFields && k in body) ==> r[k] == product[k]
  {
    r := product;
    var i := 0;
    while i < |AllowedFields|
      invariant 0 <= i <= |AllowedFields|
      invariant forall k :: k in r <==> k in product || (k in AllowedFields[..i] && k in body)
      invariant forall k :: k in AllowedFields[..i] && k in body ==> r[k] == body[k]
      invariant forall k :: k in product && !(k in AllowedFields[..i] && k in body) ==> r[k] == product[k]
    {
      var field := AllowedFields[i];
      assert AllowedFields[..i + 1] == AllowedFields[..i] + [field];
      if field in body {
        r := r[field := body[field]];
      }
      i := i + 1;
    }
    assert AllowedFields[..i] == AllowedFields;
  }
}
