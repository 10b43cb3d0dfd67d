/** The hero-banner editor (admin/src/component/mainComponents/HeroAdmin.jsx): the form
    keeps newly chosen files in `images`, a preview URL for each of them in `previewUrls`,
    and the URLs already on the server in `existingImages`. */
module HeroAdmin {
  import opened Wrappers
  import opened Seqs

  /** A browser File object chosen in the upload input. */
  type File = nat
  type Url = string

  datatype HeroForm = HeroForm(
    name: string, title: string, description: string, button: string,
    images: seq<File>,          // new files
    existingImages: seq<Url>)   // already on the server

  /** A hero as listed by the server. */
  datatype Hero = Hero(id: string, name: string, title: string, description: string, button: string,
                       images: Option<seq<Url>>)

  /** The component state the handlers below touch. */
  datatype Editor = Editor(form: HeroForm, previewUrls: seq<Url>, editId: Option<string>)

  /** Preview `i` is the object URL of new file `i`. `URL.createObjectURL` is the parameter
      `objectUrl`. */
  predicate Aligned(e: Editor, objectUrl: File -> Url) {
    && |e.previewUrls| == |e.form.images|
    && forall i :: 0 <= i < |e.form.images| ==> e.previewUrls[i] == objectUrl(e.form.images[i])
  }

  function ObjectUrls(files: seq<File>, objectUrl: File -> Url): (r: seq<Url>)
    ensures |r| == |files| && forall i :: 0 <= i < |files| ==> r[i] == objectUrl(files[i])
  {
    seq(|files|, i requires 0 <= i < |files| => objectUrl(files[i]))
  }

  /** `handleFileChange`: the chosen files go after the new images, their URLs after the
      previews. */
  function HandleFileChange(e: Editor, files: seq<File>, objectUrl: File -> Url): Editor {
    e.(form := e.form.(images := e.form.images + files),
       previewUrls := e.previewUrls + ObjectUrls(files, objectUrl))
  }

  /** Adding files keeps the two lists aligned, keeps the earlier files where they were and
      places the new ones, in order, at the end. */
  lemma FileChangeKeepsAlignment(e: Editor, files: seq<File>, objectUrl: File -> Url)
    requires Aligned(e, objectUrl)
    ensures var r := HandleFileChange(e, files, objectUrl);
            Aligned(r, objectUrl)
            && r.form.images[..|e.form.images|] == e.form.images
            && r.form.images[|e.form.images|..] == files
            && r.form.existingImages == e.form.existingImages
  {
    var r := HandleFileChange(e, files, objectUrl);
    assert r.form.images[..|e.form.images|] == e.form.images;
    assert r.form.images[|e.form.images|..] == files;
  }

  /** `imgs.splice(idx, 1)` on the copied array: the elements after `idx` move down one
      place; the new length is returned. */
  method SpliceOne(a: array<File>, idx: nat) returns (len: nat)
    modifies a
    ensures len == if idx < a.Length then a.Length - 1 else a.Length
    ensures len <= a.Length
    ensures a[..len] == RemoveAt(old(a[..]), idx)
  {
    if idx >= a.Length {
      return a.Length;
    }
    var j := idx;
    while j + 1 < a.Length
      invariant idx <= j < a.Length
      invariant forall k :: 0 <= k < idx ==> a[k] == old(a[k])
      invariant forall k :: idx <= k < j ==> a[k] == old(a[k + 1])
      invariant forall k :: j <= k < a.Length ==> a[k] == old(a[k])
    {
      a[j] := a[j + 1];
      j := j + 1;
    }
    len := a.Length - 1;
  }

  /** `removeNewImage`: the file at `idx` leaves the new images (spliced out of a copy) and
      its preview leaves the previews (`filter` by index). */
  method RemoveNewImage(e: Editor, idx: nat) returns (r: Editor)
    ensures r.form == e.form.(images := RemoveAt(e.form.images, idx))
    ensures r.previewUrls == FilterIndex(e.previewUrls, idx)
    ensures r.editId == e.editId
  {
    var imgs := new File[|e.form.images|](i requires 0 <= i < |e.form.images| => e.form.images[i]);
    assert imgs[..] == e.form.images;
    var len := SpliceOne(imgs, idx);
    r := e.(form := e.form.(images := imgs[..len]), previewUrls := FilterIndex(e.previewUrls, idx));
  }

  /** Removing the same position from both lists keeps them aligned. */
  lemma RemovalKeepsAlignment(e: Editor, idx: nat, objectUrl: File -> Url)
    requires Aligned(e, objectUrl)
    ensures Aligned(e.(form := e.form.(images := RemoveAt(e.form.images, idx)),
                       previewUrls := FilterIndex(e.previewUrls, idx)), objectUrl)
  {
    FilterIndexIsRemoveAt(e.previewUrls, idx);
  }

  predicate IsNot(url: Url, img: Url) { img != url }

  /** `removeExistingImage`: every copy of the URL leaves the server images; the others
      keep their order, and the new files and previews are untouched. */
  function RemoveExistingImage(e: Editor, url: Url): (r: Editor)
    ensures url !in r.form.existingImages
    ensures IsSubsequence(r.form.existingImages, e.form.existingImages)
    ensures forall u :: u != url ==> (u in r.form.existingImages <==> u in e.form.existingImages)
    ensures forall u :: multiset(r.form.existingImages)[u] == if u == url then 0 else multiset(e.form.existingImages)[u]
    ensures r.form.images == e.form.images && r.previewUrls == e.previewUrls
    ensures r.form.(existingImages := e.form.existingImages) == e.form && r.editId == e.editId
  {
    FilterIsSubsequence(e.form.existingImages, img => IsNot(url, img));
    FilterMultiset(e.form.existingImages, img => IsNot(url, img));
    e.(form := e.form.(existingImages := Filter(e.form.existingImages, img => IsNot(url, img))))
  }

  /** `resetForm`: an empty form, no previews, not editing. */
  function ResetForm(e: Editor): (r: Editor)
    ensures r.form.name == "" && r.form.title == "" && r.form.description == "" && r.form.button == ""
    ensures r.form.images == [] && r.previewUrls == [] && r.form.existingImages == []
    ensures r.editId.None?
    ensures forall objectUrl :: Aligned(r, objectUrl)
  {
    Editor(HeroForm("", "", "", "", [], []), [], None)
  }

  /** `handleEdit`: the hero's fields, its images (or none) as the server images, no new
      files and no previews. */
  function HandleEdit(e: Editor, hero: Hero): (r: Editor)
    ensures r.form.images == [] && r.previewUrls == []
    ensures r.form.existingImages == hero.images.GetOr([])
    ensures r.editId == Some(hero.id)
    ensures r.form.name == hero.name && r.form.title == hero.title
    ensures r.form.description == hero.description && r.form.button == hero.button
    ensures forall objectUrl :: Aligned(r, objectUrl)
  {
    Editor(HeroForm(hero.name, hero.title, hero.description, hero.button, [], hero.images.GetOr([])),
           [], Some(hero.id))
  }
}
