/** The product document (backend/models/Product.js): the type enumeration, the
    non-empty variant list, and the hook that fills in a missing slug. */
module ProductModel {
  import opened Wrappers
  import opened VariantModel
  import Text

  const ProductTypes: set<string> := {"product", "box", "greeting_card"}
  const DefaultType: string := "product"

  /** The schema's variant validator: `Array.isArray(v) && v.length > 0`. */
  predicate HasVariants(variants: seq<Variant>) {
    |variants| > 0
  }

  /** `product.variants.id(variantId)`: the first variant whose id matches. */
  function FindVariant(variants: seq<Variant>, variantId: Id): (r: Option<Variant>)
    ensures r.Some? ==> r.value in variants && r.value.id == variantId
    ensures r.None? <==> forall i :: 0 <= i < |variants| ==> variants[i].id != variantId
  {
    if variants == [] then None
    else if variants[0].id == variantId then Some(variants[0])
    else FindVariant(variants[1..], variantId)
  }

  class ProductDoc {
    var id: Id
    var productType: string
    var name: string
    var slug: string
    var description: Option<string>
    var keyWords: Option<string>
    var categories: seq<Id>
    var compatibleBoxes: seq<Id>
    var variants: seq<Variant>

    /** A new document: an unset type defaults to "product"; name and slug are trimmed
        (`trim: true`); an unset name or slug is the empty string. */
    constructor (id: Id, productType: Option<string>, name: string, slug: string,
                 description: Option<string>, keyWords: Option<string>,
                 categories: seq<Id>, compatibleBoxes: seq<Id>, variants: seq<Variant>)
      ensures this.id == id && this.productType == productType.GetOr(DefaultType)
      ensures this.name == Text.Trim(name) && this.slug == Text.Trim(slug)
      ensures this.description == description && this.keyWords == keyWords
      ensures this.categories == categories && this.compatibleBoxes == compatibleBoxes
      ensures this.variants == variants
    {
      this.id := id;
      this.productType := productType.GetOr(DefaultType);
      this.name := Text.Trim(name);
      this.slug := Text.Trim(slug);
      this.description := description;
      this.keyWords := keyWords;
      this.categories := categories;
      this.compatibleBoxes := compatibleBoxes;
      this.variants := variants;
    }

    /** The `pre('validate')` hook: only an empty slug, and only when there is a name, is
        replaced by the slug of the name (trimmed by the schema's setter). `slugify` is the
        library call. */
    method PreValidate(slugify: string -> string)
      modifies this`slug
      ensures old(slug) != "" ==> slug == old(slug)
      ensures old(slug) == "" && name != "" ==> slug == Text.Trim(slugify(name))
      ensures old(slug) == "" && name == "" ==> slug == ""
    {
      if slug == "" && name != "" {
        slug := Text.Trim(slugify(name));
      }
    }

    /** What a save checks: the type enumeration, the required name and slug, the slug's
        unique index against the slugs already stored, at least one variant, and each
        variant's own schema. */
    predicate Valid(takenSlugs: set<string>)
      reads this
    {
      && productType in ProductTypes
      && name != ""
      && slug != ""
      && slug !in takenSlugs
      && HasVariants(variants)
      && forall i :: 0 <= i < |variants| ==> VariantModel.Valid(variants[i])
    }

    /** `save()`: run the hook, then validate. */
    method Save(slugify: string -> string, takenSlugs: set<string>) returns (ok: bool)
      modifies this`slug
      ensures old(slug) != "" ==> slug == old(slug)
      ensures old(slug) == "" && name != "" ==> slug == Text.Trim(slugify(name))
      ensures ok <==> Valid(takenSlugs)
    {
      PreValidate(slugify);
      ok := Valid(takenSlugs);
    }
  }

  /** A product with no variants never saves, whatever its other fields. */
  lemma NoVariantsNeverValid(p: ProductDoc, takenSlugs: set<string>)
    requires p.variants == []
    ensures !p.Valid(takenSlugs)
  {
  }

  /** The default type is one of the three allowed types; anything else is rejected. */
  lemma TypeEnumeration(p: ProductDoc, takenSlugs: set<string>)
    requires p.Valid(takenSlugs)
    ensures p.productType == "product" || p.productType == "box" || p.productType == "greeting_card"
  {
  }
}
