/**
 * The product document of the catalogue back end
 * (Product-Listing-Page/Backend-Admin/models/Product.js): which fields a product
 * must have, the ranges of its numbers, the allowed categories, and what saving
 * a document does to it (trimming, defaults).
 *
 * `Product` is a product as the front ends receive it as JSON; a field the
 * document lacks is `None`. Prices and percentages are exact reals.
 */
module ProductSchema {
  import opened Wrappers
  import Text

  datatype Product = Product(
    id: string,
    title: Option<string>,
    desc: Option<string>,
    imgUrl: Option<string>,
    price: Option<real>,
    disc: Option<real>,
    rating: Option<real>,
    category: Option<string>)

  /** The paths of the schema that can fail validation. */
  datatype FieldName = Title | Desc | ImgUrl | Price | Disc | Rating | Category

  /** The `enum` of the category path. */
  const Categories: seq<string> := ["All", "Apparels", "Electronics", "Footwear", "Books"]

  /** A required string path: present and not empty. */
  predicate RequiredText(v: Option<string>) {
    v.Some? && v.value != []
  }

  function TrimField(v: Option<string>): Option<string> {
    match v
    case None => None
    case Some(s) => Some(Text.Trim(Text.JavaScript, s))
  }

  function Default(v: Option<real>, d: real): real {
    if v.Some? then v.value else d
  }

  /** A stored product: every constraint of the schema holds. */
  predicate ValidProduct(p: Product) {
    && RequiredText(p.title) && Text.Trim(Text.JavaScript, p.title.value) == p.title.value
    && RequiredText(p.desc) && Text.Trim(Text.JavaScript, p.desc.value) == p.desc.value
    && RequiredText(p.imgUrl)
    && p.price.Some? && p.price.value >= 0.0
    && p.disc.Some? && 0.0 <= p.disc.value <= 100.0
    && p.rating.Some? && 0.0 <= p.rating.value <= 5.0
    && p.category.Some? && p.category.value in Categories
  }

  const AllFields: set<FieldName> := {Title, Desc, ImgUrl, Price, Disc, Rating, Category}

  /** The document after the `trim` setters and the defaults of `disc` and `rating`. */
  function Stored(doc: Product): Product {
    doc.(title := TrimField(doc.title), desc := TrimField(doc.desc),
         disc := Some(Default(doc.disc, 0.0)), rating := Some(Default(doc.rating, 0.0)))
  }

  /** Whether the validators of one path reject the (trimmed, defaulted) document. */
  predicate Fails(p: Product, f: FieldName) {
    match f
    case Title => !RequiredText(p.title)
    case Desc => !RequiredText(p.desc)
    case ImgUrl => !RequiredText(p.imgUrl)
    case Price => p.price.None? || p.price.value < 0.0
    case Disc => p.disc.None? || p.disc.value < 0.0 || p.disc.value > 100.0
    case Rating => p.rating.None? || p.rating.value < 0.0 || p.rating.value > 5.0
    case Category => p.category.None? || p.category.value !in Categories
  }

  /**
   * Saving a document: the `trim` setters apply first, the defaults fill in a
   * missing `disc` and `rating`, then every path is validated; the failing paths
   * are reported together.
   */
  function Validate(doc: Product): (r: Result<Product, set<FieldName>>)
    ensures r.Success? ==> r.value == Stored(doc) && ValidProduct(r.value)
    ensures r.Failure? ==> r.error != {}
  {
    var errors := set f | f in AllFields && Fails(Stored(doc), f);
    if errors == {} then
      assert forall f :: f in AllFields && Fails(Stored(doc), f) ==> f in errors;
      StoredValid(doc);
      Success(Stored(doc))
    else Failure(errors)
  }

  /** A document none of whose paths fails is stored as a valid product. */
  lemma StoredValid(doc: Product)
    requires forall f :: f in AllFields ==> !Fails(Stored(doc), f)
    ensures ValidProduct(Stored(doc))
  {
    var p := Stored(doc);
    assert !Fails(p, Title) && !Fails(p, Desc);
    Text.TrimIdempotent(Text.JavaScript, doc.title.value);
    Text.TrimIdempotent(Text.JavaScript, doc.desc.value);
    assert !Fails(p, ImgUrl) && !Fails(p, Price) && !Fails(p, Disc) && !Fails(p, Rating) && !Fails(p, Category);
  }

  /** A required, trimmed text path fails exactly when it is missing or only whitespace. */
  lemma TrimmedTextFails(v: Option<string>)
    ensures !RequiredText(TrimField(v)) <==> v.None? || Text.IsBlank(Text.JavaScript, v.value)
  {
    if v.Some? {
      Text.TrimEmptyIffBlank(Text.JavaScript, v.value);
    }
  }

  /**
   * Which paths fail: a title or description that is missing or only whitespace,
   * a missing or empty image URL, a missing or negative price, a discount outside
   * 0..100, a rating outside 0..5, and a category outside the list.
   */
  lemma ValidateErrors(doc: Product)
    ensures Validate(doc).Failure? ==>
      && (Title in Validate(doc).error <==> doc.title.None? || Text.IsBlank(Text.JavaScript, doc.title.value))
      && (Desc in Validate(doc).error <==> doc.desc.None? || Text.IsBlank(Text.JavaScript, doc.desc.value))
      && (ImgUrl in Validate(doc).error <==> !RequiredText(doc.imgUrl))
      && (Price in Validate(doc).error <==> doc.price.None? || doc.price.value < 0.0)
      && (Disc in Validate(doc).error <==> doc.disc.Some? && !(0.0 <= doc.disc.value <= 100.0))
      && (Rating in Validate(doc).error <==> doc.rating.Some? && !(0.0 <= doc.rating.value <= 5.0))
      && (Category in Validate(doc).error <==> doc.category.None? || doc.category.value !in Categories)
  {
    TrimmedTextFails(doc.title);
    TrimmedTextFails(doc.desc);
  }

  /** A stored product is saved again unchanged. */
  lemma ValidateStored(p: Product)
    requires ValidProduct(p)
    ensures Validate(p) == Success(p)
  {
  }

  /** A document with only the required paths gets discount 0 and rating 0. */
  lemma ValidateDefaults(doc: Product)
    requires doc.disc.None? && doc.rating.None?
    requires Validate(doc).Success?
    ensures Validate(doc).value.disc == Some(0.0) && Validate(doc).value.rating == Some(0.0)
  {
  }

  /** `price * (100 - disc) / 100`. */
  function FinalPrice(price: real, disc: real): real {
    price * (100.0 - disc) / 100.0
  }

  /** For a stored product the discounted price lies between 0 and the list price. */
  lemma FinalPriceBounds(p: Product)
    requires ValidProduct(p)
    ensures 0.0 <= FinalPrice(p.price.value, p.disc.value) <= p.price.value
  {
    var price, disc := p.price.value, p.disc.value;
    assert 0.0 <= price * (100.0 - disc) <= price * 100.0 by {
      assert 0.0 <= 100.0 - disc <= 100.0;
    }
  }
}
