/**
 * The admin dashboard of the e-commerce back office
 * (E-commerce/Frontend-Admin/components/Dashboard.jsx): the in-memory product
 * list and the form that adds and edits products, with the search box that
 * filters what is shown.
 *
 * The `useState` hooks are the fields of `Dashboard`. Each call to the REST API
 * is replaced by its outcome, a parameter (`None` when the request fails or the
 * response is not OK); `window.confirm` is a boolean parameter too.
 */
module Dashboard {
  import opened Wrappers
  import Text
  import opened ProductSchema

  // ---------------------------------------------------------------------------
  // The form
  // ---------------------------------------------------------------------------

  /** A numeric form field: the text typed in, or the number `startEdit` copied from a product. */
  datatype Entry = Typed(text: string) | Number(x: real)

  predicate Filled(e: Entry) {
    match e
    case Typed(t) => t != []
    case Number(x) => x != 0.0
  }

  datatype Form = Form(
    title: string, desc: string, imgUrl: string,
    price: Entry, disc: Entry, rating: Entry, category: string)

  const EmptyForm := Form("", "", "", Typed(""), Typed(""), Typed(""), "All")

  const RequiredMessage := "Title, description, image URL, price, and category are required"

  /** `handleSubmit`'s guard: one of the five required fields is empty. */
  predicate MissingRequired(f: Form) {
    f.title == [] || f.desc == [] || f.imgUrl == [] || !Filled(f.price) || f.category == []
  }

  function TextOr(v: Option<string>, d: string): string {
    if v.Some? && v.value != [] then v.value else d
  }

  function EntryOf(v: Option<real>): Entry {
    if v.Some? && v.value != 0.0 then Number(v.value) else Typed("")
  }

  /** `startEdit`'s copy of a product into the form, with `|| ""` and `|| "All"` for falsy fields. */
  function FormOf(p: Product): Form {
    Form(TextOr(p.title, ""), TextOr(p.desc, ""), TextOr(p.imgUrl, ""),
         EntryOf(p.price), EntryOf(p.disc), EntryOf(p.rating), TextOr(p.category, "All"))
  }

  /**
   * A stored product with a positive price loads into a form that passes the
   * required-field check; a free product (price 0) does not, because 0 is falsy.
   */
  lemma EditFormOfStoredProduct(p: Product)
    requires ValidProduct(p)
    ensures MissingRequired(FormOf(p)) <==> p.price.value == 0.0
  {
  }

  // ---------------------------------------------------------------------------
  // List updates and search
  // ---------------------------------------------------------------------------

  /** The list after an update: each product carrying `id` is replaced by `updated`. */
  function ReplaceById(ps: seq<Product>, id: string, updated: Product): (r: seq<Product>)
    ensures |r| == |ps|
  {
    seq(|ps|, i requires 0 <= i < |ps| => if ps[i].id == id then updated else ps[i])
  }

  /** The list after a delete: the products whose id differs from `id`, in order. */
  function RemoveById(ps: seq<Product>, id: string): (r: seq<Product>)
    ensures |r| <= |ps|
  {
    if ps == [] then []
    else (if ps[0].id != id then [ps[0]] else []) + RemoveById(ps[1..], id)
  }

  /** Number of products carrying `id`. */
  function CountId(ps: seq<Product>, id: string): nat {
    if ps == [] then 0 else (if ps[0].id == id then 1 else 0) + CountId(ps[1..], id)
  }

  /**
   * Deleting drops every product with the id and keeps every other one: the
   * length falls by the number of entries with the id, and none of them is left.
   * `RemoveByIdCounts` states that each other product keeps its multiplicity.
   */
  lemma {:induction false} RemoveByIdSpec(ps: seq<Product>, id: string)
    ensures forall p :: p in RemoveById(ps, id) <==> p in ps && p.id != id
    ensures |RemoveById(ps, id)| == |ps| - CountId(ps, id)
    ensures CountId(RemoveById(ps, id), id) == 0
  {
    if ps != [] {
      RemoveByIdSpec(ps[1..], id);
      var rest := RemoveById(ps[1..], id);
      assert forall p :: p in ps <==> p == ps[0] || p in ps[1..];
      if ps[0].id != id {
        assert RemoveById(ps, id) == [ps[0]] + rest;
        assert ([ps[0]] + rest)[1..] == rest;
      } else {
        assert RemoveById(ps, id) == rest;
      }
    }
  }

  /** Each product without the id is kept as often as it is listed; none with the id is kept. */
  lemma {:induction false} RemoveByIdCounts(ps: seq<Product>, id: string)
    ensures forall p :: multiset(RemoveById(ps, id))[p] == (if p.id != id then multiset(ps)[p] else 0)
  {
    if ps != [] {
      RemoveByIdCounts(ps[1..], id);
      assert ps == [ps[0]] + ps[1..];
    }
  }

  /**
   * Replacing keeps the length and the position of every product; only the
   * entries with the id change, and each of them becomes the updated product.
   */
  lemma ReplaceByIdSpec(ps: seq<Product>, id: string, updated: Product)
    ensures forall i :: 0 <= i < |ps| && ps[i].id != id ==> ReplaceById(ps, id, updated)[i] == ps[i]
    ensures forall i :: 0 <= i < |ps| && ps[i].id == id ==> ReplaceById(ps, id, updated)[i] == updated
    ensures CountId(ps, id) == 0 ==> ReplaceById(ps, id, updated) == ps
  {
    if CountId(ps, id) == 0 {
      NoIdNoMatch(ps, id);
    }
  }

  lemma {:induction false} NoIdNoMatch(ps: seq<Product>, id: string)
    requires CountId(ps, id) == 0
    ensures forall i :: 0 <= i < |ps| ==> ps[i].id != id
  {
    if ps != [] {
      NoIdNoMatch(ps[1..], id);
      assert forall i :: 1 <= i < |ps| ==> ps[i] == ps[1..][i - 1];
    }
  }

  /** Deleting a product after editing it leaves the same list as deleting it straight away. */
  lemma {:induction false} RemoveAfterReplace(ps: seq<Product>, id: string, updated: Product)
    requires updated.id == id
    ensures RemoveById(ReplaceById(ps, id, updated), id) == RemoveById(ps, id)
  {
    if ps != [] {
      RemoveAfterReplace(ps[1..], id, updated);
      assert ReplaceById(ps, id, updated)[1..] == ReplaceById(ps[1..], id, updated);
    }
  }

  /**
   * The search test: the title, or else the description, is present and contains
   * the term once both are lower-cased.
   */
  predicate MatchesSearch(p: Product, term: string) {
    || (p.title.Some? && Text.Contains(Text.ToLower(p.title.value), Text.ToLower(term)))
    || (p.desc.Some? && Text.Contains(Text.ToLower(p.desc.value), Text.ToLower(term)))
  }

  /** `filteredProducts`: the products the search box lets through, in list order. */
  function Search(ps: seq<Product>, term: string): (r: seq<Product>)
    ensures |r| <= |ps|
  {
    if ps == [] then []
    else (if MatchesSearch(ps[0], term) then [ps[0]] else []) + Search(ps[1..], term)
  }

  /** The search keeps exactly the products whose title or description contains the term, ignoring case. */
  lemma {:induction false} SearchSpec(ps: seq<Product>, term: string)
    ensures forall p :: p in Search(ps, term) <==> p in ps && MatchesSearch(p, term)
  {
    if ps != [] {
      SearchSpec(ps[1..], term);
      assert forall p :: p in ps <==> p == ps[0] || p in ps[1..];
    }
  }

  /** Each matching product is shown as often as it is in the list, and no other product is shown. */
  lemma {:induction false} SearchCounts(ps: seq<Product>, term: string)
    ensures forall p ::
      multiset(Search(ps, term))[p] == (if MatchesSearch(p, term) then multiset(ps)[p] else 0)
  {
    if ps != [] {
      SearchCounts(ps[1..], term);
      assert ps == [ps[0]] + ps[1..];
    }
  }

  /** An empty search term keeps every product that has a title or a description. */
  lemma EmptySearch(ps: seq<Product>)
    ensures forall p :: p in Search(ps, "") <==> p in ps && (p.title.Some? || p.desc.Some?)
  {
    SearchSpec(ps, "");
    forall p | p in ps
      ensures MatchesSearch(p, "") <==> p.title.Some? || p.desc.Some?
    {
      if p.title.Some? {
        Text.ContainsEmpty(Text.ToLower(p.title.value));
      }
      if p.desc.Some? {
        Text.ContainsEmpty(Text.ToLower(p.desc.value));
      }
    }
  }

  // ---------------------------------------------------------------------------
  // The component
  // ---------------------------------------------------------------------------

  datatype SubmitOutcome = RequiredFieldsMissing | Added | Updated | RequestFailed

  class Dashboard {
    var products: seq<Product>
    var error: string
    var showForm: bool
    var editingProduct: Option<Product>
    var searchTerm: string
    var formData: Form

    constructor()
      ensures products == [] && error == [] && !showForm && editingProduct == None
      ensures searchTerm == [] && formData == EmptyForm
    {
      products := [];
      error := [];
      showForm := false;
      editingProduct := None;
      searchTerm := [];
      formData := EmptyForm;
    }

    /** The search box's `onChange`: only the term changes. */
    method SetSearchTerm(term: string)
      modifies this
      ensures searchTerm == term
      ensures products == old(products) && error == old(error) && showForm == old(showForm)
      ensures editingProduct == old(editingProduct) && formData == old(formData)
    {
      searchTerm := term;
    }

    /**
     * `filteredProducts`, recomputed on every render: each product that matches
     * the current term, as often as it is listed, in list order.
     */
    function FilteredProducts(): (r: seq<Product>)
      reads this
      ensures forall p :: p in r <==> p in products && MatchesSearch(p, searchTerm)
      ensures forall p :: multiset(r)[p] == (if MatchesSearch(p, searchTerm) then multiset(products)[p] else 0)
    {
      SearchSpec(products, searchTerm);
      SearchCounts(products, searchTerm);
      Search(products, searchTerm)
    }

    /** `fetchProducts`, with the fetched list as `data`. */
    method ProductsFetched(data: Option<seq<Product>>)
      modifies this
      ensures data.Some? ==> products == data.value && error == []
      ensures data.None? ==> products == old(products) && error == "Failed to load products"
      ensures formData == old(formData) && editingProduct == old(editingProduct) && showForm == old(showForm)
      ensures searchTerm == old(searchTerm)
    {
      if data.Some? {
        products := data.value;
        error := [];
      } else {
        error := "Failed to load products";
      }
    }

    /** `resetForm`: blank fields, category "All", form hidden, nothing being edited. */
    method ResetForm()
      modifies this
      ensures formData == EmptyForm && !showForm && editingProduct == None
      ensures products == old(products) && error == old(error) && searchTerm == old(searchTerm)
    {
      formData := EmptyForm;
      showForm := false;
      editingProduct := None;
    }

    /** `startEdit`: load a product into the form and show it. */
    method StartEdit(p: Product)
      modifies this
      ensures editingProduct == Some(p) && formData == FormOf(p) && showForm
      ensures products == old(products) && error == old(error) && searchTerm == old(searchTerm)
    {
      editingProduct := Some(p);
      formData := FormOf(p);
      showForm := true;
    }

    /** `addProduct`, with the created product the server returned (if any). */
    method AddProduct(created: Option<Product>)
      modifies this
      ensures created.Some? ==> products == old(products) + [created.value] && error == []
                                && formData == EmptyForm && !showForm && editingProduct == None
      ensures created.None? ==> products == old(products) && error == "Failed to add product"
                                && formData == old(formData) && editingProduct == old(editingProduct)
                                && showForm == old(showForm)
      ensures searchTerm == old(searchTerm)
    {
      if created.Some? {
        products := products + [created.value];
        ResetForm();
        error := [];
      } else {
        error := "Failed to add product";
      }
    }

    /** `updateProduct`, with the updated product the server returned (if any). */
    method UpdateProduct(id: string, updated: Option<Product>)
      modifies this
      ensures updated.Some? ==> products == ReplaceById(old(products), id, updated.value) && error == []
                                && formData == EmptyForm && !showForm && editingProduct == None
      ensures updated.None? ==> products == old(products) && error == "Failed to update product"
                                && formData == old(formData) && editingProduct == old(editingProduct)
                                && showForm == old(showForm)
      ensures searchTerm == old(searchTerm)
    {
      if updated.Some? {
        products := ReplaceById(products, id, updated.value);
        ResetForm();
        error := [];
      } else {
        error := "Failed to update product";
      }
    }

    /** `deleteProduct`: nothing happens unless the user confirms; then the server's answer decides. */
    method DeleteProduct(id: string, confirmed: bool, deleted: bool)
      modifies this
      ensures !confirmed ==> products == old(products) && error == old(error)
      ensures confirmed && deleted ==> products == RemoveById(old(products), id) && error == []
      ensures confirmed && !deleted ==> products == old(products) && error == "Failed to delete product"
      ensures formData == old(formData) && editingProduct == old(editingProduct) && showForm == old(showForm)
      ensures searchTerm == old(searchTerm)
    {
      if !confirmed {
        return;
      }
      if deleted {
        products := RemoveById(products, id);
        error := [];
      } else {
        error := "Failed to delete product";
      }
    }

    /**
     * `handleSubmit`: with a required field empty, only the error is set and no
     * request is made; otherwise the product being edited is updated, or a new
     * one is added. `reply` is the server's product, if the request succeeded.
     */
    method Submit(reply: Option<Product>) returns (outcome: SubmitOutcome)
      modifies this
      ensures MissingRequired(old(formData)) <==> outcome == RequiredFieldsMissing
      ensures outcome == RequiredFieldsMissing ==>
        && error == RequiredMessage && products == old(products)
        && formData == old(formData) && editingProduct == old(editingProduct) && showForm == old(showForm)
      ensures outcome == Updated ==>
        && old(editingProduct).Some? && reply.Some?
        && products == ReplaceById(old(products), old(editingProduct).value.id, reply.value)
      ensures outcome == Added ==> old(editingProduct).None? && reply.Some? && products == old(products) + [reply.value]
      ensures outcome == Updated || outcome == Added ==>
        formData == EmptyForm && !showForm && editingProduct == None && error == []
      ensures outcome == RequestFailed ==>
        && reply.None? && products == old(products)
        && error == (if old(editingProduct).Some? then "Failed to update product" else "Failed to add product")
        && formData == old(formData) && editingProduct == old(editingProduct) && showForm == old(showForm)
      ensures searchTerm == old(searchTerm)
    {
      if MissingRequired(formData) {
        error := RequiredMessage;
        return RequiredFieldsMissing;
      }
      if editingProduct.Some? {
        UpdateProduct(editingProduct.value.id, reply);
        outcome := if reply.Some? then Updated else RequestFailed;
      } else {
        AddProduct(reply);
        outcome := if reply.Some? then Added else RequestFailed;
      }
    }
  }
}
