/**
 * The public package listing: which query a `category` search parameter
 * selects, and how each stored package is flattened for the storefront.
 */
module PackageListing {
  import opened Wrappers
  import opened Seqs
  import opened ObjectIds
  import opened Schema
  import Http

  /** The filter handed to `Packages.find`: everything, or one category id. */
  datatype Query = AllPackages | ByCategory(id: ObjectId)

  predicate Selects(q: Query, p: Package) {
    q.AllPackages? || p.CategoryId == q.id
  }

  /** One element of the JSON array the listing returns. */
  datatype ListedPackage = ListedPackage(
    id: ObjectId,
    name: string,
    description: string,
    price: string,
    discountPrice: string,
    category: ObjectId,
    image: string,
    review: string,
    experience: string,
    location: string)

  const Placeholder: string := "/placeholder.jpg"

  /** `pkg.Images?.[0]?.url || '/placeholder.jpg'`. */
  function CoverImage(images: seq<ImageRecord>): (r: string)
    ensures r != ""
    ensures r == Placeholder || (|images| > 0 && r == images[0].url)
    ensures |images| > 0 && images[0].url != "" ==> r == images[0].url
  {
    if |images| > 0 && images[0].url != "" then images[0].url else Placeholder
  }

  /** The transformation of one stored package. */
  function Flatten(id: ObjectId, p: Package): ListedPackage {
    ListedPackage(id, p.PackageName, p.PackageDesc, p.Price, p.DiscountPrice, p.CategoryId,
                  CoverImage(p.Images), p.PackageReview, p.Experience, p.Location)
  }

  /**
   * The query chosen for the `category` parameter (None when absent):
   * "all" and the empty string select everything; a name selects the
   * category stored under exactly that name, and everything when there is
   * none.
   */
  predicate QueryFor(categories: map<ObjectId, Category>, category: Option<string>, q: Query) {
    if category.None? || category.value == "" || category.value == "all" then q == AllPackages
    else if exists id | id in categories :: categories[id].CategoryName == category.value then
      q.ByCategory? && q.id in categories && categories[q.id].CategoryName == category.value
    else q == AllPackages
  }

  /** The listing handler's reply: the flattened packages, or a failure reply. */
  datatype ListingReply = Listed(items: seq<ListedPackage>) | ListingFailed(reply: Http.Reply)

  /** `find(query)` in natural order, then `map` over the result. */
  function Listing(order: seq<ObjectId>, packages: map<ObjectId, Package>, q: Query): (r: seq<ListedPackage>)
    requires forall i | 0 <= i < |order| :: order[i] in packages
    ensures |r| <= |order|
    decreases |order|
  {
    if order == [] then []
    else
      (if Selects(q, packages[order[0]]) then [Flatten(order[0], packages[order[0]])] else [])
      + Listing(order[1..], packages, q)
  }

  // ---------------------------------------------------------------------------
  // Properties
  // ---------------------------------------------------------------------------

  /** Without a category every stored package is listed, in natural order. */
  lemma {:induction false} ListingAll(order: seq<ObjectId>, packages: map<ObjectId, Package>)
    requires forall i | 0 <= i < |order| :: order[i] in packages
    ensures |Listing(order, packages, AllPackages)| == |order|
    ensures forall i | 0 <= i < |order| :: Listing(order, packages, AllPackages)[i] == Flatten(order[i], packages[order[i]])
    decreases |order|
  {
    if order != [] {
      ListingAll(order[1..], packages);
    }
  }

  /**
   * A listed entry comes from a stored package the query selects, and
   * every selected stored package is listed.
   */
  lemma {:induction false} ListingMembers(order: seq<ObjectId>, packages: map<ObjectId, Package>, q: Query)
    requires forall i | 0 <= i < |order| :: order[i] in packages
    ensures forall x | x in Listing(order, packages, q) ::
              exists i | 0 <= i < |order| :: Selects(q, packages[order[i]]) && x == Flatten(order[i], packages[order[i]])
    ensures forall i | 0 <= i < |order| && Selects(q, packages[order[i]]) ::
              Flatten(order[i], packages[order[i]]) in Listing(order, packages, q)
    decreases |order|
  {
    if order != [] {
      ListingMembers(order[1..], packages, q);
      forall x | x in Listing(order, packages, q)
        ensures exists i | 0 <= i < |order| :: Selects(q, packages[order[i]]) && x == Flatten(order[i], packages[order[i]])
      {
        if x !in Listing(order[1..], packages, q) {
          assert Selects(q, packages[order[0]]) && x == Flatten(order[0], packages[order[0]]);
        } else {
          var j :| 0 <= j < |order[1..]| && Selects(q, packages[order[1..][j]]) && x == Flatten(order[1..][j], packages[order[1..][j]]);
          assert order[1..][j] == order[j + 1];
        }
      }
      forall i | 0 <= i < |order| && Selects(q, packages[order[i]])
        ensures Flatten(order[i], packages[order[i]]) in Listing(order, packages, q)
      {
        if i > 0 {
          assert order[i] == order[1..][i - 1];
        }
      }
    }
  }

  /** The ids listed appear in natural order: the listing is a subsequence of all packages. */
  lemma {:induction false} ListingKeepsOrder(order: seq<ObjectId>, packages: map<ObjectId, Package>, q: Query)
    requires forall i | 0 <= i < |order| :: order[i] in packages
    ensures IsSubsequence(Listing(order, packages, q), Listing(order, packages, AllPackages))
    decreases |order|
  {
    if order != [] {
      ListingKeepsOrder(order[1..], packages, q);
      var rest, all := Listing(order[1..], packages, q), Listing(order[1..], packages, AllPackages);
      var full := Listing(order, packages, AllPackages);
      assert full == [Flatten(order[0], packages[order[0]])] + all;
      assert full[1..] == all;
      if Selects(q, packages[order[0]]) {
        assert Listing(order, packages, q)[1..] == rest;
      } else {
        assert Listing(order, packages, q) == rest;
        assert rest == [] || IsSubsequence(rest, full[1..]);
      }
    }
  }

  /**
   * While category names are unique, a name that is stored selects
   * exactly that category's packages, and so a listing by name lists only
   * packages of that category.
   */
  lemma QueryForStoredName(categories: map<ObjectId, Category>, id: ObjectId, q: Query)
    requires CategoryNamesUnique(categories) && id in categories
    requires categories[id].CategoryName != "" && categories[id].CategoryName != "all"
    ensures QueryFor(categories, Some(categories[id].CategoryName), q) <==> q == ByCategory(id)
  {
  }

  /** An unknown category name falls back to listing everything. */
  lemma QueryForUnknownName(categories: map<ObjectId, Category>, name: string, q: Query)
    requires forall id | id in categories :: categories[id].CategoryName != name
    ensures QueryFor(categories, Some(name), q) <==> q == AllPackages
  {
  }
}
