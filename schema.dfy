/**
 * The four document shapes of the store (Packages, Categories, Inclusions,
 * Users) and what their mongoose schemas require. A `required` String is
 * rejected by mongoose when it is missing or empty, so "required" is
 * written here as "non-empty"; a field declared without `required` is an
 * `Option`.
 */
module Schema {
  import opened Wrappers
  import opened ObjectIds

  /** Set by `{ timestamps: true }` when a document is created. */
  datatype Timestamps = Timestamps(createdAt: nat, updatedAt: nat)

  // ---------------------------------------------------------------------------
  // Packages
  // ---------------------------------------------------------------------------

  /** An uploaded image; `description` is the only optional field. */
  datatype ImageRecord = ImageRecord(name: string, contentType: string, description: Option<string>, url: string)

  predicate ValidImage(img: ImageRecord) {
    img.name != "" && img.contentType != "" && img.url != ""
  }

  datatype PolicyEntry = PolicyEntry(point: string)

  datatype NeedToKnowEntry = NeedToKnowEntry(name: string)

  /**
   * A bookable package. Prices are strings, not numbers; Policy, NeedToKnow
   * and Images are ordered lists that may be empty.
   */
  datatype Package = Package(
    CategoryId: ObjectId,
    PackageName: string,
    PackageDesc: string,
    Price: string,
    DiscountPrice: string,
    PackageReview: string,
    Experience: string,
    Location: string,
    Policy: seq<PolicyEntry>,
    NeedToKnow: seq<NeedToKnowEntry>,
    Images: seq<ImageRecord>,
    stamps: Timestamps)

  predicate ValidPackage(p: Package) {
    && p.PackageName != "" && p.PackageDesc != "" && p.Price != "" && p.DiscountPrice != ""
    && p.PackageReview != "" && p.Experience != "" && p.Location != ""
    && (forall i | 0 <= i < |p.Policy| :: p.Policy[i].point != "")
    && (forall i | 0 <= i < |p.NeedToKnow| :: p.NeedToKnow[i].name != "")
    && (forall i | 0 <= i < |p.Images| :: ValidImage(p.Images[i]))
  }

  predicate PackagesValid(packages: map<ObjectId, Package>) {
    forall id | id in packages :: ValidPackage(packages[id])
  }

  // ---------------------------------------------------------------------------
  // Categories
  // ---------------------------------------------------------------------------

  /**
   * A category. The schema declares `Image` as a list of image records, but
   * every writer stores one record or null and every reader reads one
   * record, so it is an optional single record here.
   */
  datatype Category = Category(
    CategoryName: string,
    Description: Option<string>,
    Image: Option<ImageRecord>,
    stamps: Timestamps)

  predicate ValidCategory(c: Category) {
    c.CategoryName != "" && (c.Image.Some? ==> ValidImage(c.Image.value))
  }

  predicate CategoriesValid(categories: map<ObjectId, Category>) {
    forall id | id in categories :: ValidCategory(categories[id])
  }

  /** The unique index on CategoryName. */
  predicate CategoryNamesUnique(categories: map<ObjectId, Category>) {
    forall a, b | a in categories && b in categories ::
      categories[a].CategoryName == categories[b].CategoryName ==> a == b
  }

  /** `category.Image?.url`, read on the optional single record; an empty url is falsy. */
  function ImageUrl(image: Option<ImageRecord>): (r: Option<string>)
    ensures r.Some? <==> image.Some? && image.value.url != ""
    ensures r.Some? ==> r.value == image.value.url
  {
    if image.Some? && image.value.url != "" then Some(image.value.url) else None
  }

  /**
   * The image in the shape the schema declares: mongoose casts the one
   * record written into a one-element list, and null into an empty one.
   */
  function DeclaredImageList(image: Option<ImageRecord>): seq<ImageRecord> {
    if image.Some? then [image.value] else []
  }

  /**
   * `category.Image?.url` when `Image` holds the declared list: a list has
   * no `url` property, so the result is None whatever the list holds. The
   * parameter is ignored by design.
   */
  function ImageUrlOfList(images: seq<ImageRecord>): Option<string> {
    None
  }

  /**
   * A category stored with an image yields no url when `Image` is the
   * declared list, while the single record it was written from has one.
   */
  lemma DeclaredListHidesImageUrl(rec: ImageRecord)
    requires ValidImage(rec)
    ensures ImageUrlOfList(DeclaredImageList(Some(rec))) == None
    ensures ImageUrl(Some(rec)) == Some(rec.url)
  {
  }

  // ---------------------------------------------------------------------------
  // Inclusions
  // ---------------------------------------------------------------------------

  /** One inclusion point; `IconName` is optional. */
  datatype InclusionPoint = InclusionPoint(IconName: Option<string>, Point: string)

  /** A list of package references and an ordered list of points. */
  datatype Inclusion = Inclusion(PackageId: seq<ObjectId>, Points: seq<InclusionPoint>, stamps: Timestamps)

  predicate ValidInclusion(inc: Inclusion) {
    forall i | 0 <= i < |inc.Points| :: inc.Points[i].Point != ""
  }

  predicate InclusionsValid(inclusions: map<ObjectId, Inclusion>) {
    forall id | id in inclusions :: ValidInclusion(inclusions[id])
  }

  // ---------------------------------------------------------------------------
  // Users
  // ---------------------------------------------------------------------------

  /** A user: a salted hash and its salt, never a plain-text password. */
  datatype User = User(
    ContactNum: int,
    Username: string,
    Email: string,
    HashedPass: string,
    SaltPass: string,
    Type: string,
    stamps: Timestamps)

  predicate ValidUser(u: User) {
    u.Username != "" && u.Email != "" && u.HashedPass != "" && u.SaltPass != "" && u.Type != ""
  }

  predicate UsersValid(users: map<ObjectId, User>) {
    forall id | id in users :: ValidUser(users[id])
  }

  /** The unique indexes on ContactNum, Username and Email. */
  predicate UsersUnique(users: map<ObjectId, User>) {
    forall a, b | a in users && b in users && a != b ::
      && users[a].ContactNum != users[b].ContactNum
      && users[a].Username != users[b].Username
      && users[a].Email != users[b].Email
  }
}
