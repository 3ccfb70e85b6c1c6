/**
 * The document store behind the route handlers and the handlers that read
 * and change it. Each collection is a map from id to document; the
 * packages also keep their natural (insertion) order, which `find` returns.
 * `online` says whether the database is reachable (every query throws when
 * it is not), and the ghost `uploads` is the set of file names under
 * public/uploads.
 *
 * Inputs the handlers take from their environment are parameters: the id
 * the driver assigns to a new document (an id already in use fails as a
 * duplicate key), the clock `now`, the upload stamps, and whether a file
 * write or unlink succeeds.
 */
module DocumentStore {
  import opened Wrappers
  import opened Text
  import opened Seqs
  import opened ObjectIds
  import opened Schema
  import opened Http
  import opened Uploads
  import opened PackageAdd
  import opened PackageListing
  import opened Auth

  // ---------------------------------------------------------------------------
  // Category requests
  // ---------------------------------------------------------------------------

  /** `data.Image` of a category request; `name` is None when absent, the rest "" when absent. */
  datatype CategoryImageUpload = CategoryImageUpload(name: Option<string>, contentType: string, base64Data: string, description: string)

  datatype CategoryRequest = CategoryRequest(CategoryName: string, Description: string, Image: Option<CategoryImageUpload>)

  /**
   * The file a category image is written to, or None when no write is
   * attempted: no image, an empty `base64Data`, a missing name (the `try`
   * swallows the error) or an empty payload.
   */
  function CategoryImageTarget(img: Option<CategoryImageUpload>, stamp: Stamp): Option<string> {
    if img.None? || img.value.base64Data == "" || img.value.name.None? || Payload(img.value.base64Data) == "" then None
    else Some(GeneratedFileName("category", stamp, Extension(img.value.name.value)))
  }

  /** The value `imageData` holds after the image block: a record only when the file was written. */
  function CategoryImageData(img: Option<CategoryImageUpload>, stamp: Stamp, writeOk: bool): (r: Option<ImageRecord>)
    ensures r.Some? <==> CategoryImageTarget(img, stamp).Some? && writeOk
    ensures r.Some? ==> && r.value.name == CategoryImageTarget(img, stamp).value
                        && r.value.url == UploadUrl(r.value.name)
                        && r.value.contentType == img.value.contentType
                        && r.value.description == Some(img.value.description)
  {
    var target := CategoryImageTarget(img, stamp);
    if target.Some? && writeOk then
      Some(ImageRecord(target.value, img.value.contentType, Some(img.value.description), UploadUrl(target.value)))
    else None
  }

  /** The document `Categories.create` is given; `Description || ""`. */
  function NewCategory(req: CategoryRequest, image: Option<ImageRecord>, now: nat): Category {
    Category(req.CategoryName, Some(req.Description), image, Timestamps(now, now))
  }

  /** The duplicate check `^name$` with the `i` flag, read as ASCII case-insensitive equality. */
  predicate NameTakenIgnoringCase(categories: map<ObjectId, Category>, name: string) {
    exists id | id in categories :: EqualsIgnoreCase(categories[id].CategoryName, name)
  }

  predicate NamesDistinctIgnoringCase(categories: map<ObjectId, Category>) {
    forall a, b | a in categories && b in categories && a != b ::
      !EqualsIgnoreCase(categories[a].CategoryName, categories[b].CategoryName)
  }

  /**
   * Inserting a complete category whose name no stored category has, even
   * ignoring case, keeps the unique index and the ignoring-case
   * distinctness.
   */
  lemma InsertCategoryKeepsNamesUnique(categories: map<ObjectId, Category>, newId: ObjectId, doc: Category)
    requires CategoryNamesUnique(categories) && CategoriesValid(categories)
    requires newId !in categories && ValidCategory(doc) && !NameTakenIgnoringCase(categories, doc.CategoryName)
    ensures CategoryNamesUnique(categories[newId := doc]) && CategoriesValid(categories[newId := doc])
    ensures NamesDistinctIgnoringCase(categories) ==> NamesDistinctIgnoringCase(categories[newId := doc])
  {
    var after := categories[newId := doc];
    forall a, b | a in after && b in after && after[a].CategoryName == after[b].CategoryName
      ensures a == b
    {
      if a != b && (a == newId || b == newId) {
        var other := if a == newId then b else a;
        assert EqualsIgnoreCase(categories[other].CategoryName, doc.CategoryName);
        assert false;
      }
    }
    if NamesDistinctIgnoringCase(categories) {
      forall a, b | a in after && b in after && a != b
        ensures !EqualsIgnoreCase(after[a].CategoryName, after[b].CategoryName)
      {
        if a == newId {
          assert !EqualsIgnoreCase(categories[b].CategoryName, doc.CategoryName);
        } else if b == newId {
          assert !EqualsIgnoreCase(categories[a].CategoryName, doc.CategoryName);
        }
      }
    }
  }

  /** The file category deletion unlinks: the last '/' segment of the image url, when both are non-empty. */
  function ImageFileToRemove(image: Option<ImageRecord>): (r: Option<string>)
    ensures r.Some? ==> ImageUrl(image).Some? && r.value == FileNameOfUrl(ImageUrl(image).value) && r.value != ""
    ensures ImageUrl(image).None? ==> r.None?
  {
    var url := ImageUrl(image);
    if url.Some? && FileNameOfUrl(url.value) != "" then Some(FileNameOfUrl(url.value)) else None
  }

  /**
   * The image a category is created with names the file deletion removes,
   * provided the random part is base-36 and the client's extension has no '/'.
   */
  lemma CategoryImageRemovedOnDelete(img: CategoryImageUpload, stamp: Stamp)
    requires IsBase36(stamp.random)
    requires img.name.Some? && '/' !in Extension(img.name.value)
    ensures CategoryImageData(Some(img), stamp, true).Some? ==>
              ImageFileToRemove(CategoryImageData(Some(img), stamp, true)) == Some(CategoryImageData(Some(img), stamp, true).value.name)
  {
    var data := CategoryImageData(Some(img), stamp, true);
    if data.Some? {
      var name := data.value.name;
      GeneratedFileNameHasNoSlash("category", stamp, Extension(img.name.value));
      FileNameOfUploadUrl(name);
      assert name == "category" + ("-" + NatToDecimal(stamp.timestamp) + "-" + stamp.random + "." + Extension(img.name.value));
    }
  }

  /**
   * Read through the declared list shape, a category created with an image
   * yields no url on delete, so its file is never unlinked, though the
   * single record it was written from names that file.
   */
  lemma DeclaredListKeepsImageFile(img: CategoryImageUpload, stamp: Stamp)
    requires IsBase36(stamp.random)
    requires img.name.Some? && '/' !in Extension(img.name.value)
    requires CategoryImageData(Some(img), stamp, true).Some?
    ensures var data := CategoryImageData(Some(img), stamp, true);
            && ImageUrlOfList(DeclaredImageList(data)) == None
            && ImageFileToRemove(data) == Some(data.value.name)
  {
    CategoryImageRemovedOnDelete(img, stamp);
  }

  // ---------------------------------------------------------------------------
  // Inclusion requests
  // ---------------------------------------------------------------------------

  /**
   * The body of an inclusion request; both fields are None when absent. A
   * single `packageId` string is given as the one-element list mongoose
   * casts it to.
   */
  datatype InclusionRequest = InclusionRequest(packageId: Option<seq<string>>, points: Option<seq<InclusionPoint>>)

  /** The document `Inclusions.create` stores, or None when an id fails to cast. Absent lists default to []. */
  function NewInclusion(req: InclusionRequest, now: nat): (r: Option<Inclusion>)
    ensures r.Some? <==> req.packageId.None? || forall i | 0 <= i < |req.packageId.value| :: IsValidObjectId(req.packageId.value[i])
    ensures r.Some? ==> r.value.Points == req.points.GetOr([])
    ensures r.Some? && req.packageId.None? ==> r.value.PackageId == []
    ensures r.Some? && req.packageId.Some? ==> Some(r.value.PackageId) == ParseObjectIds(req.packageId.value)
    ensures r.Some? ==> |r.value.PackageId| == |req.packageId.GetOr([])|
    ensures r.Some? ==> forall i | 0 <= i < |r.value.PackageId| :: EqualsIgnoreCase(r.value.PackageId[i], req.packageId.value[i])
  {
    var ids := if req.packageId.None? then Some([]) else ParseObjectIds(req.packageId.value);
    if ids.None? then None else Some(Inclusion(ids.value, req.points.GetOr([]), Timestamps(now, now)))
  }

  /** Usernames and emails are unique indexes too: a clash makes `create` throw. */
  predicate ClashesWithUser(users: map<ObjectId, User>, u: User) {
    exists id | id in users :: users[id].Username == u.Username || users[id].Email == u.Email
  }

  /** The natural order of the packages: every stored id exactly once. */
  predicate OrderLists(order: seq<ObjectId>, packages: map<ObjectId, Package>) {
    && (forall i | 0 <= i < |order| :: order[i] in packages)
    && (forall id | id in packages :: id in order)
    && (forall i, j | 0 <= i < j < |order| :: order[i] != order[j])
  }

  /** Appending a new id to the order keeps it listing every stored package once. */
  lemma AppendKeepsOrder(order: seq<ObjectId>, packages: map<ObjectId, Package>, newId: ObjectId, p: Package)
    requires OrderLists(order, packages) && newId !in packages
    ensures OrderLists(order + [newId], packages[newId := p])
  {
    var after := order + [newId];
    forall i, j | 0 <= i < j < |after| ensures after[i] != after[j] {
      if j == |order| {
        assert after[i] == order[i] && order[i] in packages;
      } else {
        assert after[i] == order[i] && after[j] == order[j];
      }
    }
  }

  /**
   * The per-image processing of the package handler, image by image in
   * order: each outcome is the stored record or the failure, in place.
   */
  method ProcessUploads(uploaded: seq<ImageUpload>, stamps: nat -> Stamp, writeOk: string -> bool)
    returns (processed: seq<Option<ImageRecord>>)
    ensures |processed| == |uploaded|
    ensures forall i | 0 <= i < |uploaded| :: processed[i] == ProcessImage(uploaded[i], stamps(i), writeOk)
    ensures processed == ProcessImages(uploaded, stamps, writeOk)
  {
    processed := [];
    var i := 0;
    while i < |uploaded|
      invariant 0 <= i <= |uploaded|
      invariant processed == ProcessImages(uploaded[..i], stamps, writeOk)
    {
      var result := ProcessImage(uploaded[i], stamps(i), writeOk);
      ProcessImagesSnoc(uploaded, i, stamps, writeOk);
      processed := processed + [result];
      i := i + 1;
    }
    assert uploaded[..i] == uploaded;
  }

  // ---------------------------------------------------------------------------
  // The store
  // ---------------------------------------------------------------------------

  class Store {
    var categories: map<ObjectId, Category>
    var packages: map<ObjectId, Package>
    var packageOrder: seq<ObjectId>
    var inclusions: map<ObjectId, Inclusion>
    var users: map<ObjectId, User>
    var online: bool
    ghost var uploads: set<string>

    /** The schemas' requirements on every stored document and the unique indexes. */
    predicate Valid()
      reads this
    {
      && CategoriesValid(categories) && CategoryNamesUnique(categories)
      && PackagesValid(packages) && OrderLists(packageOrder, packages)
      && InclusionsValid(inclusions)
      && UsersValid(users) && UsersUnique(users)
    }

    /** An empty store. */
    constructor(online: bool)
      ensures Valid()
      ensures categories == map[] && packages == map[] && packageOrder == []
      ensures inclusions == map[] && users == map[] && this.online == online && uploads == {}
    {
      categories, packages, packageOrder := map[], map[], [];
      inclusions, users := map[], map[];
      this.online := online;
      uploads := {};
    }

    /**
     * `POST /api/admin/category/add`: a name equal to a stored one ignoring
     * case is refused with 400 and nothing changes; otherwise the image is
     * written when it can be, and the category is created with it, or with
     * no image, and 201, echoing the created category. Any thrown error is
     * 500.
     */
    method AddCategory(req: CategoryRequest, newId: ObjectId, stamp: Stamp, writeOk: bool, now: nat)
      returns (r: Reply, created: Option<Category>)
      requires Valid()
      modifies this
      ensures Valid()
      ensures packages == old(packages) && packageOrder == old(packageOrder) && inclusions == old(inclusions)
      ensures users == old(users) && online == old(online)
      ensures created.Some? <==> r.status == 201
      ensures created.Some? ==> newId in categories && created.value == categories[newId]
      ensures !online ==> r == Message(500, "Failed to create category") && unchanged(this)
      ensures online && NameTakenIgnoringCase(old(categories), req.CategoryName) ==>
                r == Message(400, "Category already exists!") && unchanged(this)
      ensures online && !NameTakenIgnoringCase(old(categories), req.CategoryName) ==>
                var image := CategoryImageData(req.Image, stamp, writeOk);
                var doc := NewCategory(req, image, now);
                && uploads == old(uploads) + (if image.Some? then {image.value.name} else {})
                && (r.status == 201 <==> ValidCategory(doc) && newId !in old(categories))
                && (r.status == 201 ==>
                      r == Message(201, "Category created successfully") && categories == old(categories)[newId := doc] && created == Some(doc))
                && (r.status != 201 ==> r == Message(500, "Failed to create category") && categories == old(categories))
      ensures NamesDistinctIgnoringCase(old(categories)) ==> NamesDistinctIgnoringCase(categories)
    {
      if !online {
        return Message(500, "Failed to create category"), None;
      }
      if NameTakenIgnoringCase(categories, req.CategoryName) {
        return Message(400, "Category already exists!"), None;
      }
      var imageData := CategoryImageData(req.Image, stamp, writeOk);
      if imageData.Some? {
        uploads := uploads + {imageData.value.name};
      }
      var doc := NewCategory(req, imageData, now);
      if !ValidCategory(doc) || newId in categories {
        return Message(500, "Failed to create category"), None;
      }
      InsertCategory(newId, doc);
      r, created := Message(201, "Category created successfully"), Some(doc);
    }

    /** `Categories.create` of a complete category under a fresh id and a name not yet taken. */
    method InsertCategory(newId: ObjectId, doc: Category)
      requires Valid() && ValidCategory(doc) && newId !in categories
      requires !NameTakenIgnoringCase(categories, doc.CategoryName)
      modifies this
      ensures Valid()
      ensures categories == old(categories)[newId := doc]
      ensures packages == old(packages) && packageOrder == old(packageOrder) && inclusions == old(inclusions)
      ensures users == old(users) && online == old(online) && uploads == old(uploads)
      ensures NamesDistinctIgnoringCase(old(categories)) ==> NamesDistinctIgnoringCase(categories)
    {
      InsertCategoryKeepsNamesUnique(categories, newId, doc);
      categories := categories[newId := doc];
    }

    /**
     * `DELETE /api/admin/category/delete?id=`: no id is 400 before any
     * lookup, an unknown id 404; otherwise the image file is unlinked on a
     * best-effort basis and exactly that category is removed, with 200. A
     * malformed id fails to cast and, like an unreachable store, is 500.
     */
    method DeleteCategory(id: Option<string>, unlinkOk: bool) returns (r: Reply)
      requires Valid()
      modifies this
      ensures Valid()
      ensures packages == old(packages) && packageOrder == old(packageOrder) && inclusions == old(inclusions)
      ensures users == old(users) && online == old(online)
      ensures id.None? || id.value == "" ==> r == Message(400, "Category ID is required") && unchanged(this)
      ensures id.Some? && id.value != "" && (!online || !IsValidObjectId(id.value)) ==>
                r == Message(500, "Failed to delete category") && unchanged(this)
      ensures id.Some? && id.value != "" && online && IsValidObjectId(id.value) ==>
                var key := ParseObjectId(id.value).value;
                && (key !in old(categories) ==> r == Message(404, "Category not found") && unchanged(this))
                && (key in old(categories) ==>
                      var file := ImageFileToRemove(old(categories)[key].Image);
                      && r == Message(200, "Category deleted successfully")
                      && categories == old(categories) - {key}
                      && uploads == if file.Some? && unlinkOk then old(uploads) - {file.value} else old(uploads))
    {
      if id.None? || id.value == "" {
        return Message(400, "Category ID is required");
      }
      if !online || !IsValidObjectId(id.value) {
        return Message(500, "Failed to delete category");
      }
      var key := ParseObjectId(id.value).value;
      if key !in categories {
        return Message(404, "Category not found");
      }
      var category := categories[key];
      var url := ImageUrl(category.Image);
      if url.Some? {
        var fileName := FileNameOfUrl(url.value);
        if fileName != "" && unlinkOk {
          uploads := uploads - {fileName};
        }
      }
      categories := categories - {key};
      r := Message(200, "Category deleted successfully");
    }

    /**
     * `POST /api/admin/package/add`: missing required fields are 400 and
     * nothing is written; otherwise every image is processed in order
     * (its file written when it can be), failed images are dropped, and the
     * package is created with the rest, with 200. Building or creating the
     * document can still throw (500), after the files are written.
     */
    method AddPackage(req: PackageRequest, newId: ObjectId, stamps: nat -> Stamp, writeOk: string -> bool, now: nat)
      returns (r: Reply, created: Option<Package>)
      requires Valid()
      modifies this
      ensures Valid()
      ensures created.Some? <==> r.status == 200
      ensures created.Some? ==> newId in packages && created.value == packages[newId]
      ensures categories == old(categories) && inclusions == old(inclusions) && users == old(users) && online == old(online)
      ensures MissingFields(req) != [] ==> r == Message(400, MissingFieldsMessage(MissingFields(req))) && unchanged(this)
      ensures MissingFields(req) == [] && req.Images.None? ==> r == Message(500, "Failed to add package") && unchanged(this)
      ensures MissingFields(req) == [] && req.Images.Some? ==>
                var images := FilterSome(ProcessImages(req.Images.value, stamps, writeOk));
                var doc := PackageDocument(req, images, now);
                && uploads == old(uploads) + FileNames(images)
                && (r.status == 200 <==> doc.Some? && online && ValidPackage(doc.value) && newId !in old(packages))
                && (r.status == 200 ==>
                      && r == Message(200, "Package added successfully")
                      && packages == old(packages)[newId := doc.value]
                      && packageOrder == old(packageOrder) + [newId]
                      && created == doc)
                && (r.status != 200 ==>
                      r == Message(500, "Failed to add package") && packages == old(packages) && packageOrder == old(packageOrder))
    {
      var missing := MissingFields(req);
      if missing != [] {
        return Message(400, MissingFieldsMessage(missing)), None;
      }
      if req.Images.None? {
        return Message(500, "Failed to add package"), None;
      }
      var processed := ProcessUploads(req.Images.value, stamps, writeOk);
      var images := FilterSome(processed);
      WriteUploads(FileNames(images));
      var doc := PackageDocument(req, images, now);
      r, created := CreatePackage(doc, newId);
    }

    /** The files written to the upload directory. */
    method WriteUploads(names: set<string>)
      requires Valid()
      modifies this
      ensures Valid() && uploads == old(uploads) + names
      ensures categories == old(categories) && packages == old(packages) && packageOrder == old(packageOrder)
      ensures inclusions == old(inclusions) && users == old(users) && online == old(online)
    {
      uploads := uploads + names;
    }

    /**
     * `Packages.create` inside the package handler: a thrown error (no
     * document, a refused one, a used id) is 500. On success the reply also
     * carries `success: true` and the created package, which is `created`.
     */
    method CreatePackage(doc: Option<Package>, newId: ObjectId) returns (r: Reply, created: Option<Package>)
      requires Valid()
      modifies this
      ensures Valid()
      ensures created.Some? <==> r.status == 200
      ensures created.Some? ==> created == doc && newId in packages && packages[newId] == created.value
      ensures categories == old(categories) && inclusions == old(inclusions) && users == old(users)
      ensures online == old(online) && uploads == old(uploads)
      ensures r.status == 200 <==> doc.Some? && online && ValidPackage(doc.value) && newId !in old(packages)
      ensures r.status == 200 ==>
                && r == Message(200, "Package added successfully")
                && packages == old(packages)[newId := doc.value]
                && packageOrder == old(packageOrder) + [newId]
      ensures r.status != 200 ==>
                r == Message(500, "Failed to add package") && packages == old(packages) && packageOrder == old(packageOrder)
    {
      if doc.None? || !online || !ValidPackage(doc.value) || newId in packages {
        return Message(500, "Failed to add package"), None;
      }
      AppendKeepsOrder(packageOrder, packages, newId, doc.value);
      packages := packages[newId := doc.value];
      packageOrder := packageOrder + [newId];
      r, created := Message(200, "Package added successfully"), doc;
    }

    /**
     * `GET /api/packages?category=`: the packages the category parameter
     * selects, flattened, in natural order; 500 when the store is unreachable.
     */
    method ListPackages(category: Option<string>) returns (r: ListingReply)
      requires Valid()
      ensures !online ==> r == ListingFailed(Error(500, "Failed to fetch packages"))
      ensures online ==> r.Listed? && exists q :: QueryFor(categories, category, q) && r.items == Listing(packageOrder, packages, q)
    {
      if !online {
        return ListingFailed(Error(500, "Failed to fetch packages"));
      }
      var query := AllPackages;
      if category.Some? && category.value != "" && category.value != "all" {
        if exists id | id in categories :: categories[id].CategoryName == category.value {
          var id :| id in categories && categories[id].CategoryName == category.value;
          query := ByCategory(id);
        }
      }
      assert QueryFor(categories, category, query);
      r := Listed(Listing(packageOrder, packages, query));
    }

    /**
     * `POST /api/admin/inclusions/add`: an unconditional insert of the given
     * package ids and points (no duplicate check), 201, echoing the created
     * inclusion; 500 when the store is unreachable or the document is
     * refused.
     */
    method AddInclusion(req: InclusionRequest, newId: ObjectId, now: nat) returns (r: Reply, created: Option<Inclusion>)
      requires Valid()
      modifies this
      ensures Valid()
      ensures categories == old(categories) && packages == old(packages) && packageOrder == old(packageOrder)
      ensures users == old(users) && online == old(online) && uploads == old(uploads)
      ensures created.Some? <==> r.status == 201
      ensures created.Some? ==> newId in inclusions && created.value == inclusions[newId]
      ensures !online ==> r == Error(500, "Failed to add inclusion") && unchanged(this)
      ensures online ==>
                var doc := NewInclusion(req, now);
                && (r.status == 201 <==> doc.Some? && ValidInclusion(doc.value) && newId !in old(inclusions))
                && (r.status == 201 ==> r == Message(201, "Inclusion added successfully") && inclusions == old(inclusions)[newId := doc.value])
                && (r.status != 201 ==> r == Error(500, "Failed to add inclusion") && inclusions == old(inclusions))
    {
      var doc := NewInclusion(req, now);
      if !online || doc.None? || !ValidInclusion(doc.value) || newId in inclusions {
        return Error(500, "Failed to add inclusion"), None;
      }
      inclusions := inclusions[newId := doc.value];
      r, created := Message(201, "Inclusion added successfully"), doc;
    }

    /**
     * `POST /api/admin/inclusions/delete`: no id is 400, an unknown id 404,
     * otherwise exactly that inclusion is removed, with 200; after a
     * successful delete the id is gone, so deleting it again is 404.
     */
    method DeleteInclusion(id: Option<string>) returns (r: Reply)
      requires Valid()
      modifies this
      ensures Valid()
      ensures categories == old(categories) && packages == old(packages) && packageOrder == old(packageOrder)
      ensures users == old(users) && online == old(online) && uploads == old(uploads)
      ensures id.None? || id.value == "" ==> r == Error(400, "Inclusion ID is required") && unchanged(this)
      ensures id.Some? && id.value != "" && (!online || !IsValidObjectId(id.value)) ==>
                r == Error(500, "Failed to delete inclusion") && unchanged(this)
      ensures id.Some? && id.value != "" && online && IsValidObjectId(id.value) ==>
                var key := ParseObjectId(id.value).value;
                && (key !in old(inclusions) ==> r == Error(404, "Inclusion not found") && unchanged(this))
                && (key in old(inclusions) ==>
                      r == Message(200, "Inclusion deleted successfully") && inclusions == old(inclusions) - {key})
                && key !in inclusions
    {
      if id.None? || id.value == "" {
        return Error(400, "Inclusion ID is required");
      }
      if !online || !IsValidObjectId(id.value) {
        return Error(500, "Failed to delete inclusion");
      }
      var key := ParseObjectId(id.value).value;
      if key !in inclusions {
        return Error(404, "Inclusion not found");
      }
      inclusions := inclusions - {key};
      r := Message(200, "Inclusion deleted successfully");
    }

    /**
     * `POST /api/admin/auth/register`: a taken contact number is 401 (under
     * the key "mmessage") and nothing is inserted; otherwise the user is
     * stored with the salted hash, with 201, echoing the user as `output`.
     * A missing password makes `bcrypt.hash` throw (500); a username or
     * email already in use, or a refused document, fails in `create` (500).
     */
    method Register(req: RegisterRequest, newId: ObjectId, hash: (string, string) -> string, salt: string, now: nat)
      returns (r: Reply, output: Option<User>)
      requires Valid()
      modifies this
      ensures Valid()
      ensures categories == old(categories) && packages == old(packages) && packageOrder == old(packageOrder)
      ensures inclusions == old(inclusions) && online == old(online) && uploads == old(uploads)
      ensures output.Some? <==> r.status == 201
      ensures output.Some? ==> newId in users && output.value == users[newId]
      ensures !online ==> r == Thrown() && unchanged(this)
      ensures online && ContactNumTaken(old(users), req.ContactNum) ==>
                r == Reply(401, "mmessage", "User already exist!") && unchanged(this)
      ensures online && !ContactNumTaken(old(users), req.ContactNum) && req.Password.None? ==>
                r == Thrown() && unchanged(this)
      ensures online && !ContactNumTaken(old(users), req.ContactNum) && req.Password.Some? ==>
                var u := RegisteredUser(req, hash, salt, now);
                && (r.status == 201 <==> ValidUser(u) && !ClashesWithUser(old(users), u) && newId !in old(users))
                && (r.status == 201 ==>
                      r == Message(201, "User Registered Successfully") && users == old(users)[newId := u] && output == Some(u))
                && (r.status != 201 ==> r == Thrown() && users == old(users))
    {
      if !online {
        return Thrown(), None;
      }
      if exists id | id in users :: users[id].ContactNum == req.ContactNum {
        return Reply(401, "mmessage", "User already exist!"), None;
      }
      if req.Password.None? {
        return Thrown(), None;
      }
      var u := RegisteredUser(req, hash, salt, now);
      if !ValidUser(u) || newId in users {
        return Thrown(), None;
      }
      if exists id | id in users :: users[id].Username == u.Username || users[id].Email == u.Email {
        return Thrown(), None;
      }
      users := users[newId := u];
      r, output := Message(201, "User Registered Successfully"), Some(u);
    }

    /** `POST /api/admin/auth/login`: the login decision on the user found by email; 500 when unreachable. */
    method AdminLogin(creds: Credentials, matches: (string, string) -> bool, production: bool) returns (r: LoginReply)
      requires Valid()
      ensures !online ==> r == LoginReply(Thrown(), None, None)
      ensures online ==> r == AdminLoginDecision(FindByEmail(users, creds.Email), creds, matches, production)
      ensures online ==> (r.reply.status == 404 <==> forall id | id in users :: users[id].Email != creds.Email)
    {
      if !online {
        return LoginReply(Thrown(), None, None);
      }
      var found := FindByEmail(users, creds.Email);
      r := AdminLoginDecision(found, creds, matches, production);
    }

    /** `GET /api/admin/auth/check` with the `admin-token` cookie: a read-only lookup, every failure 401. */
    method CheckSession(token: Option<string>) returns (r: CheckReply)
      ensures r == AuthCheck(users, online, token)
      ensures r.reply.status != 500
    {
      r := AuthCheck(users, online, token);
    }

    /**
     * `POST /api/user/auth/login`: the same decision without a cookie; an
     * unknown email gets no response at all (None).
     */
    method UserLogin(creds: Credentials, matches: (string, string) -> bool) returns (r: Option<LoginReply>)
      requires Valid()
      ensures !online ==> r == Some(LoginReply(Thrown(), None, None))
      ensures online ==> r == UserLoginDecision(FindByEmail(users, creds.Email), creds, matches)
      ensures online ==> (r.None? <==> forall id | id in users :: users[id].Email != creds.Email)
    {
      if !online {
        return Some(LoginReply(Thrown(), None, None));
      }
      var found := FindByEmail(users, creds.Email);
      r := UserLoginDecision(found, creds, matches);
    }
  }
}
