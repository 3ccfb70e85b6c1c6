/**
 * The pure parts of the admin "add package" handler: which required fields
 * a request lacks, how each uploaded image becomes a stored image record,
 * and the package document handed to the store.
 */
module PackageAdd {
  import opened Wrappers
  import opened Text
  import opened Seqs
  import opened ObjectIds
  import opened Schema
  import opened Uploads

  /**
   * `data.CategoryId` as the admin form sends it: either the id as text or
   * the whole category object, of which only `_id` is read ("" when absent).
   */
  datatype CategoryRef = CategoryText(text: string) | CategoryObject(id: string)

  /**
   * One entry of `data.Images`. `name` and `url` are None when the property
   * is absent (reading it throws); the other fields use "" for absent.
   */
  datatype ImageUpload = ImageUpload(name: Option<string>, contentType: string, description: string, url: Option<string>)

  /**
   * The JSON body. String fields use "" for absent or empty; the three lists
   * are None when absent. `Policy` holds each entry's `point`, `NeedToKnow`
   * each entry's `name`.
   */
  datatype PackageRequest = PackageRequest(
    CategoryId: CategoryRef,
    PackageName: string,
    PackageDesc: string,
    Price: string,
    DiscountPrice: string,
    PackageReview: string,
    Experience: string,
    Location: string,
    Policy: Option<seq<string>>,
    NeedToKnow: Option<seq<string>>,
    Images: Option<seq<ImageUpload>>)

  // ---------------------------------------------------------------------------
  // Required fields
  // ---------------------------------------------------------------------------

  /** The fields checked for truthiness, in the order they are reported. */
  const RequiredFields: seq<string> :=
    ["CategoryId", "PackageName", "PackageDesc", "Price", "DiscountPrice", "PackageReview", "Experience", "Location"]

  /** `!!data[field]`; an object is always truthy. */
  predicate Provided(req: PackageRequest, field: string) {
    if field == "CategoryId" then req.CategoryId.CategoryObject? || req.CategoryId.text != ""
    else if field == "PackageName" then req.PackageName != ""
    else if field == "PackageDesc" then req.PackageDesc != ""
    else if field == "Price" then req.Price != ""
    else if field == "DiscountPrice" then req.DiscountPrice != ""
    else if field == "PackageReview" then req.PackageReview != ""
    else if field == "Experience" then req.Experience != ""
    else if field == "Location" then req.Location != ""
    else false
  }

  /** `fields.filter(field => !data[field])`. */
  function MissingAmong(req: PackageRequest, fields: seq<string>): seq<string>
    decreases |fields|
  {
    if fields == [] then []
    else (if Provided(req, fields[0]) then [] else [fields[0]]) + MissingAmong(req, fields[1..])
  }

  function MissingFields(req: PackageRequest): seq<string> {
    MissingAmong(req, RequiredFields)
  }

  /** The body of the 400 reply. */
  function MissingFieldsMessage(missing: seq<string>): string {
    "Missing required fields: " + Join(missing, ", ")
  }

  /** Every field provided, spelled out field by field. */
  predicate AllProvided(req: PackageRequest) {
    && (req.CategoryId.CategoryObject? || req.CategoryId.text != "")
    && req.PackageName != "" && req.PackageDesc != "" && req.Price != "" && req.DiscountPrice != ""
    && req.PackageReview != "" && req.Experience != "" && req.Location != ""
  }

  /** The filter keeps exactly the unprovided fields, in their original order. */
  lemma {:induction false} MissingAmongSpec(req: PackageRequest, fields: seq<string>)
    ensures forall f :: f in MissingAmong(req, fields) <==> f in fields && !Provided(req, f)
    ensures IsSubsequence(MissingAmong(req, fields), fields)
    decreases |fields|
  {
    if fields != [] {
      var rest := MissingAmong(req, fields[1..]);
      MissingAmongSpec(req, fields[1..]);
      assert fields == [fields[0]] + fields[1..];
      if !Provided(req, fields[0]) {
        assert MissingAmong(req, fields) == [fields[0]] + rest;
        assert (MissingAmong(req, fields))[1..] == rest;
      } else {
        assert MissingAmong(req, fields) == rest;
        assert rest == [] || IsSubsequence(rest, fields[1..]);
      }
    }
  }

  /**
   * A field is reported iff it is required and not provided, the report
   * follows the declared order, and it is empty exactly when every field is
   * provided.
   */
  lemma MissingFieldsSpec(req: PackageRequest)
    ensures forall f :: f in MissingFields(req) <==> f in RequiredFields && !Provided(req, f)
    ensures IsSubsequence(MissingFields(req), RequiredFields)
    ensures MissingFields(req) == [] <==> AllProvided(req)
  {
    MissingAmongSpec(req, RequiredFields);
    if MissingFields(req) == [] {
      forall f | f in RequiredFields ensures Provided(req, f) {
        assert f !in MissingFields(req);
      }
      assert Provided(req, "CategoryId") && Provided(req, "PackageName") && Provided(req, "PackageDesc");
      assert Provided(req, "Price") && Provided(req, "DiscountPrice") && Provided(req, "PackageReview");
      assert Provided(req, "Experience") && Provided(req, "Location");
    } else {
      var f := MissingFields(req)[0];
      assert f in MissingFields(req);
    }
  }

  /** An empty report means every field is provided. */
  lemma NothingMissing(req: PackageRequest)
    requires MissingFields(req) == []
    ensures AllProvided(req)
  {
    MissingFieldsSpec(req);
  }

  // ---------------------------------------------------------------------------
  // Images
  // ---------------------------------------------------------------------------

  /**
   * The file an image is written to, or None when processing throws before
   * the write: `name` or `url` absent, or an empty payload.
   */
  function ImageTarget(img: ImageUpload, stamp: Stamp): Option<string> {
    if img.name.None? || img.url.None? || Payload(img.url.value) == "" then None
    else Some(GeneratedFileName("package", stamp, Extension(img.name.value)))
  }

  /**
   * The per-image `try`: the stored record when the file was written, and
   * None (the `null` of a caught failure) otherwise. `writeOk` says which
   * writes succeed.
   */
  function ProcessImage(img: ImageUpload, stamp: Stamp, writeOk: string -> bool): (r: Option<ImageRecord>)
    ensures r.Some? <==> ImageTarget(img, stamp).Some? && writeOk(ImageTarget(img, stamp).value)
    ensures r.Some? ==> && r.value.name == ImageTarget(img, stamp).value
                        && r.value.url == UploadUrl(r.value.name)
                        && r.value.contentType == img.contentType
                        && r.value.description == Some(img.description)
  {
    var target := ImageTarget(img, stamp);
    if target.Some? && writeOk(target.value) then
      Some(ImageRecord(target.value, img.contentType, Some(img.description), UploadUrl(target.value)))
    else None
  }

  /** `Promise.all(images.map(...))`: the i-th image uses the i-th stamp. */
  function ProcessImages(imgs: seq<ImageUpload>, stamps: nat -> Stamp, writeOk: string -> bool): (r: seq<Option<ImageRecord>>)
    ensures |r| == |imgs|
    ensures forall i | 0 <= i < |imgs| :: r[i] == ProcessImage(imgs[i], stamps(i), writeOk)
    decreases |imgs|
  {
    if imgs == [] then []
    else ProcessImages(imgs[..|imgs| - 1], stamps, writeOk) + [ProcessImage(imgs[|imgs| - 1], stamps(|imgs| - 1), writeOk)]
  }

  /** Processing one more image appends its outcome. */
  lemma ProcessImagesSnoc(imgs: seq<ImageUpload>, i: int, stamps: nat -> Stamp, writeOk: string -> bool)
    requires 0 <= i < |imgs|
    ensures ProcessImages(imgs[..i + 1], stamps, writeOk) == ProcessImages(imgs[..i], stamps, writeOk) + [ProcessImage(imgs[i], stamps(i), writeOk)]
  {
    assert imgs[..i + 1][..i] == imgs[..i];
  }

  /** The names of files behind a list of stored records. */
  function FileNames(records: seq<ImageRecord>): set<string>
    decreases |records|
  {
    if records == [] then {} else FileNames(records[..|records| - 1]) + {records[|records| - 1].name}
  }

  /**
   * A processed image points at the file it names (so deleting by URL finds
   * it) whenever the random part is base-36 and the client's extension has
   * no '/'.
   */
  lemma ProcessedImageNamesItsFile(img: ImageUpload, stamp: Stamp, writeOk: string -> bool)
    requires IsBase36(stamp.random)
    requires img.name.Some? && '/' !in Extension(img.name.value)
    ensures ProcessImage(img, stamp, writeOk).Some? ==>
              var rec := ProcessImage(img, stamp, writeOk).value;
              FileNameOfUrl(rec.url) == rec.name && Extension(rec.name) == Extension(img.name.value)
  {
    var rec := ProcessImage(img, stamp, writeOk);
    if rec.Some? {
      GeneratedFileNameHasNoSlash("package", stamp, Extension(img.name.value));
      FileNameOfUploadUrl(rec.value.name);
      GeneratedFileNameExtension("package", stamp, img.name.value);
    }
  }

  /**
   * A kept record always has a name and a URL, so the schema accepts it
   * exactly when the client sent a content type.
   */
  lemma ProcessedImageValidity(img: ImageUpload, stamp: Stamp, writeOk: string -> bool)
    requires ProcessImage(img, stamp, writeOk).Some?
    ensures ValidImage(ProcessImage(img, stamp, writeOk).value) <==> img.contentType != ""
  {
    var name := ImageTarget(img, stamp).value;
    assert name == "package" + ("-" + NatToDecimal(stamp.timestamp) + "-" + stamp.random + "." + Extension(img.name.value));
  }

  // ---------------------------------------------------------------------------
  // The stored document
  // ---------------------------------------------------------------------------

  /** `new mongoose.Types.ObjectId(data.CategoryId._id || data.CategoryId)`; None when it throws. */
  function ResolveCategoryId(ref: CategoryRef): (r: Option<ObjectId>)
    ensures r.Some? <==> match ref
                         case CategoryText(t) => IsValidObjectId(t)
                         case CategoryObject(id) => IsValidObjectId(id)
    ensures r.Some? ==> EqualsIgnoreCase(r.value, if ref.CategoryText? then ref.text else ref.id)
  {
    match ref
    case CategoryText(t) => ParseObjectId(t)
    case CategoryObject(id) => if id != "" then ParseObjectId(id) else None
  }

  function PolicyEntries(points: seq<string>): (r: seq<PolicyEntry>)
    ensures |r| == |points| && forall i | 0 <= i < |points| :: r[i].point == points[i]
  {
    seq(|points|, i requires 0 <= i < |points| => PolicyEntry(points[i]))
  }

  function NeedToKnowEntries(names: seq<string>): (r: seq<NeedToKnowEntry>)
    ensures |r| == |names| && forall i | 0 <= i < |names| :: r[i].name == names[i]
  {
    seq(|names|, i requires 0 <= i < |names| => NeedToKnowEntry(names[i]))
  }

  /**
   * The object given to `Packages.create`, or None when building it throws:
   * a malformed category id, or Policy or NeedToKnow absent.
   */
  function PackageDocument(req: PackageRequest, images: seq<ImageRecord>, now: nat): (r: Option<Package>)
    ensures r.Some? <==> ResolveCategoryId(req.CategoryId).Some? && req.Policy.Some? && req.NeedToKnow.Some?
    ensures r.Some? ==> && r.value.CategoryId == ResolveCategoryId(req.CategoryId).value
                        && r.value.Policy == PolicyEntries(req.Policy.value)
                        && r.value.NeedToKnow == NeedToKnowEntries(req.NeedToKnow.value)
                        && r.value.Images == images
  {
    var cat := ResolveCategoryId(req.CategoryId);
    if cat.None? || req.Policy.None? || req.NeedToKnow.None? then None
    else Some(Package(cat.value, req.PackageName, req.PackageDesc, req.Price, req.DiscountPrice,
                      req.PackageReview, req.Experience, req.Location,
                      PolicyEntries(req.Policy.value), NeedToKnowEntries(req.NeedToKnow.value),
                      images, Timestamps(now, now)))
  }

  /**
   * Once the required fields are present, building the document fails
   * exactly when the category id is malformed or Policy or NeedToKnow is
   * absent.
   */
  lemma PackageDocumentBuilt(req: PackageRequest, images: seq<ImageRecord>, now: nat)
    requires MissingFields(req) == []
    ensures PackageDocument(req, images, now).Some? <==>
              && IsValidObjectId(if req.CategoryId.CategoryText? then req.CategoryId.text else req.CategoryId.id)
              && req.Policy.Some? && req.NeedToKnow.Some?
  {
    NothingMissing(req);
  }

  /** The schema check on a document built from complete required fields. */
  lemma BuiltPackageValidity(cat: ObjectId, req: PackageRequest, policy: seq<string>, need: seq<string>, images: seq<ImageRecord>, now: nat)
    requires AllProvided(req)
    ensures ValidPackage(Package(cat, req.PackageName, req.PackageDesc, req.Price, req.DiscountPrice,
                                 req.PackageReview, req.Experience, req.Location,
                                 PolicyEntries(policy), NeedToKnowEntries(need), images, Timestamps(now, now))) <==>
              && (forall i | 0 <= i < |policy| :: policy[i] != "")
              && (forall i | 0 <= i < |need| :: need[i] != "")
              && (forall i | 0 <= i < |images| :: ValidImage(images[i]))
  {
  }

  /**
   * With every required field provided, a built document keeps the
   * request's fields and images, and the schema accepts it iff every policy
   * point, every need-to-know name and every image is complete.
   */
  lemma PackageDocumentValidity(req: PackageRequest, images: seq<ImageRecord>, now: nat)
    requires AllProvided(req)
    ensures PackageDocument(req, images, now).Some? ==>
              var p := PackageDocument(req, images, now).value;
              && p.CategoryId == ResolveCategoryId(req.CategoryId).value
              && p.PackageName == req.PackageName && p.PackageDesc == req.PackageDesc
              && p.Price == req.Price && p.DiscountPrice == req.DiscountPrice
              && p.PackageReview == req.PackageReview && p.Experience == req.Experience
              && p.Location == req.Location && p.Images == images
              && (ValidPackage(p) <==>
                    && (forall i | 0 <= i < |req.Policy.value| :: req.Policy.value[i] != "")
                    && (forall i | 0 <= i < |req.NeedToKnow.value| :: req.NeedToKnow.value[i] != "")
                    && (forall i | 0 <= i < |images| :: ValidImage(images[i])))
  {
    if PackageDocument(req, images, now).Some? {
      var cat := ResolveCategoryId(req.CategoryId).value;
      BuiltPackageValidity(cat, req, req.Policy.value, req.NeedToKnow.value, images, now);
    }
  }
}
