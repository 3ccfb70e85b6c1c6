# Occasions: a verified model of the handler logic

Occasions is an event marketplace built on Next.js and MongoDB. Around its
database calls sits a thin layer of logic, and this project models that
layer in Dafny and proves properties of it:

- the four document shapes (Packages, Categories, Inclusions, Users) and
  what their schemas require;
- an abstract document store, with one map from id to document per
  collection, and the route handlers that read and change it. These are
  category add and delete, package add, inclusion add and delete,
  register, admin and user login, the admin session check, and the public
  package listing;
- the contact form handler, with its field check, the mail it composes,
  and the verify-then-send sequence on an abstract transport;
- the string helpers inside the handlers: the file extension, the data-URL
  payload, generated upload names, the last URL segment, and the
  missing-field report;
- the client-side pieces: the contact-number check of the login modal, the
  list editors of the admin package form and the inclusion form, the
  home-page search, and the local login state of `useUserAuth`.

Modules follow the program's structure:

- `Schema` holds the document shapes.
- `ObjectIds` covers id validity and casting.
- `Text`, `Seqs` and `Uploads` hold the string and list helpers.
- `PackageAdd` holds the pure parts of the package handler.
- `PackageListing` holds query selection and flattening.
- `Auth` holds the login decisions, the session check and registration.
- `DocumentStore` holds the store class and its handlers.
- `Contact` is the contact form handler.
- `LoginModal`, `PackageForm`, `InclusionForm`, `HomeSearch` and
  `UserAuth` model the client components.

Each database handler is a method on `DocumentStore.Store`. It returns the
reply, together with the created document where the reply echoes one, and
its postcondition states the new store contents on every branch, including
"nothing else changes" on every error branch. The contact handler is the
module-level method `Contact.Submit`, which takes the mail transport
(`Contact.Transport`) as a parameter and changes only its sent mail. Stateful client components are classes whose fields
are the React state. Their methods are proved against pure functions, and
the lemmas are stated about those functions.

Inputs the code takes from its environment are parameters:

- the id the database assigns to a new document;
- the clock, and the `Date.now`/`Math.random` stamp of each upload;
- whether each file write or unlink succeeds;
- whether the database is reachable (`online`);
- bcrypt, as the functions `matches(password, hash)` and
  `hash(password, salt)` plus the salt;
- the mail transport's `verify` and `sendMail` outcomes;
- the data URLs the browser's `FileReader` produces;
- the sender and recipient mail addresses from the environment.

The upload directory is the ghost set `Store.uploads` of file names.

## Model

| member | source | states |
|---|---|---|
| Schema.ValidImage | lib/models/Packages.ts:3-20 | an image record needs a non-empty name, contentType and url; description is optional |
| Schema.ValidPackage | lib/models/Packages.ts:37-87 | every text field is required; each policy point and need-to-know name is non-empty; every image is complete; prices are strings and the three lists may be empty |
| Schema.ValidCategory | lib/models/Categories.ts:22-38 | CategoryName is required; Description and Image are optional, and a present image is complete |
| Schema.CategoryNamesUnique | lib/models/Categories.ts:23-27 | the unique index: no two stored categories share a name |
| Schema.ValidInclusion | lib/models/Inclusions.ts:3-17 | every point needs non-empty Point text; IconName is optional; PackageId is a list of ids |
| Schema.ValidUser | lib/models/Users.ts:3-16 | Username, Email, HashedPass, SaltPass and Type are required; there is no plain-text password field |
| Schema.UsersUnique | lib/models/Users.ts:5-9 | ContactNum, Username and Email are each unique across users |
| Schema.ImageUrl | app/api/admin/category/delete/route.ts:29 | the url is present iff an image is present and its url is non-empty, and it is that url |
| Schema.DeclaredListHidesImageUrl | lib/models/Categories.ts:32-35 | read through the declared list shape, a category image written as one record has no url, while the record itself has one |
| ObjectIds.ParseObjectId | app/api/admin/auth/check/route.ts:18-26 | the cast succeeds iff the text is a valid id, and the result equals the text ignoring case |
| ObjectIds.ParseCanonical | app/api/admin/auth/check/route.ts:26 | casting a stored id's text gives that id back |
| ObjectIds.ParseObjectIds | lib/models/Inclusions.ts:9-14 | a list of ids casts iff every element is valid, element by element and in order |
| Text.JoinSplit | app/api/admin/package/add/route.ts:47 | joining the pieces of a split with the separator gives the string back |
| Text.SplitSingleIffAbsent | app/api/admin/package/add/route.ts:47 | a split gives one piece iff the separator does not occur, and that piece is the whole string |
| Text.LastPieceIsSuffix | app/api/admin/package/add/route.ts:52 | the popped piece is a suffix of the string |
| Text.LastPieceExcludesSeparator | app/api/admin/package/add/route.ts:52 | the popped piece never contains the separator |
| Text.LastPieceAfterFinalSeparator | app/api/admin/category/delete/route.ts:31 | the popped piece is exactly the text after the final separator |
| Text.Trim | app/admin/packages/page.tsx:107 | `trim()` never lengthens the text; TrimShape states it is a substring with no white space at either end |
| Text.Split | app/api/admin/package/add/route.ts:47 | `split(sep)` always yields at least one piece (see JoinSplit and SplitSingleIffAbsent) |
| Text.TrimBlank | components/LoginModal.tsx:33 | a string trims to empty iff all of it is white space |
| Text.TrimShape | app/admin/packages/page.tsx:107 | the trimmed text is a substring of the input with no white space at either end |
| Text.TrimIdempotent | app/admin/packages/page.tsx:110 | trimming twice is trimming once |
| Text.ToLower | app/page.tsx:84-86 | lowering keeps the length and lowers each character |
| Text.ToLowerIdempotent | app/page.tsx:84-86 | lowering twice is lowering once |
| Text.DecimalRoundTrip | app/api/admin/package/add/route.ts:48 | the decimal digits rendered for a timestamp read back as that number |
| Seqs.DropIndexInRange | app/admin/packages/page.tsx:116-121 | filtering out an in-range index removes exactly that element and keeps the rest in order |
| Seqs.DropIndexOutOfRange | app/admin/packages/page.tsx:116-121 | filtering out an index out of range leaves the list unchanged |
| Seqs.FilterSomeSpec | app/api/admin/package/add/route.ts:75 | the null filter keeps exactly the present values, never more than the input, and all of them iff there were no nulls |
| Seqs.FilterSomeOrder | app/api/admin/package/add/route.ts:75 | the null filter keeps the relative order of the present values |
| Uploads.Extension | app/api/admin/package/add/route.ts:47 | `split('.').pop() \|\| 'jpg'` is never empty (see ExtensionShape) |
| Uploads.GeneratedFileName | app/api/admin/package/add/route.ts:48 | the name is `<kind>-<ts>-<rand>.<ext>`, with kind "package" or "category"; ExtensionShape, GeneratedFileNameHasNoSlash and GeneratedFileNameExtension state its shape |
| Uploads.Payload | app/api/admin/package/add/route.ts:52 | the payload is a suffix of the data URL that contains no ";base64," (see PayloadWithoutMarker and PayloadOfDataUrl) |
| Uploads.FileNameOfUrl | app/api/admin/category/delete/route.ts:31 | the unlinked name is a suffix of the url that contains no '/' (see FileNameOfUploadUrl) |
| Uploads.ExtensionShape | app/api/admin/package/add/route.ts:47 | the extension is never empty and never contains a dot |
| Uploads.ExtensionWithoutDot | app/api/admin/package/add/route.ts:47 | a name without a dot is its own extension; only the empty name gives "jpg" |
| Uploads.ExtensionAfterLastDot | app/api/admin/package/add/route.ts:47 | the extension is the text after the last dot, or "jpg" when that text is empty |
| Uploads.PayloadWithoutMarker | app/api/admin/package/add/route.ts:52 | a string without ";base64," is its own payload |
| Uploads.PayloadOfDataUrl | app/api/admin/package/add/route.ts:52 | the payload of an RFC 2397 base64 data URL is its data part |
| Uploads.GeneratedFileNameHasNoSlash | app/api/admin/package/add/route.ts:45-48 | a generated name has no '/' when the random part is base-36 and the extension has none |
| Uploads.FileNameOfUploadUrl | app/api/admin/category/delete/route.ts:31 | the last '/' segment of `/uploads/<name>` is the name |
| Uploads.GeneratedFileNameExtension | app/api/admin/package/add/route.ts:47-48 | a generated file name has the same extension as the uploaded name |
| PackageAdd.MissingFields | app/api/admin/package/add/route.ts:13-24 | the report lists the falsy required fields; its meaning is MissingFieldsSpec |
| PackageAdd.MissingAmongSpec | app/api/admin/package/add/route.ts:24 | the filter keeps exactly the unprovided fields, as a subsequence of the given order |
| PackageAdd.MissingFieldsSpec | app/api/admin/package/add/route.ts:13-24 | a field is reported iff it is one of the eight required names and is falsy, in declared order, DiscountPrice included; the report is empty iff every field is provided |
| PackageAdd.NothingMissing | app/api/admin/package/add/route.ts:25-30 | an empty report means all eight fields are provided |
| PackageAdd.ProcessImage | app/api/admin/package/add/route.ts:42-72 | an image is kept iff it has name and url, a non-empty payload, and its write succeeds; the kept record names the generated file, with url `/uploads/<name>`, the client's content type and description |
| PackageAdd.ProcessImages | app/api/admin/package/add/route.ts:42 | one outcome per uploaded image, the i-th from the i-th image with the i-th stamp |
| PackageAdd.ProcessImagesSnoc | app/api/admin/package/add/route.ts:42 | processing one more image appends its outcome |
| PackageAdd.ProcessedImageNamesItsFile | app/api/admin/package/add/route.ts:47-67 | the url of a kept record ends in its file name, and the name keeps the client's extension |
| PackageAdd.ProcessedImageValidity | app/api/admin/package/add/route.ts:62-67 | a kept record passes the schema iff the client sent a content type |
| PackageAdd.ResolveCategoryId | app/api/admin/package/add/route.ts:79 | the category id casts iff the `_id` of the object, or else the text itself, is a valid id |
| PackageAdd.PolicyEntries | app/api/admin/package/add/route.ts:87-89 | the policy list keeps its length and order, holding only each `point` |
| PackageAdd.NeedToKnowEntries | app/api/admin/package/add/route.ts:90-92 | the need-to-know list keeps its length and order, holding only each `name` |
| PackageAdd.PackageDocumentBuilt | app/api/admin/package/add/route.ts:78-94 | with all required fields present, the document is built iff the category id is valid and Policy and NeedToKnow are present |
| PackageAdd.BuiltPackageValidity | lib/models/Packages.ts:37-87 | a document built from complete required fields passes the schema iff every list entry is complete |
| PackageAdd.PackageDocument | app/api/admin/package/add/route.ts:78-94 | a document is built iff the category id casts and Policy and NeedToKnow are present; it holds that id, the mapped policy and need-to-know lists and the kept images |
| PackageAdd.PackageDocumentValidity | app/api/admin/package/add/route.ts:78-96 | with every required field provided, a built document holds the cast category id and the request's PackageName, PackageDesc, Price, DiscountPrice, PackageReview, Experience, Location and images unchanged, and creation accepts it iff every policy point, need-to-know name and image is complete |
| PackageListing.QueryFor | app/api/packages/route.ts:8-17 | the filters `findOne` may lead to: every package for no parameter, '' or 'all'; otherwise the id of a category stored under exactly that name, or every package when there is none (see QueryForStoredName and QueryForUnknownName) |
| PackageListing.Listing | app/api/packages/route.ts:20-34 | never more entries than stored packages; ListingAll, ListingMembers and ListingKeepsOrder state which ones |
| PackageListing.CoverImage | app/api/packages/route.ts:30 | the cover is never empty; it is the first image's url when that is non-empty, and '/placeholder.jpg' otherwise |
| PackageListing.ListingAll | app/api/packages/route.ts:20-34 | with no filter, one flattened entry per stored package, in natural order |
| PackageListing.ListingMembers | app/api/packages/route.ts:20-34 | every listed entry is a flattened stored package the query selects, and every selected package is listed |
| PackageListing.ListingKeepsOrder | app/api/packages/route.ts:20-23 | a filtered listing is a subsequence of the full listing |
| PackageListing.QueryForStoredName | app/api/packages/route.ts:11-16 | with unique names, a stored name (case-sensitive) selects exactly that category's id |
| PackageListing.QueryForUnknownName | app/api/packages/route.ts:13-17 | an unknown name falls back to listing every package |
| Auth.FindByEmail | app/api/admin/auth/login/route.ts:19 | the lookup finds a user iff one has that email, and returns that user and its id |
| Auth.AdminLoginDecision | app/api/admin/auth/login/route.ts:19-68 | 404 iff no user; for a known user a missing password makes `bcrypt.compare` throw, giving the 500 `{ message: error }` reply; 400 iff the password does not match (whatever the type), 200 iff it matches and the type equals the stored one, otherwise 401; cookie and output only on 200, and the cookie is `admin-token` with the user's id, httpOnly, path '/', maxAge 86400 |
| Auth.UserLoginDecision | app/api/user/auth/login/route.ts:21-52 | no response at all iff no user has the email; for a known user the 500 `{ message: error }` reply iff the password is missing; never a cookie |
| Auth.UserLoginAgreesWithAdminLogin | app/api/user/auth/login/route.ts:22-44 | for a known email both logins reach the same status and output, and the same reply except the 400 text |
| Auth.AuthCheck | app/api/admin/auth/check/route.ts:8-53 | every result is 200 or 401; 200 iff a token is present, the store is reachable, the token is a valid id, and that user exists with Type "admin"; the reported user is that one |
| Auth.SessionCookieChecksType | app/api/admin/auth/check/route.ts:25-45 | the cookie of a successful admin login passes the check iff the user's stored type is "admin", and it reports that user |
| Auth.RegisteredUser | app/api/admin/auth/register/route.ts:31-42 | for a given password, the stored user holds hash(Password, salt) and the salt, never the password |
| Auth.RegisteredUserLogsIn | app/api/admin/auth/register/route.ts:35-42 | a registered user logs in as admin with the password and type registered, and gets a cookie with their id |
| DocumentStore.CategoryImageData | app/api/admin/category/add/route.ts:33-74 | an image record exists iff an image with base64Data, a name and a non-empty payload was given and its write succeeded; it names `category-<ts>-<rand>.<ext>` with url `/uploads/<name>` |
| DocumentStore.InsertCategoryKeepsNamesUnique | app/api/admin/category/add/route.ts:22-81 | inserting a complete category whose name no stored category has, ignoring case, keeps names unique, documents valid, and names distinct ignoring case |
| DocumentStore.ImageFileToRemove | app/api/admin/category/delete/route.ts:29-34 | a file is unlinked only when the image url is present, and it is the url's last '/' segment |
| DocumentStore.CategoryImageRemovedOnDelete | app/api/admin/category/delete/route.ts:29-34 | the file a category image was written to is the one its deletion unlinks |
| DocumentStore.DeclaredListKeepsImageFile | app/api/admin/category/delete/route.ts:29 | read through the declared list shape, deleting a category with an image unlinks nothing, although the record names its file |
| DocumentStore.NewInclusion | app/api/admin/inclusions/add/route.ts:6-11 | the document is built iff every package id casts; its ids are the cast of the given ids, in order, the points are stored exactly as given, and absent lists become empty |
| DocumentStore.AppendKeepsOrder | app/api/admin/package/add/route.ts:96 | appending a new id keeps the natural order listing every stored package exactly once |
| DocumentStore.ProcessUploads | app/api/admin/package/add/route.ts:42-72 | the image loop yields, in place, each image's outcome from its own stamp |
| DocumentStore.Store.constructor | lib/models/Packages.ts:37-87 | an empty store satisfies every schema and index that `Valid()` collects: the package schema cited here and the category, inclusion and user schemas of lib/models/Categories.ts, Inclusions.ts and Users.ts, with their unique indexes |
| DocumentStore.Store.AddCategory | app/api/admin/category/add/route.ts:17-98 | a name taken ignoring case gives 400 with nothing changed; otherwise the image is written when possible and the category is created with it (or with none, and Description defaulted) with 201, and the reply's `category` is the stored document; any failure is 500 and leaves the categories unchanged |
| DocumentStore.Store.InsertCategory | app/api/admin/category/add/route.ts:77-81 | creating a complete category under an unused id whose name is not taken adds exactly that category and keeps every schema and index valid |
| DocumentStore.Store.DeleteCategory | app/api/admin/category/delete/route.ts:6-58 | no id gives 400 before any lookup; an unknown id gives 404 with nothing changed; otherwise the image file is unlinked when possible and exactly that category is removed, with 200; a malformed id or an unreachable store gives 500 |
| DocumentStore.Store.WriteUploads | app/api/admin/package/add/route.ts:59 | the written files join the upload directory and nothing else changes |
| DocumentStore.Store.AddPackage | app/api/admin/package/add/route.ts:7-113 | missing fields give 400 with the report and no file or record written; otherwise kept images' files are written and the package is created with them, in order, with 200 and the stored package echoed, or 500 with no record |
| DocumentStore.Store.CreatePackage | app/api/admin/package/add/route.ts:96-112 | creation succeeds iff the document is built, accepted and its id unused; the new id is appended to the natural order, and the echoed package is the stored one |
| DocumentStore.Store.ListPackages | app/api/packages/route.ts:5-45 | the reply lists, in natural order, exactly the packages of the query the category parameter selects; an unreachable store gives 500 'Failed to fetch packages' |
| DocumentStore.Store.AddInclusion | app/api/admin/inclusions/add/route.ts:4-24 | an unconditional insert of the given ids and points with 201, echoing the stored inclusion, with no duplicate check; any failure is 500 "Failed to add inclusion" with nothing changed |
| DocumentStore.Store.DeleteInclusion | app/api/admin/inclusions/delete/route.ts:4-32 | no id gives 400; an unknown id gives 404 with nothing changed; otherwise exactly that inclusion is removed with 200; the id is then absent, so deleting it again is 404 |
| DocumentStore.Store.Register | app/api/admin/auth/register/route.ts:14-60 | a taken ContactNum gives 401 and inserts nothing; a missing password then makes `bcrypt.hash` throw (500, nothing inserted); otherwise the hashed user is inserted with 201 and echoed as `output`, unless the document is refused or the Username or Email is taken (500) |
| DocumentStore.Store.AdminLogin | app/api/admin/auth/login/route.ts:12-69 | the admin login decision on the user found by email, including its 500 for a missing password; 404 iff no user has the email; an unreachable store gives 500 |
| DocumentStore.Store.UserLogin | app/api/user/auth/login/route.ts:12-53 | the user login decision on the user found by email, including its 500 for a missing password; no response iff no user has the email; an unreachable store gives 500 |
| DocumentStore.Store.CheckSession | app/api/admin/auth/check/route.ts:5-54 | the session check on the cookie's token, which never answers 500 |
| Contact.ComposeMail | app/api/contact/route.ts:22-36 | the mail goes from the configured sender to the administrator, replies go to the submitter, the subject is the prefix plus the name, and the body carries every field |
| Contact.MailBodyMentionsEveryField | app/api/contact/route.ts:27-35 | the HTML body contains the name, email, phone and message |
| Contact.Transport.constructor | lib/nodemailer.ts:7-20 | a transport whose `verify` and `sendMail` outcomes are given, with no mail sent yet |
| Contact.Submit | app/api/contact/route.ts:4-60 | a missing field gives 400 with no mail; the mail goes out only after verify succeeds, and only a successful send gives 200, appending exactly that mail; a failed verify or send gives 500 |
| LoginModal.Validate | components/LoginModal.tsx:29-46 | blank input gives 'Contact number is required'; otherwise the untrimmed text is accepted iff it is exactly ten digits |
| LoginModal.PaddedNumberRefused | components/LoginModal.tsx:38-41 | ten digits with white space around them get the format error, because the format test is on the untrimmed text |
| LoginModal.Modal.constructor | components/LoginModal.tsx:12-13 | the modal opens with an empty input, no error and no login yet |
| LoginModal.Modal.Submit | components/LoginModal.tsx:29-46 | a refused number sets the error and keeps the input; an accepted one is passed to onLogin once, unchanged, and the input and error are cleared |
| LoginModal.Modal.Change | components/LoginModal.tsx:80-83 | editing replaces the input and clears the error |
| PackageForm.RefusalText | app/admin/packages/page.tsx:181-204 | the error shown is the reply's message, or 'Failed to add package' when it has none |
| PackageForm.SubmitPayload | app/admin/packages/page.tsx:154-177 | the body carries all seven text fields of the draft unchanged, the category object, both lists, and one upload per chosen file, in order |
| PackageForm.TrimmedTextIsFixed | app/admin/packages/page.tsx:107-110 | a list entry, non-empty with no space at either end, is exactly a non-empty text that trimming leaves unchanged |
| PackageForm.DropKeepsPolicyTrimmed | app/admin/packages/page.tsx:116-121 | removing a policy by index keeps every remaining entry trimmed and non-empty |
| PackageForm.DropKeepsNeedToKnowTrimmed | app/admin/packages/page.tsx:133-138 | removing a need-to-know entry keeps every remaining one trimmed and non-empty |
| PackageForm.PayloadNeverMissesCategory | app/admin/packages/page.tsx:47-59 | the form always sends a category object, so the handler never reports CategoryId missing |
| PackageForm.ResetFormReportsTextFields | app/admin/packages/page.tsx:186-198 | the reset form resubmitted is refused for the seven text fields, in declared order |
| PackageForm.UnselectedCategoryUnresolved | app/admin/packages/page.tsx:225-228 | a form with no category chosen sends `{}`, whose id does not cast |
| PackageForm.StoredListsFollowForm | app/admin/packages/page.tsx:106-138 | the package the handler builds holds the form's policy and need-to-know lists unchanged, and entries added through the form are non-empty |
| PackageForm.Form.constructor | app/admin/packages/page.tsx:47-61 | the form opens with the empty draft, no category, empty lists, inputs and images, and no error |
| PackageForm.Form.EditDraft | app/admin/packages/page.tsx:250-335 | a text input replaces the draft and changes nothing else |
| PackageForm.Form.EditPolicyText | app/admin/packages/page.tsx:384 | typing replaces the policy input only |
| PackageForm.Form.EditNeedToKnowText | app/admin/packages/page.tsx:421 | typing replaces the need-to-know input only |
| PackageForm.Form.AddPolicy | app/admin/packages/page.tsx:106-114 | a non-blank input is appended trimmed and cleared; a blank one changes nothing |
| PackageForm.Form.RemovePolicy | app/admin/packages/page.tsx:116-121 | only the entry at the index is removed, in order; out of range nothing is |
| PackageForm.Form.AddNeedToKnow | app/admin/packages/page.tsx:123-131 | the same as AddPolicy, on the need-to-know list |
| PackageForm.Form.RemoveNeedToKnow | app/admin/packages/page.tsx:133-138 | the same as RemovePolicy, on the need-to-know list |
| PackageForm.Form.ChooseImage | app/admin/packages/page.tsx:99-104 | the first chosen file, if any, is appended |
| PackageForm.Form.RemoveImage | app/admin/packages/page.tsx:364 | only the file at the index is removed |
| PackageForm.Form.Payload | app/admin/packages/page.tsx:154-177 | the body posted from the current form, one upload per chosen file |
| PackageForm.Form.SubmitFinished | app/admin/packages/page.tsx:179-207 | success resets the draft, both lists and the chosen images, but not the entry inputs; a refusal sets the error and keeps everything else |
| InclusionForm.PayloadPoint | components/AddInclusionForm.tsx:67-70 | an empty IconName becomes absent, and Point passes unchanged |
| InclusionForm.SubmitPayload | components/AddInclusionForm.tsx:54-72 | nothing is sent iff no package is selected; otherwise the body holds the package and the points in order |
| InclusionForm.StoredInclusionFollowsForm | components/AddInclusionForm.tsx:65-70 | the stored inclusion holds the form's points in order, and is accepted iff no Point text is blank |
| InclusionForm.InitialFormIsRefused | components/AddInclusionForm.tsx:22 | the opening form's single blank point cannot be stored |
| InclusionForm.RemoveControlKeepsAPoint | components/AddInclusionForm.tsx:152-155 | removing through the rendered control never leaves the form without a point |
| InclusionForm.Form.constructor | components/AddInclusionForm.tsx:21-22 | the form opens with no package and exactly one blank point |
| InclusionForm.Form.SelectPackage | components/AddInclusionForm.tsx:103 | choosing a package sets the selection and keeps the points |
| InclusionForm.Form.AddPoint | components/AddInclusionForm.tsx:40-42 | a blank point is appended and the others are unchanged |
| InclusionForm.Form.RemovePoint | components/AddInclusionForm.tsx:44-46 | only the point at the index is removed, in order |
| InclusionForm.Form.ChangePoint | components/AddInclusionForm.tsx:48-52 | only the named field of the point at the index changes |
| InclusionForm.Form.Submit | components/AddInclusionForm.tsx:54-72 | the body sent is SubmitPayload of the current form: nothing iff no package is selected; the form is not changed |
| HomeSearch.FilterPackages | app/page.tsx:83-87 | the search never lengthens the list; FilterMembers and FilterKeepsOrder state which packages remain |
| HomeSearch.FilterMembers | app/page.tsx:83-87 | a package is kept iff it is listed and the lowered query occurs in its lowered name, description or category name |
| HomeSearch.FilterKeepsOrder | app/page.tsx:83 | the result is an order-preserving subsequence of the packages |
| HomeSearch.EmptyQueryKeepsAll | app/page.tsx:83-87 | the empty query keeps every package |
| HomeSearch.FilterIgnoresQueryCase | app/page.tsx:84-86 | lowering the query first changes nothing |
| HomeSearch.OverlayIsFilter | app/page.tsx:215 | the overlay's list is always the filtered list |
| HomeSearch.NoResultsIffNothingMatches | app/page.tsx:208 | "No packages found" is shown iff a non-empty query matches no package |
| UserAuth.Mount | hooks/useUserAuth.ts:10-24 | with no stored number away from '/', the hook redirects home and shows the modal; on '/' nothing changes; with a number it authenticates and hides the modal; storage is only read |
| UserAuth.Login | hooks/useUserAuth.ts:26-30 | the number is stored under 'contactNumber', the user is authenticated and the modal hidden |
| UserAuth.Logout | hooks/useUserAuth.ts:32-36 | the key is removed, other keys are kept, the user is not authenticated, and the path is '/' |
| UserAuth.MountIdempotent | hooks/useUserAuth.ts:10-24 | re-running the mount effect changes nothing more |
| UserAuth.LoginSurvivesMount | hooks/useUserAuth.ts:20-30 | after a login with a non-empty number, the mount effect changes nothing |
| UserAuth.ModalLoginSurvivesMount | components/LoginModal.tsx:38-43 | a number the modal accepts keeps the user authenticated, with the modal hidden, after remounting |
| UserAuth.EmptyLoginAsksAgain | hooks/useUserAuth.ts:14-18 | a stored empty number is falsy, so away from '/' the next mount asks again |
| UserAuth.LogoutThenMount | hooks/useUserAuth.ts:10-36 | after logout the mount effect changes nothing, and the user stays logged out |
| UserAuth.LogoutUndoesLogin | hooks/useUserAuth.ts:26-36 | logout removes what login wrote and keeps every other key with its value |
| UserAuth.Hook.constructor | hooks/useUserAuth.ts:7-8 | the hook starts unauthenticated with the modal hidden, on the given path and storage |
| UserAuth.Hook.MountEffect | hooks/useUserAuth.ts:10-24 | the hook's new state is the mount function of its old state |
| UserAuth.Hook.LoginWith | hooks/useUserAuth.ts:26-30 | the hook's new state is the login function of its old state |
| UserAuth.Hook.LogoutNow | hooks/useUserAuth.ts:32-36 | the hook's new state is the logout function of its old state |

## Left out

- Concurrency is not modelled. Each handler runs as one atomic step on the store, so the check-then-insert races in category add and register are outside the model.
- DocumentStore.NameTakenIgnoringCase: the duplicate check builds a regular expression from the raw name. It is modelled as ASCII case-insensitive equality, so regex metacharacters and an invalid pattern (which throws, giving 500) are not modelled.
- Text.ToLower lowers ASCII letters only; Unicode case mapping is not modelled.
- ObjectIds.IsValidObjectId accepts 24 hexadecimal digits only. The 12-character form the driver also accepts is not modelled.
- Bodies that are not JSON are modelled only for the contact form. For every other handler, parsing throws and gives a 500, and that path is not modelled.
- Request fields are strings, with "" standing for absent, null or empty. The exception is `Password` in register and both logins, which is an `Option`, because bcrypt throws on an absent password. Non-string values, and a ContactNum that is absent or not a number, are not modelled.
- For a `{ message: error }` reply (register, both logins), the 500 body is written `Http.Thrown()` with empty text. The serialized exception is not modelled.
- DocumentStore.Store.AddPackage: the constant `success: true` of the 200 reply is not a field of `Http.Reply`; it accompanies exactly the replies that come with a created package.
- DocumentStore.Store.AddPackage: the 500 body carries the exception's own message in the source. The model gives its fallback text "Failed to add package" for every failure.
- DocumentStore.Store.AddPackage: files are written one by one in the source, so a write that throws late leaves earlier files behind. The model adds all written files at the end of the step, so the state between writes is not modelled.
- An absent `CategoryName` in a category request builds the pattern `^undefined$`. That case is not modelled.
- The user login handler returns nothing when no user matches, and Next.js then answers with an error of its own. The model stops at "no response" (`None`).
- `mkdir` of the upload directory is not modelled; its failure is swallowed in the source.
- Base64 decoding (RFC 4648) is not modelled. A non-empty payload is what makes a write happen.
- Uploads.GeneratedFileNameHasNoSlash and the lemmas that use it require the client's extension to have no '/'. A name such as `a.x/../../y` would put the write outside the upload directory, and that path is not modelled.
- InclusionForm.Form.ChangePoint requires an index in range. In JavaScript an index past the end extends the array; the form only passes the index of a rendered point.
- The browser's `maxLength={10}` on the login input, the modal's open and close animation, toasts, the `loading` flags, page rendering and the packages re-fetch after a successful submit are not modelled.
- `findOne({ Email: undefined })` for a login body without Email is modelled as a lookup of the empty email.
- Schema.Category holds `Image` as an optional single record, as the handlers write and read it. The schema declares a list; see Findings.
- PackageListing.ListedPackage carries the fields the listing renames. `_id` is carried as the id, and the `lean()` document shapes are not modelled further.
- HomeSearch.ShownPackage holds the category's name as a string. A package whose category was deleted (so `CategoryId` populates to null, and the filter throws) is not modelled.

## Findings

| source | as written | input that shows it | evidently intended | confidence | as-written member | corrected member |
|---|---|---|---|---|---|---|
| lib/models/Categories.ts:32-35 with app/api/admin/category/delete/route.ts:29 | `Image` is declared as a list of image records, so the one record category add writes is stored as a one-element list. The delete handler then reads `category.Image?.url`, which is undefined on a list, so the image file is never unlinked. | a category created with any image, then deleted | delete removes the category's image file | not executed | Schema.DeclaredListHidesImageUrl, DocumentStore.DeclaredListKeepsImageFile | DocumentStore.CategoryImageRemovedOnDelete, used through DocumentStore.ImageFileToRemove by DocumentStore.Store.DeleteCategory |
