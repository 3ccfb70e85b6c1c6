/**
 * The admin package page's form: the policy, need-to-know and image lists
 * it edits, the request body its submit sends to the "add package" handler,
 * and how the form is reset or marked after the reply. Reading a file as a
 * data URL is a parameter.
 */
module PackageForm {
  import opened Wrappers
  import opened Text
  import opened Seqs
  import opened Schema
  import PackageAdd

  /** A file chosen in the image input. */
  datatype ChosenFile = ChosenFile(name: string, fileType: string)

  /**
   * The text fields of `newPackage`. `categoryId` is the `_id` of the
   * selected category object, "" for the initial `{}`.
   */
  datatype Draft = Draft(categoryId: string, PackageName: string, PackageDesc: string, Price: string,
                         DiscountPrice: string, PackageReview: string, Experience: string, Location: string)

  const EmptyDraft: Draft := Draft("", "", "", "", "", "", "", "")

  /** How the request ended: accepted, or refused with the reply's `message` ("" when it has none). */
  datatype SubmitOutcome = Accepted | Refused(message: string)

  const FallbackError: string := "Failed to add package"

  /** `data.message || 'Failed to add package'`. */
  function RefusalText(message: string): (r: string)
    ensures r != ""
    ensures message != "" ==> r == message
    ensures message == "" ==> r == FallbackError
  {
    if message != "" then message else FallbackError
  }

  /** A list entry as the add handlers store it: non-empty and already trimmed. */
  predicate IsTrimmedText(s: string) {
    s != "" && !IsSpace(s[0]) && !IsSpace(s[|s| - 1])
  }

  predicate PolicyTrimmed(policy: seq<PolicyEntry>) {
    forall i | 0 <= i < |policy| :: IsTrimmedText(policy[i].point)
  }

  predicate NeedToKnowTrimmed(needToKnow: seq<NeedToKnowEntry>) {
    forall i | 0 <= i < |needToKnow| :: IsTrimmedText(needToKnow[i].name)
  }

  /** The policy points in order. */
  function Points(policy: seq<PolicyEntry>): (r: seq<string>)
    ensures |r| == |policy| && forall i | 0 <= i < |policy| :: r[i] == policy[i].point
  {
    seq(|policy|, i requires 0 <= i < |policy| => policy[i].point)
  }

  /** The need-to-know names in order. */
  function Names(needToKnow: seq<NeedToKnowEntry>): (r: seq<string>)
    ensures |r| == |needToKnow| && forall i | 0 <= i < |needToKnow| :: r[i] == needToKnow[i].name
  {
    seq(|needToKnow|, i requires 0 <= i < |needToKnow| => needToKnow[i].name)
  }

  /** One element of `images`: the file's name and type, its data URL, and an empty description. */
  function UploadOf(file: ChosenFile, dataUrl: string): (r: PackageAdd.ImageUpload)
    ensures r.name == Some(file.name) && r.contentType == file.fileType
    ensures r.url == Some(dataUrl) && r.description == ""
  {
    PackageAdd.ImageUpload(Some(file.name), file.fileType, "", Some(dataUrl))
  }

  /**
   * The JSON body `handleSubmit` posts: the draft with the category object,
   * the two lists, and one upload per chosen file, in order, the i-th with
   * the i-th data URL.
   */
  function SubmitPayload(draft: Draft, policy: seq<PolicyEntry>, needToKnow: seq<NeedToKnowEntry>,
                         files: seq<ChosenFile>, dataUrls: seq<string>): (r: PackageAdd.PackageRequest)
    requires |dataUrls| == |files|
    ensures r.CategoryId == PackageAdd.CategoryObject(draft.categoryId)
    ensures r.PackageName == draft.PackageName && r.PackageDesc == draft.PackageDesc
    ensures r.Price == draft.Price && r.DiscountPrice == draft.DiscountPrice
    ensures r.PackageReview == draft.PackageReview && r.Experience == draft.Experience
    ensures r.Location == draft.Location
    ensures r.Policy == Some(Points(policy)) && r.NeedToKnow == Some(Names(needToKnow))
    ensures r.Images.Some? && |r.Images.value| == |files|
    ensures forall i | 0 <= i < |files| :: r.Images.value[i] == UploadOf(files[i], dataUrls[i])
  {
    PackageAdd.PackageRequest(
      PackageAdd.CategoryObject(draft.categoryId), draft.PackageName, draft.PackageDesc, draft.Price,
      draft.DiscountPrice, draft.PackageReview, draft.Experience, draft.Location,
      Some(Points(policy)), Some(Names(needToKnow)),
      Some(seq(|files|, i requires 0 <= i < |files| => UploadOf(files[i], dataUrls[i]))))
  }

  // ---------------------------------------------------------------------------
  // Properties
  // ---------------------------------------------------------------------------

  /** Trimming an entry that is not blank gives the trimmed text the lists hold. */
  lemma TrimmedEntry(text: string)
    requires Trim(text) != ""
    ensures IsTrimmedText(Trim(text))
  {
    TrimShape(text);
  }

  /** A list entry is exactly a non-empty text that trimming leaves unchanged. */
  lemma TrimmedTextIsFixed(s: string)
    ensures IsTrimmedText(s) <==> s != "" && Trim(s) == s
  {
    TrimShape(s);
    if IsTrimmedText(s) {
      assert TrimStart(s) == s;
      assert TrimEnd(s) == s;
    }
  }

  /** Dropping an index keeps every remaining entry trimmed. */
  lemma DropKeepsPolicyTrimmed(policy: seq<PolicyEntry>, index: int)
    requires PolicyTrimmed(policy)
    ensures PolicyTrimmed(DropIndex(policy, index))
  {
    if 0 <= index < |policy| {
      DropIndexInRange(policy, index);
      var rest := DropIndex(policy, index);
      forall i | 0 <= i < |rest| ensures IsTrimmedText(rest[i].point) {
        DropIndexAt(policy, index, i);
        var k := if i < index then i else i + 1;
        assert rest[i] == policy[k];
      }
    } else {
      DropIndexOutOfRange(policy, index);
    }
  }

  lemma DropKeepsNeedToKnowTrimmed(needToKnow: seq<NeedToKnowEntry>, index: int)
    requires NeedToKnowTrimmed(needToKnow)
    ensures NeedToKnowTrimmed(DropIndex(needToKnow, index))
  {
    if 0 <= index < |needToKnow| {
      DropIndexInRange(needToKnow, index);
      var rest := DropIndex(needToKnow, index);
      forall i | 0 <= i < |rest| ensures IsTrimmedText(rest[i].name) {
        DropIndexAt(needToKnow, index, i);
        var k := if i < index then i else i + 1;
        assert rest[i] == needToKnow[k];
      }
    } else {
      DropIndexOutOfRange(needToKnow, index);
    }
  }

  /** Appending a trimmed entry keeps the list trimmed. */
  lemma AppendKeepsPolicyTrimmed(policy: seq<PolicyEntry>, entry: PolicyEntry)
    requires PolicyTrimmed(policy) && IsTrimmedText(entry.point)
    ensures PolicyTrimmed(policy + [entry])
  {
    var grown := policy + [entry];
    forall i | 0 <= i < |grown| ensures IsTrimmedText(grown[i].point) {
      if i < |policy| {
        assert grown[i] == policy[i];
      }
    }
  }

  lemma AppendKeepsNeedToKnowTrimmed(needToKnow: seq<NeedToKnowEntry>, entry: NeedToKnowEntry)
    requires NeedToKnowTrimmed(needToKnow) && IsTrimmedText(entry.name)
    ensures NeedToKnowTrimmed(needToKnow + [entry])
  {
    var grown := needToKnow + [entry];
    forall i | 0 <= i < |grown| ensures IsTrimmedText(grown[i].name) {
      if i < |needToKnow| {
        assert grown[i] == needToKnow[i];
      }
    }
  }

  /** The form always sends a category object, so the handler never reports CategoryId missing. */
  lemma PayloadNeverMissesCategory(draft: Draft, policy: seq<PolicyEntry>, needToKnow: seq<NeedToKnowEntry>,
                                   files: seq<ChosenFile>, dataUrls: seq<string>)
    requires |dataUrls| == |files|
    ensures "CategoryId" !in PackageAdd.MissingFields(SubmitPayload(draft, policy, needToKnow, files, dataUrls))
  {
    PackageAdd.MissingFieldsSpec(SubmitPayload(draft, policy, needToKnow, files, dataUrls));
  }

  /**
   * The reset form submitted again is refused with 400 for the seven text
   * fields, in declared order; the empty category object passes the
   * presence check.
   */
  lemma ResetFormReportsTextFields()
    ensures PackageAdd.MissingFields(SubmitPayload(EmptyDraft, [], [], [], [])) ==
              ["PackageName", "PackageDesc", "Price", "DiscountPrice", "PackageReview", "Experience", "Location"]
  {
  }

  /** A form submitted without choosing a category passes the presence check but names no valid id. */
  lemma UnselectedCategoryUnresolved(draft: Draft, policy: seq<PolicyEntry>, needToKnow: seq<NeedToKnowEntry>,
                                     files: seq<ChosenFile>, dataUrls: seq<string>)
    requires |dataUrls| == |files| && draft.categoryId == ""
    ensures PackageAdd.ResolveCategoryId(SubmitPayload(draft, policy, needToKnow, files, dataUrls).CategoryId).None?
  {
  }

  /**
   * The package the handler builds from the form keeps its policy and
   * need-to-know lists as they are, and entries made through the form
   * never make the schema refuse those lists.
   */
  lemma StoredListsFollowForm(draft: Draft, policy: seq<PolicyEntry>, needToKnow: seq<NeedToKnowEntry>,
                              files: seq<ChosenFile>, dataUrls: seq<string>, images: seq<ImageRecord>, now: nat)
    requires |dataUrls| == |files|
    ensures var doc := PackageAdd.PackageDocument(SubmitPayload(draft, policy, needToKnow, files, dataUrls), images, now);
            doc.Some? ==> doc.value.Policy == policy && doc.value.NeedToKnow == needToKnow
    ensures PolicyTrimmed(policy) ==> forall i | 0 <= i < |Points(policy)| :: Points(policy)[i] != ""
    ensures NeedToKnowTrimmed(needToKnow) ==> forall i | 0 <= i < |Names(needToKnow)| :: Names(needToKnow)[i] != ""
  {
    var req := SubmitPayload(draft, policy, needToKnow, files, dataUrls);
    var doc := PackageAdd.PackageDocument(req, images, now);
    if doc.Some? {
      assert doc.value.Policy == PackageAdd.PolicyEntries(Points(policy));
      assert doc.value.Policy == policy;
      assert doc.value.NeedToKnow == PackageAdd.NeedToKnowEntries(Names(needToKnow));
      assert doc.value.NeedToKnow == needToKnow;
    }
  }

  /** The page's form state. */
  class Form {
    var draft: Draft
    var policy: seq<PolicyEntry>
    var needToKnow: seq<NeedToKnowEntry>
    var currentPolicy: string
    var currentNeedToKnow: string
    var selectedImages: seq<ChosenFile>
    var error: string

    /** Every list entry was added through the add handlers. */
    predicate Valid()
      reads this
    {
      PolicyTrimmed(policy) && NeedToKnowTrimmed(needToKnow)
    }

    constructor()
      ensures Valid()
      ensures draft == EmptyDraft && policy == [] && needToKnow == [] && selectedImages == []
      ensures currentPolicy == "" && currentNeedToKnow == "" && error == ""
    {
      draft, policy, needToKnow := EmptyDraft, [], [];
      currentPolicy, currentNeedToKnow, selectedImages, error := "", "", [], "";
    }

    /** The text fields' `onChange`: the draft is replaced, nothing else changes. */
    method EditDraft(d: Draft)
      modifies this
      ensures draft == d && policy == old(policy) && needToKnow == old(needToKnow)
      ensures currentPolicy == old(currentPolicy) && currentNeedToKnow == old(currentNeedToKnow)
      ensures selectedImages == old(selectedImages) && error == old(error)
    {
      draft := d;
    }

    /** The policy input's `onChange`. */
    method EditPolicyText(text: string)
      modifies this
      ensures currentPolicy == text && currentNeedToKnow == old(currentNeedToKnow)
      ensures draft == old(draft) && policy == old(policy) && needToKnow == old(needToKnow)
      ensures selectedImages == old(selectedImages) && error == old(error)
    {
      currentPolicy := text;
    }

    /** The need-to-know input's `onChange`. */
    method EditNeedToKnowText(text: string)
      modifies this
      ensures currentNeedToKnow == text && currentPolicy == old(currentPolicy)
      ensures draft == old(draft) && policy == old(policy) && needToKnow == old(needToKnow)
      ensures selectedImages == old(selectedImages) && error == old(error)
    {
      currentNeedToKnow := text;
    }

    /**
     * `handleAddPolicy`: a non-blank text is appended trimmed and the input
     * cleared; a blank one changes nothing at all.
     */
    method AddPolicy()
      requires Valid()
      modifies this
      ensures Valid()
      ensures Trim(old(currentPolicy)) != "" ==>
                policy == old(policy) + [PolicyEntry(Trim(old(currentPolicy)))] && currentPolicy == ""
      ensures Trim(old(currentPolicy)) == "" ==> policy == old(policy) && currentPolicy == old(currentPolicy)
      ensures draft == old(draft) && needToKnow == old(needToKnow) && currentNeedToKnow == old(currentNeedToKnow)
      ensures selectedImages == old(selectedImages) && error == old(error)
    {
      var text := Trim(currentPolicy);
      if text != "" {
        TrimmedEntry(currentPolicy);
        AppendKeepsPolicyTrimmed(policy, PolicyEntry(text));
        policy := policy + [PolicyEntry(text)];
        currentPolicy := "";
      }
    }

    /** `handleRemovePolicy`: only the entry at `index` goes; out of range nothing does. */
    method RemovePolicy(index: int)
      requires Valid()
      modifies this
      ensures Valid()
      ensures 0 <= index < |old(policy)| ==> policy == old(policy)[..index] + old(policy)[index + 1..]
      ensures !(0 <= index < |old(policy)|) ==> policy == old(policy)
      ensures draft == old(draft) && needToKnow == old(needToKnow)
      ensures currentPolicy == old(currentPolicy) && currentNeedToKnow == old(currentNeedToKnow)
      ensures selectedImages == old(selectedImages) && error == old(error)
    {
      if 0 <= index < |policy| {
        DropIndexInRange(policy, index);
      } else {
        DropIndexOutOfRange(policy, index);
      }
      DropKeepsPolicyTrimmed(policy, index);
      policy := DropIndex(policy, index);
    }

    /** `handleAddNeedToKnow`, the same as for policies on the other list. */
    method AddNeedToKnow()
      requires Valid()
      modifies this
      ensures Valid()
      ensures Trim(old(currentNeedToKnow)) != "" ==>
                needToKnow == old(needToKnow) + [NeedToKnowEntry(Trim(old(currentNeedToKnow)))] && currentNeedToKnow == ""
      ensures Trim(old(currentNeedToKnow)) == "" ==> needToKnow == old(needToKnow) && currentNeedToKnow == old(currentNeedToKnow)
      ensures draft == old(draft) && policy == old(policy) && currentPolicy == old(currentPolicy)
      ensures selectedImages == old(selectedImages) && error == old(error)
    {
      var text := Trim(currentNeedToKnow);
      if text != "" {
        TrimmedEntry(currentNeedToKnow);
        AppendKeepsNeedToKnowTrimmed(needToKnow, NeedToKnowEntry(text));
        needToKnow := needToKnow + [NeedToKnowEntry(text)];
        currentNeedToKnow := "";
      }
    }

    /** `handleRemoveNeedToKnow`. */
    method RemoveNeedToKnow(index: int)
      requires Valid()
      modifies this
      ensures Valid()
      ensures 0 <= index < |old(needToKnow)| ==> needToKnow == old(needToKnow)[..index] + old(needToKnow)[index + 1..]
      ensures !(0 <= index < |old(needToKnow)|) ==> needToKnow == old(needToKnow)
      ensures draft == old(draft) && policy == old(policy)
      ensures currentPolicy == old(currentPolicy) && currentNeedToKnow == old(currentNeedToKnow)
      ensures selectedImages == old(selectedImages) && error == old(error)
    {
      if 0 <= index < |needToKnow| {
        DropIndexInRange(needToKnow, index);
      } else {
        DropIndexOutOfRange(needToKnow, index);
      }
      DropKeepsNeedToKnowTrimmed(needToKnow, index);
      needToKnow := DropIndex(needToKnow, index);
    }

    /** `handleImageChange`: the first chosen file, if any, is appended. */
    method ChooseImage(file: Option<ChosenFile>)
      modifies this
      ensures file.Some? ==> selectedImages == old(selectedImages) + [file.value]
      ensures file.None? ==> selectedImages == old(selectedImages)
      ensures draft == old(draft) && policy == old(policy) && needToKnow == old(needToKnow)
      ensures currentPolicy == old(currentPolicy) && currentNeedToKnow == old(currentNeedToKnow) && error == old(error)
    {
      if file.Some? {
        selectedImages := selectedImages + [file.value];
      }
    }

    /** The remove button of a chosen image: only the file at `index` goes. */
    method RemoveImage(index: int)
      modifies this
      ensures 0 <= index < |old(selectedImages)| ==>
                selectedImages == old(selectedImages)[..index] + old(selectedImages)[index + 1..]
      ensures !(0 <= index < |old(selectedImages)|) ==> selectedImages == old(selectedImages)
      ensures draft == old(draft) && policy == old(policy) && needToKnow == old(needToKnow)
      ensures currentPolicy == old(currentPolicy) && currentNeedToKnow == old(currentNeedToKnow) && error == old(error)
    {
      if 0 <= index < |selectedImages| {
        DropIndexInRange(selectedImages, index);
      } else {
        DropIndexOutOfRange(selectedImages, index);
      }
      selectedImages := DropIndex(selectedImages, index);
    }

    /** The body `handleSubmit` posts, given each chosen file's data URL. The form is not changed. */
    method Payload(dataUrls: seq<string>) returns (req: PackageAdd.PackageRequest)
      requires |dataUrls| == |selectedImages|
      ensures req == SubmitPayload(draft, policy, needToKnow, selectedImages, dataUrls)
      ensures |req.Images.value| == |selectedImages|
    {
      req := SubmitPayload(draft, policy, needToKnow, selectedImages, dataUrls);
    }

    /**
     * The rest of `handleSubmit` once the reply is in: an accepted package
     * clears the draft, both lists and the chosen images (the two entry
     * inputs keep their text); a refusal sets the error and keeps
     * everything else.
     */
    method SubmitFinished(outcome: SubmitOutcome)
      requires Valid()
      modifies this
      ensures Valid()
      ensures currentPolicy == old(currentPolicy) && currentNeedToKnow == old(currentNeedToKnow)
      ensures outcome.Accepted? ==>
                && draft == EmptyDraft && policy == [] && needToKnow == [] && selectedImages == [] && error == ""
      ensures outcome.Refused? ==>
                && error == RefusalText(outcome.message)
                && draft == old(draft) && policy == old(policy) && needToKnow == old(needToKnow)
                && selectedImages == old(selectedImages)
    {
      error := "";
      if outcome.Refused? {
        error := if outcome.message != "" then outcome.message else FallbackError;
        return;
      }
      draft, policy, needToKnow := EmptyDraft, [], [];
      selectedImages := [];
    }
  }
}
