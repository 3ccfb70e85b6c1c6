/**
 * The admin "add inclusion" form: the editable list of points, and the
 * request body its submit sends to the inclusion handler.
 */
module InclusionForm {
  import opened Wrappers
  import opened Seqs
  import opened Schema
  import DocumentStore

  /** A point as the form edits it: both fields are text, "" when blank. */
  datatype FormPoint = FormPoint(IconName: string, Point: string)

  const BlankPoint: FormPoint := FormPoint("", "")

  /** The two fields `handlePointChange` can set. */
  datatype Field = IconNameField | PointField

  /** `points.length > 1`: the remove control is rendered only then. */
  predicate ShowsRemoveControl(points: seq<FormPoint>) {
    |points| > 1
  }

  /** `{ IconName: point.IconName || undefined, Point: point.Point }`. */
  function PayloadPoint(p: FormPoint): (r: InclusionPoint)
    ensures r.Point == p.Point
    ensures r.IconName.None? <==> p.IconName == ""
    ensures r.IconName.Some? ==> r.IconName.value == p.IconName
  {
    InclusionPoint(if p.IconName == "" then None else Some(p.IconName), p.Point)
  }

  /**
   * The body `handleSubmit` posts, or None when no package is selected and
   * nothing is sent. Points keep their order.
   */
  function SubmitPayload(selectedPackage: string, points: seq<FormPoint>): (r: Option<DocumentStore.InclusionRequest>)
    ensures r.None? <==> selectedPackage == ""
    ensures r.Some? ==> r.value.packageId == Some([selectedPackage]) && r.value.points.Some?
    ensures r.Some? ==> |r.value.points.value| == |points|
                        && forall i | 0 <= i < |points| :: r.value.points.value[i] == PayloadPoint(points[i])
  {
    if selectedPackage == "" then None
    else Some(DocumentStore.InclusionRequest(Some([selectedPackage]),
                Some(seq(|points|, i requires 0 <= i < |points| => PayloadPoint(points[i])))))
  }

  // ---------------------------------------------------------------------------
  // Properties
  // ---------------------------------------------------------------------------

  /**
   * The inclusion the handler builds from a submitted form holds the form's
   * points in order, and the schema accepts it exactly when no point text is
   * blank.
   */
  lemma StoredInclusionFollowsForm(selectedPackage: string, points: seq<FormPoint>, now: nat)
    requires selectedPackage != ""
    ensures var doc := DocumentStore.NewInclusion(SubmitPayload(selectedPackage, points).value, now);
            doc.Some? ==>
              && |doc.value.Points| == |points|
              && (forall i | 0 <= i < |points| :: doc.value.Points[i].Point == points[i].Point)
              && (ValidInclusion(doc.value) <==> forall i | 0 <= i < |points| :: points[i].Point != "")
  {
  }

  /** The form as it opens holds one blank point, so submitting it unchanged stores nothing valid. */
  lemma InitialFormIsRefused(selectedPackage: string, now: nat)
    requires selectedPackage != ""
    ensures var doc := DocumentStore.NewInclusion(SubmitPayload(selectedPackage, [BlankPoint]).value, now);
            doc.Some? ==> !ValidInclusion(doc.value)
  {
    StoredInclusionFollowsForm(selectedPackage, [BlankPoint], now);
    var doc := DocumentStore.NewInclusion(SubmitPayload(selectedPackage, [BlankPoint]).value, now);
    if doc.Some? {
      assert doc.value.Points[0].Point == "";
    }
  }

  /** Removing through the rendered control never leaves the form without a point. */
  lemma RemoveControlKeepsAPoint(points: seq<FormPoint>, index: int)
    requires ShowsRemoveControl(points) && 0 <= index < |points|
    ensures |DropIndex(points, index)| == |points| - 1 >= 1
  {
    DropIndexInRange(points, index);
  }

  /** The form's state: the selected package id and the points. */
  class Form {
    var selectedPackage: string
    var points: seq<FormPoint>

    /** The form opens with no package and exactly one blank point. */
    constructor()
      ensures selectedPackage == "" && points == [BlankPoint]
    {
      selectedPackage, points := "", [BlankPoint];
    }

    method SelectPackage(id: string)
      modifies this
      ensures selectedPackage == id && points == old(points)
    {
      selectedPackage := id;
    }

    /** `handleAddPoint`: a blank point at the end, the others untouched. */
    method AddPoint()
      modifies this
      ensures points == old(points) + [BlankPoint] && selectedPackage == old(selectedPackage)
    {
      points := points + [BlankPoint];
    }

    /** `handleRemovePoint`: only the point at `index` goes; an index out of range removes nothing. */
    method RemovePoint(index: int)
      modifies this
      ensures 0 <= index < |old(points)| ==> points == old(points)[..index] + old(points)[index + 1..]
      ensures !(0 <= index < |old(points)|) ==> points == old(points)
      ensures selectedPackage == old(selectedPackage)
    {
      var kept := DropIndex(points, index);
      if 0 <= index < |points| {
        DropIndexInRange(points, index);
      } else {
        DropIndexOutOfRange(points, index);
      }
      points := kept;
    }

    /** `handlePointChange`: one field of the point at `index` is set; everything else stays. */
    method ChangePoint(index: int, field: Field, value: string)
      requires 0 <= index < |points|
      modifies this
      ensures |points| == |old(points)| && selectedPackage == old(selectedPackage)
      ensures forall j | 0 <= j < |points| && j != index :: points[j] == old(points)[j]
      ensures field.IconNameField? ==> points[index] == old(points)[index].(IconName := value)
      ensures field.PointField? ==> points[index] == old(points)[index].(Point := value)
    {
      var newPoints := points;
      var point := newPoints[index];
      newPoints := newPoints[index := if field.IconNameField? then point.(IconName := value) else point.(Point := value)];
      points := newPoints;
    }

    /** `handleSubmit`: the body posted, or None when no package is selected. The form itself is left as it is. */
    method Submit() returns (payload: Option<DocumentStore.InclusionRequest>)
      ensures payload == SubmitPayload(selectedPackage, points)
      ensures payload.None? <==> selectedPackage == ""
    {
      payload := SubmitPayload(selectedPackage, points);
    }
  }
}
