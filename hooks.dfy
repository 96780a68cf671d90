/** The reference synchroniser `updateReference`: it resolves the reference
    owned by a field, adds, updates or deletes one of its sources, creates the reference
    when there is none, and writes the owning list back into the form value. */
module Hooks {
  import opened Model

  // ---------------------------------------------------------------------------
  // Ownership and the resolver.
  //
  // The resolver `getExistingReference` is not part of this model. What follows is the
  // behaviour assumed of it: it returns the position of the first matching reference in
  // the list that owns the field, so that `indexOf(existingReference)` in the
  // synchroniser finds the same position in that same list.
  // ---------------------------------------------------------------------------

  /** Which list holds the references of a field. */
  datatype Owner = RootList | AppointmentList | CertList(index: nat)

  function OwnerOf(field: string, arrayId: Option<nat>): (o: Owner)
    ensures o == AppointmentList <==> field == Rank || field == Position
    ensures o.CertList? <==> field != Rank && field != Position && (field == Name || field == IssuedBy) && arrayId.Some?
    ensures o.CertList? ==> arrayId == Some(o.index)
  {
    if field == Rank || field == Position then AppointmentList
    else if (field == Name || field == IssuedBy) && arrayId.Some? then CertList(arrayId.value)
    else RootList
  }

  /** The owning list; a certification element that does not exist owns nothing. */
  function OwnerList(v: CareerValue, field: string, arrayId: Option<nat>): seq<Reference>
  {
    match OwnerOf(field, arrayId)
    case RootList => v.references
    case AppointmentList => v.appointment.references
    case CertList(i) => if i < |v.certsToField| then v.certsToField[i].references else []
  }

  /** Does `r` match the lookup key (a field name, and a content value when one is given)? */
  predicate KeyMatches(r: Reference, field: string, content: Option<string>)
  {
    r.field == field && (content.Some? ==> r.content == content.value)
  }

  /** Position of the first reference in `list[from..]` that matches the key. */
  function FindRef(list: seq<Reference>, field: string, content: Option<string>, from: nat): (r: Option<nat>)
    requires from <= |list|
    ensures r.Some? ==> from <= r.value < |list| && KeyMatches(list[r.value], field, content)
    ensures r.Some? ==> forall j :: from <= j < r.value ==> !KeyMatches(list[j], field, content)
    ensures r.None? ==> forall j :: from <= j < |list| ==> !KeyMatches(list[j], field, content)
    decreases |list| - from
  {
    if from == |list| then None
    else if KeyMatches(list[from], field, content) then Some(from)
    else FindRef(list, field, content, from + 1)
  }

  /** A root "skills" reference is matched by the skill's current text as well; without
      a skill at `arrayId` nothing matches. Every other field is matched by name. */
  predicate Matches(v: CareerValue, field: string, arrayId: Option<nat>, r: Reference)
  {
    r.field == field &&
    (OwnerOf(field, arrayId) == RootList && field == Skills ==>
       arrayId.Some? && arrayId.value < |v.skills| && r.content == v.skills[arrayId.value])
  }

  /** The assumed resolver: the position of the first reference in the owning list that
      matches, or None when the field has no reference yet. */
  function Resolve(v: CareerValue, field: string, arrayId: Option<nat>): (r: Option<nat>)
    ensures r.Some? ==> r.value < |OwnerList(v, field, arrayId)|
    ensures r.Some? ==> Matches(v, field, arrayId, OwnerList(v, field, arrayId)[r.value])
    ensures r.Some? ==> forall j :: 0 <= j < r.value ==> !Matches(v, field, arrayId, OwnerList(v, field, arrayId)[j])
    ensures r.None? ==> forall j :: 0 <= j < |OwnerList(v, field, arrayId)| ==> !Matches(v, field, arrayId, OwnerList(v, field, arrayId)[j])
  {
    var list := OwnerList(v, field, arrayId);
    if OwnerOf(field, arrayId) == RootList && field == Skills then
      if arrayId.Some? && arrayId.value < |v.skills| then FindRef(list, field, Some(v.skills[arrayId.value]), 0)
      else None
    else FindRef(list, field, None, 0)
  }

  /** The sources of the resolved reference, or none when there is no reference. */
  function SourcesOf(v: CareerValue, field: string, arrayId: Option<nat>): (s: seq<Source>)
    ensures Resolve(v, field, arrayId).None? ==> s == []
    ensures Resolve(v, field, arrayId).Some? ==>
              Resolve(v, field, arrayId).value < |OwnerList(v, field, arrayId)| &&
              s == OwnerList(v, field, arrayId)[Resolve(v, field, arrayId).value].sources
    ensures |s| > 0 ==> exists j :: 0 <= j < |OwnerList(v, field, arrayId)| &&
                                    Matches(v, field, arrayId, OwnerList(v, field, arrayId)[j]) &&
                                    OwnerList(v, field, arrayId)[j].sources == s
  {
    match Resolve(v, field, arrayId)
    case Some(i) => OwnerList(v, field, arrayId)[i].sources
    case None => []
  }

  // ---------------------------------------------------------------------------
  // The source-level mutation (`updateExistingSources`).
  // ---------------------------------------------------------------------------

  datatype SourceOp = AddOp | UpdateOp(k: nat) | DeleteOp(k: nat) | NoOp

  /** The operation is decided only by whether the submitted source has a type and
      whether a source index was given. */
  function OpKind(source: Source, sourceId: Option<nat>): (op: SourceOp)
    ensures op == AddOp <==> source.referenceType.Some? && sourceId.None?
    ensures op.UpdateOp? <==> source.referenceType.Some? && sourceId.Some?
    ensures op.DeleteOp? <==> source.referenceType.None? && sourceId.Some?
    ensures op == NoOp <==> source.referenceType.None? && sourceId.None?
    ensures op.UpdateOp? || op.DeleteOp? ==> sourceId == Some(op.k)
  {
    match (source.referenceType, sourceId)
    case (Some(_), None) => AddOp
    case (Some(_), Some(k)) => UpdateOp(k)
    case (None, Some(k)) => DeleteOp(k)
    case (None, None) => NoOp
  }

  /** The source index of an update or a delete lies within the list. */
  predicate OpFits(op: SourceOp, n: nat)
  {
    (op.UpdateOp? || op.DeleteOp?) ==> op.k < n
  }

  /** The sources after the operation: add appends at the end, update replaces exactly
      one entry, delete removes one entry and keeps the rest in order. */
  function SourcesAfter(s: seq<Source>, op: SourceOp, src: Source): (r: seq<Source>)
    requires OpFits(op, |s|)
    ensures op == AddOp ==> |r| == |s| + 1 && r[..|s|] == s && r[|s|] == src
    ensures op.UpdateOp? ==> |r| == |s| && r[op.k] == src
    ensures op.UpdateOp? ==> forall j :: 0 <= j < |s| && j != op.k ==> r[j] == s[j]
    ensures op.DeleteOp? ==> |r| == |s| - 1
    ensures op.DeleteOp? ==> forall j :: 0 <= j < op.k ==> r[j] == s[j]
    ensures op.DeleteOp? ==> forall j :: op.k <= j < |r| ==> r[j] == s[j + 1]
    ensures op == NoOp ==> r == s
  {
    match op
    case AddOp => s + [src]
    case UpdateOp(k) => s[k := src]
    case DeleteOp(k) => seq(|s| - 1, j requires 0 <= j < |s| - 1 => if j < k then s[j] else s[j + 1])
    case NoOp => s
  }

  /** `updateExistingSources`: push, index assignment or splice on the resolved
      reference's sources. */
  method UpdateExistingSources(sources: seq<Source>, source: Source, sourceId: Option<nat>) returns (r: seq<Source>)
    requires sourceId.Some? ==> sourceId.value < |sources|
    ensures r == SourcesAfter(sources, OpKind(source, sourceId), source)
  {
    r := sources;
    var isAddSource := source.referenceType.Some? && sourceId.None?;
    var isUpdateSource := source.referenceType.Some? && sourceId.Some?;
    var isDeleteSource := source.referenceType.None? && sourceId.Some?;
    if isAddSource {
      r := r + [source];
    } else if isUpdateSource {
      r := r[sourceId.value := source];
    } else if isDeleteSource {
      var k := sourceId.value;
      r := r[..k] + r[k + 1..];
      assert forall j :: 0 <= j < |r| ==> r[j] == SourcesAfter(sources, DeleteOp(k), source)[j];
    }
  }

  // ---------------------------------------------------------------------------
  // Branch selection and the specification of `updateReference`.
  // ---------------------------------------------------------------------------

  /** The four branches, tested in source order: object, array string, array object, string. */
  datatype Branch = ObjectBranch | ArrayStringBranch | ArrayObjectBranch(index: nat) | StringBranch

  function BranchOf(field: string, existing: bool, arrayId: Option<nat>): (b: Branch)
    ensures b == ObjectBranch <==> field == Rank || field == Position
    ensures b == ArrayStringBranch <==> field == Skills && existing && arrayId.Some?
    ensures b.ArrayObjectBranch? <==> (field == Name || field == IssuedBy) && arrayId.Some?
    ensures b.ArrayObjectBranch? ==> arrayId == Some(b.index)
    ensures b == StringBranch <==>
      field != Rank && field != Position &&
      !(field == Skills && existing && arrayId.Some?) &&
      !((field == Name || field == IssuedBy) && arrayId.Some?)
  {
    if field == Rank || field == Position then ObjectBranch
    else if field == Skills && existing && arrayId.Some? then ArrayStringBranch
    else if (field == Name || field == IssuedBy) && arrayId.Some? then ArrayObjectBranch(arrayId.value)
    else StringBranch
  }

  /** The reference created for a field that has none yet. */
  function NewReference(field: string, source: Source): Reference
  {
    Reference(field, "", [source])
  }

  /** The owning list after the call: a new reference is appended when none was resolved;
      otherwise the resolved one gets its new sources in place, or is removed when
      `dropEmpty` holds (the appointment branch) and no source is left. */
  function ListAfter(list: seq<Reference>, existing: Option<nat>, field: string, source: Source,
                     op: SourceOp, dropEmpty: bool): (r: seq<Reference>)
    requires existing.Some? ==> existing.value < |list| && OpFits(op, |list[existing.value].sources|)
    ensures existing.None? ==> |r| == |list| + 1 && r[..|list|] == list && r[|list|] == NewReference(field, source)
    ensures existing.Some? ==>
      var i := existing.value;
      var s := SourcesAfter(list[i].sources, op, source);
      if dropEmpty && |s| == 0 then
        |r| == |list| - 1 &&
        (forall j :: 0 <= j < i ==> r[j] == list[j]) &&
        (forall j :: i <= j < |r| ==> r[j] == list[j + 1])
      else
        |r| == |list| && r[i] == list[i].(sources := s) &&
        (forall j :: 0 <= j < |list| && j != i ==> r[j] == list[j])
  {
    match existing
    case None => list + [NewReference(field, source)]
    case Some(i) =>
      var s := SourcesAfter(list[i].sources, op, source);
      if dropEmpty && |s| == 0 then list[..i] + list[i + 1..] else list[i := list[i].(sources := s)]
  }

  /** The code never checks the source index: update and delete need it in range. */
  predicate SourceIdInRange(v: CareerValue, field: string, arrayId: Option<nat>, sourceId: Option<nat>)
  {
    match Resolve(v, field, arrayId)
    case Some(i) => sourceId.Some? ==> sourceId.value < |OwnerList(v, field, arrayId)[i].sources|
    case None => true
  }

  /** `certsToField[arrayId]` is undefined: reading its `references` throws before any write. */
  predicate Throws(v: CareerValue, field: string, arrayId: Option<nat>)
    ensures Throws(v, field, arrayId) <==>
              (field == Name || field == IssuedBy) && arrayId.Some? && arrayId.value >= |v.certsToField|
  {
    OwnerOf(field, arrayId).CertList? && OwnerOf(field, arrayId).index >= |v.certsToField|
  }

  /** The form value after `updateReference`. */
  function Apply(v: CareerValue, source: Source, field: string, arrayId: Option<nat>, sourceId: Option<nat>): (w: CareerValue)
    requires SourceIdInRange(v, field, arrayId, sourceId)
    ensures w.skills == v.skills && |w.certsToField| == |v.certsToField|
    ensures w.appointment.rank == v.appointment.rank && w.appointment.position == v.appointment.position
    ensures Throws(v, field, arrayId) ==> w == v
  {
    var existing := Resolve(v, field, arrayId);
    var op := OpKind(source, sourceId);
    match BranchOf(field, existing.Some?, arrayId)
    case ObjectBranch =>
      v.(appointment := v.appointment.(references := ListAfter(v.appointment.references, existing, field, source, op, true)))
    case ArrayStringBranch =>
      v.(references := ListAfter(v.references, existing, field, source, op, false))
    case ArrayObjectBranch(id) =>
      if id < |v.certsToField| then
        var cert := v.certsToField[id];
        v.(certsToField := v.certsToField[id := cert.(references := ListAfter(cert.references, existing, field, source, op, false))])
      else v
    case StringBranch =>
      v.(references := ListAfter(v.references, existing, field, source, op, false))
  }

  // ---------------------------------------------------------------------------
  // The form value as a mutable object, and `updateReference` itself.
  // ---------------------------------------------------------------------------

  /** The live career form value that `getValues()` hands out and `setValue` replaces. */
  class CareerForm {
    var references: seq<Reference>
    var appointment: Appointment
    var certsToField: seq<Cert>
    var skills: seq<string>

    function Value(): CareerValue
      reads this
    {
      CareerValue(references, appointment, certsToField, skills)
    }

    constructor (v: CareerValue)
      ensures Value() == v
    {
      references := v.references;
      appointment := v.appointment;
      certsToField := v.certsToField;
      skills := v.skills;
    }

    /** `updateReference({source, field, arrayId, sourceId})`. Returns whether the call
        throws (certification element missing); a throwing call writes nothing. */
    method UpdateReference(source: Source, field: string, arrayId: Option<nat>, sourceId: Option<nat>)
      returns (thrown: bool)
      requires SourceIdInRange(Value(), field, arrayId, sourceId)
      modifies this
      ensures thrown == Throws(old(Value()), field, arrayId)
      ensures Value() == Apply(old(Value()), source, field, arrayId, sourceId)
    {
      var existing := Resolve(Value(), field, arrayId);
      var isObject := field == Rank || field == Position;
      var isArrayObject := (field == IssuedBy || field == Name) && arrayId.Some?;
      var isArrayString := field == Skills && existing.Some? && arrayId.Some?;
      thrown := false;

      if isObject {
        if existing.Some? {
          var index := existing.value;
          var existingReference := appointment.references[index];
          var sources := UpdateExistingSources(existingReference.sources, source, sourceId);
          existingReference := existingReference.(sources := sources);
          if |existingReference.sources| == 0 {
            appointment := appointment.(references := appointment.references[..index] + appointment.references[index + 1..]);
          } else {
            appointment := appointment.(references := appointment.references[index := existingReference]);
          }
        } else {
          appointment := appointment.(references := appointment.references + [NewReference(field, source)]);
        }
      } else if isArrayString {
        var index := existing.value;
        var existingReference := references[index];
        var sources := UpdateExistingSources(existingReference.sources, source, sourceId);
        existingReference := existingReference.(sources := sources);
        references := references[index := existingReference];
      } else if isArrayObject {
        var arrayIndex := arrayId.value;
        if arrayIndex >= |certsToField| {
          thrown := true;
          return;
        }
        var selectedObject := certsToField[arrayIndex];
        if existing.Some? {
          var index := existing.value;
          var existingReference := selectedObject.references[index];
          var sources := UpdateExistingSources(existingReference.sources, source, sourceId);
          existingReference := existingReference.(sources := sources);
          selectedObject := selectedObject.(references := selectedObject.references[index := existingReference]);
        } else {
          selectedObject := selectedObject.(references := selectedObject.references + [NewReference(field, source)]);
        }
        var existingArrayObjects := certsToField;
        existingArrayObjects := existingArrayObjects[arrayIndex := selectedObject];
        certsToField := existingArrayObjects;
      } else {
        if existing.Some? {
          var index := existing.value;
          var existingReference := references[index];
          var sources := UpdateExistingSources(existingReference.sources, source, sourceId);
          existingReference := existingReference.(sources := sources);
          references := references[index := existingReference];
        } else {
          references := references + [NewReference(field, source)];
        }
      }
    }
  }
}
