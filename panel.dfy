/** The reference panel: its mode ("edit" or "read"), the source being edited, the last
    applied source and the source form, changed step by step by its event handlers,
    which route the panel's actions into `updateReference`. */
module Panel {
  import opened Model
  import opened Hooks

  datatype Mode = Edit | Read

  class ReferencesPanel {
    /** The career form the panel writes through `updateReference`. */
    const career: CareerForm
    /** The field and array index the panel is open for. */
    const currentField: string
    const currentArrayId: Option<nat>

    var popupMode: Mode
    var sourceId: Option<nat>
    var lastSource: Option<Source>
    var showCommentsInput: bool
    /** The values of the source form. */
    var form: Source
    /** Set once the panel has dispatched `RESET_ALL` to the reference state. */
    var resetDispatched: bool

    /** The sources of the reference resolved for the current field. */
    function ExistingSources(): (s: seq<Source>)
      reads career
      ensures Resolve(career.Value(), currentField, currentArrayId).None? ==> s == []
      ensures Resolve(career.Value(), currentField, currentArrayId).Some? ==>
                var i := Resolve(career.Value(), currentField, currentArrayId).value;
                i < |OwnerList(career.Value(), currentField, currentArrayId)| &&
                s == OwnerList(career.Value(), currentField, currentArrayId)[i].sources
    {
      SourcesOf(career.Value(), currentField, currentArrayId)
    }

    /** In read mode the source form holds its defaults and no source is selected, so a
        delete really deletes and the next apply really adds. */
    predicate ReadIsPristine()
      reads this
    {
      popupMode == Read ==> form == DefaultSource && sourceId == None
    }

    /** Read mode is offered only while the field has sources: without them the read view
        hides the add icon and the edit mode's Cancel, form and Apply are out of reach. */
    predicate ReadHasSources()
      reads this, career
    {
      popupMode == Read ==> |ExistingSources()| > 0
    }

    /** Mounting: the panel opens in read mode exactly when the field already has a source. */
    constructor (career: CareerForm, currentField: string, currentArrayId: Option<nat>)
      ensures this.career == career && this.currentField == currentField && this.currentArrayId == currentArrayId
      ensures popupMode == (if |ExistingSources()| > 0 then Read else Edit)
      ensures sourceId == None && lastSource == None && !showCommentsInput
      ensures form == DefaultSource && !resetDispatched
      ensures ReadIsPristine() && ReadHasSources()
    {
      this.career := career;
      this.currentField := currentField;
      this.currentArrayId := currentArrayId;
      popupMode := if |SourcesOf(career.Value(), currentField, currentArrayId)| > 0 then Read else Edit;
      sourceId := None;
      lastSource := None;
      showCommentsInput := false;
      form := DefaultSource;
      resetDispatched := false;
    }

    /** "Apply": enabled only in edit mode; the submit runs only on a valid form (a valid
        form has a reference type). It adds when no source is selected and updates the
        selected one otherwise; then it remembers the source, resets the form, clears the
        selection and switches to read mode. A call that throws stops before those steps. */
    method ApplySources(isValid: bool)
      requires popupMode == Edit
      requires isValid ==> form.referenceType.Some?
      requires isValid ==> SourceIdInRange(career.Value(), currentField, currentArrayId, sourceId)
      modifies this, career
      ensures !isValid ==> unchanged(this) && unchanged(career)
      ensures isValid ==>
        OpKind(old(form), old(sourceId)) == (if old(sourceId).None? then AddOp else UpdateOp(old(sourceId).value))
      ensures isValid ==>
        career.Value() == Apply(old(career.Value()), old(form), currentField, currentArrayId, old(sourceId))
      ensures isValid && !Throws(old(career.Value()), currentField, currentArrayId) ==>
        && lastSource == Some(old(form)) && form == DefaultSource && sourceId == None && popupMode == Read
        && showCommentsInput == old(showCommentsInput) && resetDispatched == old(resetDispatched)
      ensures isValid && Throws(old(career.Value()), currentField, currentArrayId) ==> unchanged(this)
      ensures ReadIsPristine()
    {
      if isValid {
        var data := form;
        var thrown := career.UpdateReference(data, currentField, currentArrayId, sourceId);
        if thrown {
          return;
        }
        lastSource := Some(data);
        form := DefaultSource;
        sourceId := None;
        popupMode := Read;
      }
    }

    /** The edit icon of source `id` (shown in read mode, one per listed source): selects
        the source, loads its type, date and comment into the form and switches to edit mode. */
    method EditSource(id: nat)
      requires popupMode == Read
      requires id < |ExistingSources()|
      modifies this
      ensures sourceId == Some(id) && popupMode == Edit && form == ExistingSources()[id]
      ensures lastSource == old(lastSource) && showCommentsInput == old(showCommentsInput)
      ensures resetDispatched == old(resetDispatched)
    {
      sourceId := Some(id);
      var existingReference := Resolve(career.Value(), currentField, currentArrayId);
      if existingReference.Some? {
        var sources := OwnerList(career.Value(), currentField, currentArrayId)[existingReference.value].sources;
        form := form.(referenceType := sources[id].referenceType);
        form := form.(dateObtained := sources[id].dateObtained);
        form := form.(comment := sources[id].comment);
      }
      popupMode := Edit;
    }

    /** The delete icon of source `id` (shown in read mode): forwards the form's current
        values with `sourceId = id`, then resets the form. It deletes only when the form
        has no reference type; if the form is still loaded it updates `sources[id]` instead. */
    method DeleteSource(id: nat)
      requires popupMode == Read
      requires id < |ExistingSources()|
      modifies this, career
      ensures career.Value() == Apply(old(career.Value()), old(form), currentField, currentArrayId, Some(id))
      ensures OpKind(old(form), Some(id)) == (if old(form).referenceType.None? then DeleteOp(id) else UpdateOp(id))
      ensures form == DefaultSource && popupMode == old(popupMode) && sourceId == old(sourceId)
      ensures lastSource == old(lastSource) && showCommentsInput == old(showCommentsInput)
      ensures resetDispatched == old(resetDispatched)
      ensures old(ReadIsPristine()) ==> OpKind(old(form), Some(id)) == DeleteOp(id) && ReadIsPristine()
    {
      var thrown := career.UpdateReference(form, currentField, currentArrayId, Some(id));
      assert !thrown;
      form := DefaultSource;
    }

    /** The delete icon as evidently intended: after the delete, a panel left without
        sources shows the source form again, as mounting with no sources does, instead of
        an empty read view that offers no action but closing. */
    method DeleteSourceAndReopen(id: nat)
      requires popupMode == Read
      requires id < |ExistingSources()|
      modifies this, career
      ensures career.Value() == Apply(old(career.Value()), old(form), currentField, currentArrayId, Some(id))
      ensures popupMode == (if |ExistingSources()| > 0 then Read else Edit)
      ensures form == DefaultSource && sourceId == old(sourceId)
      ensures lastSource == old(lastSource) && showCommentsInput == old(showCommentsInput)
      ensures resetDispatched == old(resetDispatched)
      ensures ReadHasSources()
    {
      DeleteSource(id);
      if |ExistingSources()| == 0 {
        popupMode := Edit;
      }
    }

    /** "Apply last source" (offered in edit mode): copies the last source's type and date,
        and its comment, opening the comment input, only when that comment is non-empty. */
    method ApplyLastSource()
      requires popupMode == Edit
      modifies this
      ensures old(lastSource).None? ==> unchanged(this)
      ensures old(lastSource).Some? ==>
        var last := old(lastSource).value;
        && form.referenceType == last.referenceType
        && form.dateObtained == last.dateObtained
        && form.comment == (if |last.comment| > 0 then last.comment else old(form).comment)
        && showCommentsInput == (old(showCommentsInput) || |last.comment| > 0)
      ensures popupMode == old(popupMode) && sourceId == old(sourceId) && lastSource == old(lastSource)
      ensures resetDispatched == old(resetDispatched)
    {
      if lastSource.Some? {
        var last := lastSource.value;
        form := form.(referenceType := last.referenceType);
        form := form.(dateObtained := last.dateObtained);
        if |last.comment| > 0 {
          showCommentsInput := true;
          form := form.(comment := last.comment);
        }
      }
    }

    /** The form inputs (type, date, comment) while in edit mode. */
    method FillForm(values: Source)
      requires popupMode == Edit
      modifies this
      ensures form == values
      ensures popupMode == old(popupMode) && sourceId == old(sourceId) && lastSource == old(lastSource)
      ensures showCommentsInput == old(showCommentsInput) && resetDispatched == old(resetDispatched)
    {
      form := values;
    }

    /** The "Comment" button: shows the comment input. */
    method ShowComment()
      modifies this
      ensures showCommentsInput
      ensures form == old(form) && popupMode == old(popupMode) && sourceId == old(sourceId)
      ensures lastSource == old(lastSource) && resetDispatched == old(resetDispatched)
    {
      showCommentsInput := true;
    }

    /** The add icon: read to edit, offered only when the field has sources. */
    method AddSource()
      requires |ExistingSources()| > 0
      modifies this
      ensures popupMode == Edit
      ensures form == old(form) && sourceId == old(sourceId) && lastSource == old(lastSource)
      ensures showCommentsInput == old(showCommentsInput) && resetDispatched == old(resetDispatched)
    {
      popupMode := Edit;
    }

    /** "Cancel", as written: edit to read, shown in edit mode and disabled without sources.
        It keeps the form's values and the selected source. */
    method Cancel()
      requires popupMode == Edit
      requires |ExistingSources()| > 0
      modifies this
      ensures popupMode == Read
      ensures form == old(form) && sourceId == old(sourceId) && lastSource == old(lastSource)
      ensures showCommentsInput == old(showCommentsInput) && resetDispatched == old(resetDispatched)
    {
      popupMode := Read;
    }

    /** "Cancel" as evidently intended: also resets the form and clears the selection, so
        that read mode is pristine again. */
    method CancelAndReset()
      requires popupMode == Edit
      requires |ExistingSources()| > 0
      modifies this
      ensures popupMode == Read && form == DefaultSource && sourceId == None
      ensures lastSource == old(lastSource)
      ensures showCommentsInput == old(showCommentsInput) && resetDispatched == old(resetDispatched)
      ensures ReadIsPristine()
    {
      popupMode := Read;
      form := DefaultSource;
      sourceId := None;
    }

    /** "Confirm and close panel": dispatches the reset of the reference state. */
    method HandleClosePanel()
      modifies this
      ensures resetDispatched
      ensures form == old(form) && popupMode == old(popupMode) && sourceId == old(sourceId)
      ensures lastSource == old(lastSource) && showCommentsInput == old(showCommentsInput)
    {
      resetDispatched := true;
    }
  }

  // ---------------------------------------------------------------------------
  // Cancel keeps the edit form loaded: a later delete overwrites instead of deleting.
  // ---------------------------------------------------------------------------

  const FirstSource: Source := Source(Some("Document"), "2022-11-11", "")
  const SecondSource: Source := Source(Some("Verbal"), "2022-12-01", "by phone")
  const ThirdSource: Source := Source(Some("Certificate"), "2023-01-05", "")

  /** "company" has two sources. Edit source 0, cancel, delete source 1: as written, the
      loaded form turns the delete into an update, and source 1 becomes a copy of source 0. */
  method DeleteAfterCancel() returns (after: seq<Source>)
    ensures after == [FirstSource, FirstSource]
  {
    var career := new CareerForm(CareerValue([Reference("company", "", [FirstSource, SecondSource])],
                                             Appointment("", "", []), [], []));
    assert Resolve(career.Value(), "company", None) == Some(0);
    var panel := new ReferencesPanel(career, "company", None);
    panel.EditSource(0);
    panel.Cancel();
    panel.DeleteSource(1);
    after := career.references[0].sources;
  }

  /** The same steps with the corrected cancel delete source 1. */
  method DeleteAfterCancelAndReset() returns (after: seq<Source>)
    ensures after == [FirstSource]
  {
    var career := new CareerForm(CareerValue([Reference("company", "", [FirstSource, SecondSource])],
                                             Appointment("", "", []), [], []));
    assert Resolve(career.Value(), "company", None) == Some(0);
    var panel := new ReferencesPanel(career, "company", None);
    panel.EditSource(0);
    panel.CancelAndReset();
    panel.DeleteSource(1);
    after := career.references[0].sources;
  }

  /** Edit source 0, cancel, then add a new source: as written, source 0 is still selected,
      so the apply updates source 0 instead of appending a third source. */
  method AddAfterCancel() returns (after: seq<Source>)
    ensures after == [ThirdSource, SecondSource]
  {
    var career := new CareerForm(CareerValue([Reference("company", "", [FirstSource, SecondSource])],
                                             Appointment("", "", []), [], []));
    assert Resolve(career.Value(), "company", None) == Some(0);
    var panel := new ReferencesPanel(career, "company", None);
    panel.EditSource(0);
    panel.Cancel();
    panel.AddSource();
    panel.FillForm(ThirdSource);
    panel.ApplySources(true);
    after := career.references[0].sources;
  }

  /** The same steps with the corrected cancel append the new source. */
  method AddAfterCancelAndReset() returns (after: seq<Source>)
    ensures after == [FirstSource, SecondSource, ThirdSource]
  {
    var career := new CareerForm(CareerValue([Reference("company", "", [FirstSource, SecondSource])],
                                             Appointment("", "", []), [], []));
    assert Resolve(career.Value(), "company", None) == Some(0);
    var panel := new ReferencesPanel(career, "company", None);
    panel.EditSource(0);
    panel.CancelAndReset();
    panel.AddSource();
    panel.FillForm(ThirdSource);
    panel.ApplySources(true);
    after := career.references[0].sources;
  }

  /** Edit source 1, cancel, delete source 1 twice, then "+": as written, the first delete
      is an update, the second a real delete, and source 1 is still selected although only
      one source is left, so the next apply would write past the end of the list. */
  method StaleSelectionAfterCancel() returns (selected: Option<nat>, count: nat)
    ensures selected == Some(1) && count == 1
  {
    var career := new CareerForm(CareerValue([Reference("company", "", [FirstSource, SecondSource])],
                                             Appointment("", "", []), [], []));
    assert Resolve(career.Value(), "company", None) == Some(0);
    var panel := new ReferencesPanel(career, "company", None);
    panel.EditSource(1);
    panel.Cancel();
    assert panel.form == SecondSource;
    panel.DeleteSource(1);
    assert SourcesAfter([FirstSource, SecondSource], UpdateOp(1), SecondSource) == [FirstSource, SecondSource];
    assert career.references == [Reference("company", "", [FirstSource, SecondSource])];
    assert Resolve(career.Value(), "company", None) == Some(0);
    assert panel.form == DefaultSource;
    panel.DeleteSource(1);
    assert SourcesAfter([FirstSource, SecondSource], DeleteOp(1), DefaultSource) == [FirstSource];
    assert career.references == [Reference("company", "", [FirstSource])];
    assert Resolve(career.Value(), "company", None) == Some(0);
    panel.AddSource();
    selected := panel.sourceId;
    count := |panel.ExistingSources()|;
  }

  // ---------------------------------------------------------------------------
  // Deleting the last source in read mode leaves an empty read view.
  // ---------------------------------------------------------------------------

  /** "rank" with one source: deleting it removes the reference, and the panel stays in
      read mode with no source, where only closing is offered. */
  method DeleteLastRankSource() returns (mode: Mode, count: nat)
    ensures mode == Read && count == 0
  {
    var career := new CareerForm(CareerValue([], Appointment("", "", [Reference(Rank, "", [FirstSource])]), [], []));
    assert Resolve(career.Value(), Rank, None) == Some(0);
    var panel := new ReferencesPanel(career, Rank, None);
    panel.DeleteSource(0);
    assert career.appointment.references == [];
    mode := panel.popupMode;
    count := |panel.ExistingSources()|;
  }

  /** "company" with one source: deleting it leaves `{company, "", []}`, and again the
      panel stays in read mode with no source. */
  method DeleteLastCompanySource() returns (mode: Mode, count: nat)
    ensures mode == Read && count == 0
  {
    var career := new CareerForm(CareerValue([Reference("company", "", [FirstSource])], Appointment("", "", []), [], []));
    assert Resolve(career.Value(), "company", None) == Some(0);
    var panel := new ReferencesPanel(career, "company", None);
    panel.DeleteSource(0);
    assert career.references == [Reference("company", "", [])];
    assert Resolve(career.Value(), "company", None) == Some(0);
    mode := panel.popupMode;
    count := |panel.ExistingSources()|;
  }

  /** The same "rank" steps with the corrected delete bring the source form back. */
  method DeleteLastRankSourceAndReopen() returns (mode: Mode, count: nat)
    ensures mode == Edit && count == 0
  {
    var career := new CareerForm(CareerValue([], Appointment("", "", [Reference(Rank, "", [FirstSource])]), [], []));
    assert Resolve(career.Value(), Rank, None) == Some(0);
    var panel := new ReferencesPanel(career, Rank, None);
    panel.DeleteSourceAndReopen(0);
    assert career.appointment.references == [];
    mode := panel.popupMode;
    count := |panel.ExistingSources()|;
  }
}
