/** What `updateReference` guarantees, stated over the specification `Hooks.Apply`
    that `Hooks.CareerForm.UpdateReference` is proved to implement. */
module HooksProperties {
  import opened Model
  import opened Hooks

  // ---------------------------------------------------------------------------
  // Store invariants.
  // ---------------------------------------------------------------------------

  /** At most one reference per field name, except for the names in `exempt`. */
  predicate UniqueExcept(list: seq<Reference>, exempt: set<string>)
  {
    forall i, j :: 0 <= i < j < |list| && list[i].field !in exempt ==> list[i].field != list[j].field
  }

  /** Every reference still has at least one source. */
  predicate NonEmpty(list: seq<Reference>)
  {
    forall i :: 0 <= i < |list| ==> |list[i].sources| > 0
  }

  /** Two "skills" references never share a non-empty content. */
  predicate SkillContentsDistinct(list: seq<Reference>)
  {
    forall i, j :: 0 <= i < j < |list| && list[i].field == Skills && list[j].field == Skills && list[i].content != "" ==>
      list[i].content != list[j].content
  }

  /** One reference per field in every list; "skills" may repeat in the root list, but only
      with content "" (several skills references created by the synchroniser). No
      appointment reference without sources. */
  predicate StoreInvariant(v: CareerValue)
  {
    && UniqueExcept(v.references, {Skills})
    && SkillContentsDistinct(v.references)
    && UniqueExcept(v.appointment.references, {})
    && NonEmpty(v.appointment.references)
    && forall c :: 0 <= c < |v.certsToField| ==> UniqueExcept(v.certsToField[c].references, {})
  }

  // ---------------------------------------------------------------------------
  // Basic facts about the call.
  // ---------------------------------------------------------------------------

  /** The owning list after the call is `ListAfter` of the old one; the appointment list
      is the only one that drops an emptied reference. */
  lemma ApplyOwnerList(v: CareerValue, source: Source, field: string, arrayId: Option<nat>, sourceId: Option<nat>)
    requires SourceIdInRange(v, field, arrayId, sourceId)
    requires !Throws(v, field, arrayId)
    ensures var existing := Resolve(v, field, arrayId);
            var list := OwnerList(v, field, arrayId);
            (existing.Some? ==> existing.value < |list| &&
                                OpFits(OpKind(source, sourceId), |list[existing.value].sources|)) &&
            OwnerList(Apply(v, source, field, arrayId, sourceId), field, arrayId) ==
              ListAfter(list, existing, field, source, OpKind(source, sourceId), OwnerOf(field, arrayId) == AppointmentList)
  {
  }

  /** Only the owning partition changes: the other lists, the skills and every other
      certification element keep their values, and the certification array keeps its length. */
  lemma ApplyTouchesOnlyOwner(v: CareerValue, source: Source, field: string, arrayId: Option<nat>, sourceId: Option<nat>)
    requires SourceIdInRange(v, field, arrayId, sourceId)
    ensures var w := Apply(v, source, field, arrayId, sourceId);
            && w.skills == v.skills
            && w.appointment.position == v.appointment.position
            && w.appointment.rank == v.appointment.rank
            && (OwnerOf(field, arrayId) != AppointmentList ==> w.appointment == v.appointment)
            && (OwnerOf(field, arrayId) != RootList ==> w.references == v.references)
            && |w.certsToField| == |v.certsToField|
            && (forall c :: 0 <= c < |v.certsToField| && OwnerOf(field, arrayId) != CertList(c) ==>
                              w.certsToField[c] == v.certsToField[c])
            && (forall c :: 0 <= c < |v.certsToField| ==>
                  w.certsToField[c].name == v.certsToField[c].name &&
                  w.certsToField[c].issuedBy == v.certsToField[c].issuedBy)
  {
  }

  /** A resolved reference is never in a missing certification element, so the call
      cannot throw once a reference was found. */
  lemma ResolvedNeverThrows(v: CareerValue, field: string, arrayId: Option<nat>)
    requires Resolve(v, field, arrayId).Some?
    ensures !Throws(v, field, arrayId)
  {
  }

  /** Without a resolved reference, whatever the operation, `{field, content: "", sources: [source]}`
      is appended at the end of the owning list and every earlier entry is kept. */
  lemma CreateAppendsToOwner(v: CareerValue, source: Source, field: string, arrayId: Option<nat>, sourceId: Option<nat>)
    requires Resolve(v, field, arrayId).None?
    requires !Throws(v, field, arrayId)
    ensures var list' := OwnerList(Apply(v, source, field, arrayId, sourceId), field, arrayId);
            list' == OwnerList(v, field, arrayId) + [Reference(field, "", [source])]
  {
    ApplyOwnerList(v, source, field, arrayId, sourceId);
    var list := OwnerList(v, field, arrayId);
    var list' := OwnerList(Apply(v, source, field, arrayId, sourceId), field, arrayId);
    assert list' == list' [..|list|] + [list'[|list|]];
  }

  /** Appointment branch with a resolved reference: removed (the others keeping their
      order) exactly when no source is left, otherwise updated at the same index. */
  lemma AppointmentDropsEmptied(v: CareerValue, source: Source, field: string, arrayId: Option<nat>, sourceId: Option<nat>)
    requires field == Rank || field == Position
    requires SourceIdInRange(v, field, arrayId, sourceId)
    requires Resolve(v, field, arrayId).Some?
    ensures var i := Resolve(v, field, arrayId).value;
            var list := v.appointment.references;
            var list' := Apply(v, source, field, arrayId, sourceId).appointment.references;
            var s := SourcesAfter(list[i].sources, OpKind(source, sourceId), source);
            if |s| == 0 then list' == list[..i] + list[i + 1..]
            else list' == list[i := list[i].(sources := s)]
  {
    var i := Resolve(v, field, arrayId).value;
    var list := v.appointment.references;
    var list' := Apply(v, source, field, arrayId, sourceId).appointment.references;
    var s := SourcesAfter(list[i].sources, OpKind(source, sourceId), source);
    if |s| == 0 {
      assert list' == list[..i] + list[i + 1..] by {
        assert forall j :: 0 <= j < |list'| ==> list'[j] == (list[..i] + list[i + 1..])[j];
      }
    }
  }

  /** Root, skills and certification branches replace the resolved reference in place at
      its old index and never remove it, even with no source left. */
  lemma OtherBranchesKeepReference(v: CareerValue, source: Source, field: string, arrayId: Option<nat>, sourceId: Option<nat>)
    requires field != Rank && field != Position
    requires SourceIdInRange(v, field, arrayId, sourceId)
    requires Resolve(v, field, arrayId).Some?
    ensures var i := Resolve(v, field, arrayId).value;
            var list := OwnerList(v, field, arrayId);
            var list' := OwnerList(Apply(v, source, field, arrayId, sourceId), field, arrayId);
            list' == list[i := list[i].(sources := SourcesAfter(list[i].sources, OpKind(source, sourceId), source))]
  {
    ApplyOwnerList(v, source, field, arrayId, sourceId);
  }

  // ---------------------------------------------------------------------------
  // Invariants kept by the call.
  // ---------------------------------------------------------------------------

  lemma ListAfterKeepsUnique(list: seq<Reference>, existing: Option<nat>, field: string, source: Source,
                             op: SourceOp, dropEmpty: bool, exempt: set<string>)
    requires existing.Some? ==> existing.value < |list| && OpFits(op, |list[existing.value].sources|)
    requires UniqueExcept(list, exempt)
    requires existing.None? && field !in exempt ==> forall j :: 0 <= j < |list| ==> list[j].field != field
    ensures UniqueExcept(ListAfter(list, existing, field, source, op, dropEmpty), exempt)
  {
    var r := ListAfter(list, existing, field, source, op, dropEmpty);
    if existing.Some? {
      var i := existing.value;
      var s := SourcesAfter(list[i].sources, op, source);
      if dropEmpty && |s| == 0 {
        forall a, b | 0 <= a < b < |r| && r[a].field !in exempt
          ensures r[a].field != r[b].field
        {
          var a' := if a < i then a else a + 1;
          var b' := if b < i then b else b + 1;
          assert r[a] == list[a'] && r[b] == list[b'];
        }
      }
    }
  }

  lemma ListAfterKeepsNonEmpty(list: seq<Reference>, existing: Option<nat>, field: string, source: Source, op: SourceOp)
    requires existing.Some? ==> existing.value < |list| && OpFits(op, |list[existing.value].sources|)
    requires NonEmpty(list)
    ensures NonEmpty(ListAfter(list, existing, field, source, op, true))
  {
  }

  /** `ListAfter` only ever adds a reference with content "" and keeps every other
      reference's field and content, so distinct non-empty skill contents stay distinct. */
  lemma ListAfterKeepsSkillContents(list: seq<Reference>, existing: Option<nat>, field: string, source: Source,
                                   op: SourceOp, dropEmpty: bool)
    requires existing.Some? ==> existing.value < |list| && OpFits(op, |list[existing.value].sources|)
    requires SkillContentsDistinct(list)
    ensures SkillContentsDistinct(ListAfter(list, existing, field, source, op, dropEmpty))
  {
    var r := ListAfter(list, existing, field, source, op, dropEmpty);
    match existing
    case None =>
      assert r[|list|].content == "";
    case Some(i) =>
      var s := SourcesAfter(list[i].sources, op, source);
      if dropEmpty && |s| == 0 {
        forall a, b | 0 <= a < b < |r| && r[a].field == Skills && r[b].field == Skills && r[a].content != ""
          ensures r[a].content != r[b].content
        {
          var a' := if a < i then a else a + 1;
          var b' := if b < i then b else b + 1;
          assert r[a] == list[a'] && r[b] == list[b'];
        }
      } else {
        assert forall j :: 0 <= j < |list| ==> r[j].field == list[j].field && r[j].content == list[j].content;
      }
  }

  /** Every call keeps the store invariant: no duplicate field in any list and no
      appointment reference without sources. */
  lemma ApplyKeepsStoreInvariant(v: CareerValue, source: Source, field: string, arrayId: Option<nat>, sourceId: Option<nat>)
    requires SourceIdInRange(v, field, arrayId, sourceId)
    requires StoreInvariant(v)
    ensures StoreInvariant(Apply(v, source, field, arrayId, sourceId))
  {
    var w := Apply(v, source, field, arrayId, sourceId);
    var existing := Resolve(v, field, arrayId);
    var op := OpKind(source, sourceId);
    if !Throws(v, field, arrayId) {
      ApplyOwnerList(v, source, field, arrayId, sourceId);
      ApplyTouchesOnlyOwner(v, source, field, arrayId, sourceId);
      var list := OwnerList(v, field, arrayId);
      match OwnerOf(field, arrayId)
      case RootList =>
        ListAfterKeepsUnique(list, existing, field, source, op, false, {Skills});
        ListAfterKeepsSkillContents(list, existing, field, source, op, false);
      case AppointmentList =>
        ListAfterKeepsUnique(list, existing, field, source, op, true, {});
        ListAfterKeepsNonEmpty(list, existing, field, source, op);
      case CertList(i) =>
        ListAfterKeepsUnique(list, existing, field, source, op, false, {});
        assert forall c :: 0 <= c < |w.certsToField| ==> UniqueExcept(w.certsToField[c].references, {}) by {
          forall c | 0 <= c < |w.certsToField|
            ensures UniqueExcept(w.certsToField[c].references, {})
          {
            if c != i {
              assert w.certsToField[c] == v.certsToField[c];
            }
          }
        }
    }
  }

  // ---------------------------------------------------------------------------
  // Round trips.
  // ---------------------------------------------------------------------------

  /** Resolution depends only on the fields and contents of the owning list and on the skills. */
  lemma ResolveSameKeys(v: CareerValue, w: CareerValue, field: string, arrayId: Option<nat>)
    requires w.skills == v.skills
    requires |OwnerList(w, field, arrayId)| == |OwnerList(v, field, arrayId)|
    requires forall j :: 0 <= j < |OwnerList(v, field, arrayId)| ==>
               OwnerList(w, field, arrayId)[j].field == OwnerList(v, field, arrayId)[j].field &&
               OwnerList(w, field, arrayId)[j].content == OwnerList(v, field, arrayId)[j].content
    ensures Resolve(w, field, arrayId) == Resolve(v, field, arrayId)
  {
    var lv, lw := OwnerList(v, field, arrayId), OwnerList(w, field, arrayId);
    assert forall j :: 0 <= j < |lv| ==> (Matches(v, field, arrayId, lv[j]) <==> Matches(w, field, arrayId, lw[j]));
  }

  /** Adding a source to an existing reference and then deleting it at its index restores
      the form value (for the appointment branch the reference must not have been empty). */
  lemma AddThenDeleteRestores(v: CareerValue, src: Source, del: Source, field: string, arrayId: Option<nat>)
    requires src.referenceType.Some? && del.referenceType.None?
    requires Resolve(v, field, arrayId).Some?
    requires OwnerOf(field, arrayId) == AppointmentList ==> |SourcesOf(v, field, arrayId)| > 0
    ensures var n := |SourcesOf(v, field, arrayId)|;
            var w := Apply(v, src, field, arrayId, None);
            SourceIdInRange(w, field, arrayId, Some(n)) && Apply(w, del, field, arrayId, Some(n)) == v
  {
    var i := Resolve(v, field, arrayId).value;
    var list := OwnerList(v, field, arrayId);
    var s := list[i].sources;
    var n := |s|;
    ResolvedNeverThrows(v, field, arrayId);
    var w := Apply(v, src, field, arrayId, None);
    ApplyOwnerList(v, src, field, arrayId, None);
    ApplyTouchesOnlyOwner(v, src, field, arrayId, None);
    var listW := OwnerList(w, field, arrayId);
    assert listW == list[i := list[i].(sources := s + [src])];
    ResolveSameKeys(v, w, field, arrayId);
    assert SourceIdInRange(w, field, arrayId, Some(n));
    ResolvedNeverThrows(w, field, arrayId);
    var u := Apply(w, del, field, arrayId, Some(n));
    ApplyOwnerList(w, del, field, arrayId, Some(n));
    ApplyTouchesOnlyOwner(w, del, field, arrayId, Some(n));
    var s2 := SourcesAfter(s + [src], DeleteOp(n), del);
    assert s2 == s;
    assert OwnerList(u, field, arrayId) == list;
    match OwnerOf(field, arrayId)
    case RootList =>
    case AppointmentList =>
    case CertList(c) =>
      assert u.certsToField == v.certsToField by {
        assert u.certsToField[c] == v.certsToField[c];
      }
  }

  /** An appointment reference created by an add is removed again by deleting its only
      source: the appointment list is back to what it was. */
  lemma AppointmentCreateThenDeleteRestores(v: CareerValue, src: Source, del: Source, field: string, arrayId: Option<nat>)
    requires field == Rank || field == Position
    requires src.referenceType.Some? && del.referenceType.None?
    requires Resolve(v, field, arrayId).None?
    ensures var w := Apply(v, src, field, arrayId, None);
            SourceIdInRange(w, field, arrayId, Some(0)) && Apply(w, del, field, arrayId, Some(0)) == v
  {
    var list := v.appointment.references;
    var w := Apply(v, src, field, arrayId, None);
    CreateAppendsToOwner(v, src, field, arrayId, None);
    var listW := w.appointment.references;
    assert listW == list + [NewReference(field, src)];
    assert Matches(w, field, arrayId, listW[|list|]);
    assert forall j :: 0 <= j < |list| ==> listW[j] == list[j];
    var u := Apply(w, del, field, arrayId, Some(0));
    assert u.appointment.references == listW[..|list|];
    assert listW[..|list|] == list;
  }

  /** Outside the appointment the emptied reference stays: adding the first source of
      "company" and deleting it leaves `{field: "company", content: "", sources: []}`. */
  lemma RootKeepsEmptiedReference()
    ensures var v := CareerValue([], Appointment("", "", []), [], []);
            var src := Source(Some("Document"), "2022-11-11", "");
            var w := Apply(v, src, "company", None, None);
            SourceIdInRange(w, "company", None, Some(0)) &&
            Apply(w, DefaultSource, "company", None, Some(0)).references == [Reference("company", "", [])]
  {
    var v := CareerValue([], Appointment("", "", []), [], []);
    var src := Source(Some("Document"), "2022-11-11", "");
    assert Resolve(v, "company", None) == None;
    var w := Apply(v, src, "company", None, None);
    assert w.references == [Reference("company", "", [src])];
    assert Resolve(w, "company", None) == Some(0) by {
      assert Matches(w, "company", None, w.references[0]);
    }
  }

  /** After an add or an update (a submitted source has a type) the field's reference
      resolves again and has at least one source, unless it is a "skills" reference that
      had to be created: that one is created with content "" and is not found again by
      the skill's text. */
  lemma SubmittedSourceIsShown(v: CareerValue, src: Source, field: string, arrayId: Option<nat>, sourceId: Option<nat>)
    requires src.referenceType.Some?
    requires SourceIdInRange(v, field, arrayId, sourceId)
    requires !Throws(v, field, arrayId)
    requires Resolve(v, field, arrayId).None? ==> field != Skills
    ensures |SourcesOf(Apply(v, src, field, arrayId, sourceId), field, arrayId)| > 0
  {
    var w := Apply(v, src, field, arrayId, sourceId);
    var list := OwnerList(v, field, arrayId);
    var listW := OwnerList(w, field, arrayId);
    ApplyOwnerList(v, src, field, arrayId, sourceId);
    ApplyTouchesOnlyOwner(v, src, field, arrayId, sourceId);
    match Resolve(v, field, arrayId)
    case Some(i) =>
      var s := SourcesAfter(list[i].sources, OpKind(src, sourceId), src);
      assert |s| > 0;
      assert listW == list[i := list[i].(sources := s)];
      ResolveSameKeys(v, w, field, arrayId);
    case None =>
      assert listW == list + [NewReference(field, src)];
      assert Matches(w, field, arrayId, listW[|list|]);
      assert forall j :: 0 <= j < |list| ==> listW[j] == list[j];
  }

  // ---------------------------------------------------------------------------
  // Scenarios.
  // ---------------------------------------------------------------------------

  /** Deleting source 1 of a "rank" reference with two sources keeps the reference with
      its source 0 only. */
  lemma RankDeleteSecondOfTwo(s0: Source, s1: Source, other: seq<Reference>)
    ensures var v := CareerValue(other, Appointment("", "", [Reference(Rank, "", [s0, s1])]), [], []);
            SourceIdInRange(v, Rank, None, Some(1)) &&
            Apply(v, DefaultSource, Rank, None, Some(1)).appointment.references == [Reference(Rank, "", [s0])]
  {
    var v := CareerValue(other, Appointment("", "", [Reference(Rank, "", [s0, s1])]), [], []);
    assert Resolve(v, Rank, None) == Some(0);
    assert SourcesAfter([s0, s1], DeleteOp(1), DefaultSource) == [s0];
  }

  /** Deleting the only source of a "rank" reference removes the reference. */
  lemma RankDeleteOnlySource(s0: Source, other: seq<Reference>)
    ensures var v := CareerValue(other, Appointment("", "", [Reference(Rank, "", [s0])]), [], []);
            SourceIdInRange(v, Rank, None, Some(0)) &&
            Apply(v, DefaultSource, Rank, None, Some(0)).appointment.references == []
  {
    var v := CareerValue(other, Appointment("", "", [Reference(Rank, "", [s0])]), [], []);
    assert Resolve(v, Rank, None) == Some(0);
  }

  /** Editing a skill's text outside the synchroniser leaves the reference's content
      stale: the reference is no longer found, and an add creates a second "skills"
      reference with content "". */
  lemma StaleSkillSnapshot(s0: Source, src: Source)
    requires src.referenceType.Some?
    ensures var v := CareerValue([Reference(Skills, "Welding", [s0])], Appointment("", "", []), [], ["Advanced Welding"]);
            Resolve(v, Skills, Some(0)).None? &&
            Apply(v, src, Skills, Some(0), None).references ==
              [Reference(Skills, "Welding", [s0]), Reference(Skills, "", [src])]
  {
    var v := CareerValue([Reference(Skills, "Welding", [s0])], Appointment("", "", []), [], ["Advanced Welding"]);
    assert !Matches(v, Skills, Some(0), v.references[0]);
  }

  /** Two adds on the same non-empty skill create two "skills" references: the first is
      created with content "" and so is not found again by the skill's text. */
  lemma SkillAddedTwiceDuplicates(s1: Source, s2: Source)
    requires s1.referenceType.Some? && s2.referenceType.Some?
    ensures var v := CareerValue([], Appointment("", "", []), [], ["A"]);
            var w := Apply(v, s1, Skills, Some(0), None);
            Apply(w, s2, Skills, Some(0), None).references ==
              [Reference(Skills, "", [s1]), Reference(Skills, "", [s2])]
  {
    var v := CareerValue([], Appointment("", "", []), [], ["A"]);
    assert Resolve(v, Skills, Some(0)).None?;
    var w := Apply(v, s1, Skills, Some(0), None);
    assert w.references == [Reference(Skills, "", [s1])];
    assert !Matches(w, Skills, Some(0), w.references[0]);
  }
}
