# Reference synchronisation of the career history form

This project models, in Dafny, how the career history form of an HR data-entry
interface attaches evidence sources to form fields. It then proves properties of that model.

A career record keeps lists of references `{field, content, sources}` in three places:
- the root `references` list;
- `appointment.references`;
- each certification's `certsToField[i].references`.

Each source is `{referenceType, dateObtained, comment}`.

The model covers two parts:

- **The synchroniser** `updateReference` (`hooks.dfy`, module `Hooks`). The class
  `CareerForm` holds the live form value as sequence fields. Its method
  `UpdateReference` goes through the same steps as the code:
  1. resolve the field's reference;
  2. choose one of four ownership branches (appointment, skills, certification element, root);
  3. push, assign or splice one source;
  4. create, replace or drop the reference;
  5. copy and write back the certification array.

  The method is proved to produce `Apply(old value, …)`, a specification function.
  The lemmas about `Apply` are in `hooks_properties.dfy` (module `HooksProperties`).
- **The reference panel** (`panel.dfy`, module `Panel`). The class `ReferencesPanel` holds
  `popupMode`, `sourceId`, `lastSource`, `showCommentsInput` and the source form. Each
  method is one event handler, and the handlers route into `CareerForm.UpdateReference`.

`model.dfy` (module `Model`) holds the data types, the field-name constants and the
source form's default values.

The resolver `getExistingReference` (in `./utils`) is not part of this model. The model
*assumes* how it behaves: it returns the index of the first matching reference in the
list that owns the field. Matching works as follows:
- `"rank"`/`"position"` match by name in `appointment.references`;
- `"name"`/`"issuedBy"` with an array index match by name in `certsToField[arrayId].references`;
- every other field matches by name in the root list;
- `"skills"` must also match on content: `content` must equal `skills[arrayId]`. Without an
  index, or when the index points past the skills list, nothing matches.

Returning an index stands in for the code's `indexOf(existingReference)` on that same list.

The form's default values use the key `certs` (CareerHistoryForm.tsx:43). The synchroniser
reads and writes `certsToField` (hooks.ts:104, 120). This model uses `certsToField`
throughout.

## Model

Source paths are relative to the repository root.

| member | source | states |
|---|---|---|
| Hooks.OwnerOf | src/pages/EmployeeInfo/components/CareerHistoryForm/components/References/hooks.ts:32-34 | a field is owned by the appointment exactly when it is "rank"/"position"; by certification element `i` exactly when it is "name"/"issuedBy" with `arrayId = i`; otherwise by the root list |
| Hooks.FindRef | src/pages/EmployeeInfo/components/CareerHistoryForm/components/References/hooks.ts:63-65 | the `indexOf`-style search: the result matches the key and no earlier entry does; None means no entry matches |
| Hooks.Resolve | src/pages/EmployeeInfo/components/CareerHistoryForm/components/References/hooks.ts:26-30 | (assumed resolver) the result is an index into the owning list, of the first reference that matches; None means no reference matches |
| Hooks.SourcesOf | src/pages/EmployeeInfo/components/CareerHistoryForm/components/References/ReferencesPanel/ReferencesPanel.tsx:75-81 | `existingReference?.sources ?? []`: no sources when no reference resolves; otherwise exactly the sources of the first matching reference in the owning list |
| Hooks.OpKind | src/pages/EmployeeInfo/components/CareerHistoryForm/components/References/hooks.ts:40-45 | add iff a type is set and there is no `sourceId`; update iff both are set; delete iff the type is undefined and `sourceId` is set; nothing otherwise; update and delete carry `sourceId` |
| Hooks.SourcesAfter | src/pages/EmployeeInfo/components/CareerHistoryForm/components/References/hooks.ts:47-56 | add gives length +1, keeps the old prefix and puts the source last; update keeps the length and changes exactly `sources[k]`; delete gives length −1 and keeps the sources before `k` and after `k` in order; no-op keeps the list |
| Hooks.UpdateExistingSources | src/pages/EmployeeInfo/components/CareerHistoryForm/components/References/hooks.ts:38-58 | doing push / index assignment / splice gives `SourcesAfter` of the classified operation |
| Hooks.BranchOf | src/pages/EmployeeInfo/components/CareerHistoryForm/components/References/hooks.ts:32-36 | exactly one branch per call, in source order: "rank"/"position" first; then "skills" with an existing reference and an index; then "name"/"issuedBy" with an index; otherwise root, which also catches "skills" with no reference |
| Hooks.ListAfter | src/pages/EmployeeInfo/components/CareerHistoryForm/components/References/hooks.ts:61-145 | no reference: new `{field, "", [source]}` appended at the end, older entries unchanged; otherwise the reference at the same index gets the new sources and the others stay; with `dropEmpty`, a reference left empty is removed and the rest keep their order |
| Hooks.Throws | src/pages/EmployeeInfo/components/CareerHistoryForm/components/References/hooks.ts:104-111 | the call throws (`certsToField[arrayId]` is undefined) exactly when the field is "name"/"issuedBy", an index is given, and that index is past the end of the certification array |
| Hooks.Apply | src/pages/EmployeeInfo/components/CareerHistoryForm/components/References/hooks.ts:15-146 | the value-level specification of `updateReference`: the skills, the appointment's own fields and the certification array's length are kept, and a throwing call returns the value unchanged; its other properties are the HooksProperties lemmas below |
| Hooks.CareerForm.UpdateReference | src/pages/EmployeeInfo/components/CareerHistoryForm/components/References/hooks.ts:15-146 | the new form value is `Apply(old value, …)`; the call throws exactly when `certsToField[arrayId]` does not exist, and then nothing is written |
| HooksProperties.ApplyOwnerList | src/pages/EmployeeInfo/components/CareerHistoryForm/components/References/hooks.ts:61-145 | the owning list after the call is `ListAfter` of the old list; only the appointment list drops emptied references |
| HooksProperties.ApplyTouchesOnlyOwner | src/pages/EmployeeInfo/components/CareerHistoryForm/components/References/hooks.ts:103-122 | only the owning partition changes; every other certification element keeps its old value and the array keeps its length; the skills and the appointment's own fields are kept |
| HooksProperties.ResolvedNeverThrows | src/pages/EmployeeInfo/components/CareerHistoryForm/components/References/hooks.ts:104-107 | a resolved reference is never in a missing certification element, so the call does not throw |
| HooksProperties.CreateAppendsToOwner | src/pages/EmployeeInfo/components/CareerHistoryForm/components/References/hooks.ts:76-143 | with no reference, whatever the operation, the owning list becomes the old list plus `{field, "", [source]}` |
| HooksProperties.AppointmentDropsEmptied | src/pages/EmployeeInfo/components/CareerHistoryForm/components/References/hooks.ts:62-75 | appointment branch: the reference is removed, the others keeping their order, iff no source is left; otherwise it is replaced at the same index |
| HooksProperties.OtherBranchesKeepReference | src/pages/EmployeeInfo/components/CareerHistoryForm/components/References/hooks.ts:94-131 | root, skills and certification branches replace the reference at its old index and never remove it, even with no sources left |
| HooksProperties.ListAfterKeepsSkillContents | src/pages/EmployeeInfo/components/CareerHistoryForm/components/References/hooks.ts:61-145 | a list update adds only a reference with content "" and keeps every other field and content, so two "skills" references never come to share a non-empty content |
| HooksProperties.ApplyKeepsStoreInvariant | src/pages/EmployeeInfo/components/CareerHistoryForm/components/References/hooks.ts:61-145 | each call keeps these true: one reference per field in each list; in the root list "skills" may repeat, but no two "skills" references share a non-empty content; no empty appointment reference |
| HooksProperties.AddThenDeleteRestores | src/pages/EmployeeInfo/components/CareerHistoryForm/components/References/hooks.ts:47-75 | adding a source to an existing reference, then deleting it at its new index, gives back the original form value |
| HooksProperties.AppointmentCreateThenDeleteRestores | src/pages/EmployeeInfo/components/CareerHistoryForm/components/References/hooks.ts:62-88 | a newly created appointment reference is removed again when its only source is deleted |
| HooksProperties.RootKeepsEmptiedReference | src/pages/EmployeeInfo/components/CareerHistoryForm/components/References/hooks.ts:125-144 | adding and then deleting the first source of "company" leaves `{company, "", []}` in the root list |
| HooksProperties.SubmittedSourceIsShown | src/pages/EmployeeInfo/components/CareerHistoryForm/components/References/hooks.ts:61-145 | after an add or update the field resolves to a reference with at least one source ("skills" must already have had a reference) |
| HooksProperties.RankDeleteSecondOfTwo | src/pages/EmployeeInfo/components/CareerHistoryForm/components/References/hooks.ts:61-75 | deleting source 1 of "rank" with two sources keeps the reference with source 0 only |
| HooksProperties.RankDeleteOnlySource | src/pages/EmployeeInfo/components/CareerHistoryForm/components/References/hooks.ts:67-70 | deleting the only source of "rank" removes the reference |
| HooksProperties.StaleSkillSnapshot | src/pages/EmployeeInfo/components/CareerHistoryForm/components/References/hooks.ts:35-36 | a skills reference whose content is stale is not found, and an add creates a second "skills" reference with content "" |
| HooksProperties.SkillAddedTwiceDuplicates | src/pages/EmployeeInfo/components/CareerHistoryForm/components/References/hooks.ts:125-144 | two adds on the skill "A" with no reference yet create two `{skills, "", …}` references, because the first is created with content "" and is not found again |
| Panel.ReferencesPanel.ExistingSources | src/pages/EmployeeInfo/components/CareerHistoryForm/components/References/ReferencesPanel/ReferencesPanel.tsx:75-81 | the list the panel shows and counts: none when no reference resolves for its field; otherwise the sources of the reference at the resolved index of the owning list |
| Panel.ReferencesPanel.constructor | src/pages/EmployeeInfo/components/CareerHistoryForm/components/References/ReferencesPanel/ReferencesPanel.tsx:60-86 | the panel opens in read mode iff the resolved reference has a source; no selection, no last source, form at its defaults |
| Panel.ReferencesPanel.ApplySources | src/pages/EmployeeInfo/components/CareerHistoryForm/components/References/ReferencesPanel/ReferencesPanel.tsx:155-166 | only in edit mode (Apply is disabled in read mode, line 267); an invalid form does nothing; no selection means add and a selection means update; afterwards `lastSource` = the submitted data, form reset, selection cleared, mode read |
| Panel.ReferencesPanel.EditSource | src/pages/EmployeeInfo/components/CareerHistoryForm/components/References/ReferencesPanel/ReferencesPanel.tsx:126-143 | selects `id`, loads `sources[id]`'s type, date and comment into the form, mode edit |
| Panel.ReferencesPanel.DeleteSource | src/pages/EmployeeInfo/components/CareerHistoryForm/components/References/ReferencesPanel/ReferencesPanel.tsx:145-153 | forwards the form's values with `sourceId = id`, then resets the form; a delete exactly when the form has no type, an update otherwise |
| Panel.ReferencesPanel.ApplyLastSource | src/pages/EmployeeInfo/components/CareerHistoryForm/components/References/ReferencesPanel/ReferencesPanel.tsx:101-111 | no last source: nothing changes; otherwise copies type and date; copies the comment and shows the comment input only when the comment is non-empty |
| Panel.ReferencesPanel.FillForm | src/pages/EmployeeInfo/components/CareerHistoryForm/components/References/ReferencesPanel/ReferencesPanel.tsx:195-206 | the form inputs, present only in edit mode, set the form's values |
| Panel.ReferencesPanel.ShowComment | src/pages/EmployeeInfo/components/CareerHistoryForm/components/References/ReferencesPanel/ReferencesPanel.tsx:207-218 | the "Comment" button shows the comment input and changes nothing else |
| Panel.ReferencesPanel.AddSource | src/pages/EmployeeInfo/components/CareerHistoryForm/components/References/ReferencesPanel/ReferencesPanel.tsx:172-179 | read→edit, offered only when sources exist; form and selection are kept |
| Panel.ReferencesPanel.Cancel | src/pages/EmployeeInfo/components/CareerHistoryForm/components/References/ReferencesPanel/ReferencesPanel.tsx:249-257 | edit→read, shown in edit mode and disabled with no sources; the form and the selection stay loaded (as written) |
| Panel.ReferencesPanel.CancelAndReset | src/pages/EmployeeInfo/components/CareerHistoryForm/components/References/ReferencesPanel/ReferencesPanel.tsx:249-257 | corrected cancel: edit→read with the form reset and the selection cleared, so read mode is pristine |
| Panel.ReferencesPanel.HandleClosePanel | src/pages/EmployeeInfo/components/CareerHistoryForm/components/References/ReferencesPanel/ReferencesPanel.tsx:88-99 | dispatches the reset of the reference state and changes nothing else |
| Panel.DeleteAfterCancel | src/pages/EmployeeInfo/components/CareerHistoryForm/components/References/ReferencesPanel/ReferencesPanel.tsx:145-153 | as written: edit 0, cancel, delete 1 on `[s0, s1]` leaves `[s0, s0]` |
| Panel.DeleteAfterCancelAndReset | src/pages/EmployeeInfo/components/CareerHistoryForm/components/References/ReferencesPanel/ReferencesPanel.tsx:145-153 | with the corrected cancel the same steps leave `[s0]` |
| Panel.AddAfterCancel | src/pages/EmployeeInfo/components/CareerHistoryForm/components/References/ReferencesPanel/ReferencesPanel.tsx:155-166 | as written: edit 0, cancel, add s2 on `[s0, s1]` leaves `[s2, s1]` |
| Panel.AddAfterCancelAndReset | src/pages/EmployeeInfo/components/CareerHistoryForm/components/References/ReferencesPanel/ReferencesPanel.tsx:155-166 | with the corrected cancel the same steps leave `[s0, s1, s2]` |
| Panel.StaleSelectionAfterCancel | src/pages/EmployeeInfo/components/CareerHistoryForm/components/References/ReferencesPanel/ReferencesPanel.tsx:249-257 | as written: edit 1, cancel, delete 1 twice, "+" on `[s0, s1]` leaves source 1 selected with one source left |
| Panel.ReferencesPanel.DeleteSourceAndReopen | src/pages/EmployeeInfo/components/CareerHistoryForm/components/References/ReferencesPanel/ReferencesPanel.tsx:145-153 | corrected delete: the same write as `DeleteSource`, then read mode only while sources are left, otherwise edit mode as at mount (line 85), so `ReadHasSources()` holds |
| Panel.DeleteLastRankSource | src/pages/EmployeeInfo/components/CareerHistoryForm/components/References/ReferencesPanel/ReferencesPanel.tsx:145-153 | as written: deleting the only "rank" source removes the reference and leaves the panel in read mode with no source |
| Panel.DeleteLastCompanySource | src/pages/EmployeeInfo/components/CareerHistoryForm/components/References/ReferencesPanel/ReferencesPanel.tsx:145-153 | as written: deleting the only "company" source leaves `{company, "", []}` and the panel in read mode with no source |
| Panel.DeleteLastRankSourceAndReopen | src/pages/EmployeeInfo/components/CareerHistoryForm/components/References/ReferencesPanel/ReferencesPanel.tsx:145-153 | with the corrected delete the same "rank" steps leave the panel in edit mode |

Panel handlers also leave `ReadIsPristine()` true when it was true before. This predicate
says that in read mode the form holds its defaults and no source is selected. The
constructor, `ApplySources`, `DeleteSource` and `CancelAndReset` are proved to keep it or
establish it. The edit-mode handlers cannot break it. Under it, a delete in read mode is a
real deletion (`DeleteSource`'s last ensures). The as-written `Cancel` is the only handler
that breaks it.

## Left out

- `getExistingReference` (`./utils`) is not part of this model. `Hooks.Resolve` states the
  behaviour assumed of it; its real matching rules are not verified.
- Source index bounds are not checked by the code: `sources[sourceId] = source` past the
  end would grow the array, and `splice` past the end does nothing. The model instead
  makes `0 <= sourceId < |sources|` a precondition (`SourceIdInRange`) of update and delete.
  The as-written Cancel can lead the panel out of this precondition
  (`Panel.StaleSelectionAfterCancel`): the selection then points past the end, and the
  next Apply is not modelled.
- Hooks.CareerForm.UpdateReference: does not model aliasing. The code mutates live objects
  returned by `getValues()`; the model updates one record in place. That gives the same
  final value, because each written-back object is the one that was mutated.
- react-hook-form mechanics are not modelled: `useForm`, `useFormContext`, `setValue`
  re-rendering, `handleSubmit`'s asynchrony and `localStorage` drafts. The `isValid` that
  zod validation computes is an input to `ApplySources`. The model assumes only that a
  valid form has a reference type.
- Panel.ReferencesPanel.HandleClosePanel: the `RESET_ALL` reducer (References2) is not
  shown, so closing only records that the reset was dispatched. The `massAppliedFields`
  branch is empty in the code.
- The panel's `currentField` and `currentArrayId` come from the reference-state context
  and are fixed for a panel's lifetime. A panel that stays mounted while the active
  field changes underneath it is not modelled.
- The mass-apply handler is commented out; ReferencePopup.tsx is dead code. Neither is modelled.
- Rendering, styles, icons, `console.log`, the save call (network) and the date
  `slice(0, 10)` (display only) are not modelled. `dateObtained` and `referenceType` are opaque strings.
- Where the code departs from the behaviour a user would expect of a reference store
  (each field's reference carries the field's value, lives as long as it has sources, and
  appears once), the model follows the code:
  - a new reference gets `content: ""`, not the field's current value;
  - root, skills and certification references that lose their last source are kept with
    an empty source list (`RootKeepsEmptiedReference`). So "no reference without sources"
    holds only in the appointment list, and add-then-delete of a fresh reference restores
    the value only there;
  - an out-of-range source index is not reported: it is a precondition here;
  - a field name outside the ownership table is not reported: it falls through to the root list;
  - an update or delete on a field with no reference creates `{field, "", [source]}`
    (`CreateAppendsToOwner`);
  - two adds on the same skill, with no reference for it yet, create two "skills"
    references with content `""` (`SkillAddedTwiceDuplicates`). So one reference per
    field and content fails for "skills" references with content `""`; among non-empty
    contents it holds and every call keeps it (`ApplyKeepsStoreInvariant`).
- A "skills" reference created by the root branch has content `""`. The resolver therefore
  finds it again only when the skill's text is `""` (`StaleSkillSnapshot`,
  `SubmittedSourceIsShown`). The code's comment says skills references are created by
  StringArrayInput.tsx, which is not part of this model.

## Findings

| source | as written | input that shows it | evidently intended | confidence | as-written member | corrected member |
|---|---|---|---|---|---|---|
| src/pages/EmployeeInfo/components/CareerHistoryForm/components/References/ReferencesPanel/ReferencesPanel.tsx:253 | Cancel only sets read mode; the form keeps the loaded source's type and `sourceId` stays set, so the next delete in read mode forwards a typed source | "company" with `[s0, s1]`: edit source 0, Cancel, delete source 1 → `[s0, s0]` | the delete icon removes `sources[1]` → `[s0]` | medium; not executed | Panel.DeleteAfterCancel | Panel.DeleteAfterCancelAndReset |
| src/pages/EmployeeInfo/components/CareerHistoryForm/components/References/ReferencesPanel/ReferencesPanel.tsx:253 | Cancel leaves `sourceId` set, so an add started with the "+" icon is submitted as an update of that source | "company" with `[s0, s1]`: edit source 0, Cancel, "+", fill s2, Apply → `[s2, s1]` | the add appends → `[s0, s1, s2]` | medium; not executed | Panel.AddAfterCancel | Panel.AddAfterCancelAndReset |
| src/pages/EmployeeInfo/components/CareerHistoryForm/components/References/ReferencesPanel/ReferencesPanel.tsx:152 | `deleteSource` never revisits `popupMode`, which is chosen once at mount (line 85); deleting the last source in read mode leaves read mode with no sources, where the add icon is hidden (line 172), the form and Cancel exist only in edit mode (lines 182, 249) and Apply is disabled (line 267) | "rank" with `[s0]`: delete source 0 → reference removed, read mode, nothing to act on but closing; "company" with `[s0]` likewise with `{company, "", []}` | the panel shows the source form again, as mounting with no sources does | low; not executed | Panel.DeleteLastRankSource | Panel.DeleteLastRankSourceAndReopen |

The first two corrected scenarios use `Panel.ReferencesPanel.CancelAndReset`. It resets the form and
clears the selection, and so re-establishes `ReadIsPristine()`.
The third uses `Panel.ReferencesPanel.DeleteSourceAndReopen`, which keeps
`ReadHasSources()`: read mode is offered only while the field has sources.
