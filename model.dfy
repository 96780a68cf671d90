/** The career record as far as references are concerned: sources, references and the
    three places that hold lists of references (root, appointment, each certification). */
module Model {

  datatype Option<+T> = None | Some(value: T)

  /** One attestation of a field's value. `referenceType` is undefined while the source
      form has no type selected; an undefined type is what signals a deletion. */
  datatype Source = Source(referenceType: Option<string>, dateObtained: string, comment: string)

  /** Binds a field name (and a content snapshot) to an ordered list of sources. */
  datatype Reference = Reference(field: string, content: string, sources: seq<Source>)

  /** The singular nested object `appointment`; its own fields are referenced in its own list. */
  datatype Appointment = Appointment(position: string, rank: string, references: seq<Reference>)

  /** One element of the certification array `certsToField`; each owns its reference list. */
  datatype Cert = Cert(name: string, issuedBy: string, references: seq<Reference>)

  /** The parts of the career form value that reference synchronisation reads or writes. */
  datatype CareerValue = CareerValue(
    references: seq<Reference>,
    appointment: Appointment,
    certsToField: seq<Cert>,
    skills: seq<string>)

  const Rank: string := "rank"
  const Position: string := "position"
  const Name: string := "name"
  const IssuedBy: string := "issuedBy"
  const Skills: string := "skills"

  /** The source form's default values (and what `reset()` restores). */
  const DefaultSource: Source := Source(None, "2022-11-11T12:19:54.52", "")
}
