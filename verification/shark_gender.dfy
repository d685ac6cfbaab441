/** The closed set of identities a user can pick for the shark
    (`SharkGender` with its raw value, label and display colour). */
module Gender {
  import opened Wrappers

  datatype SharkGender = Masc | Fem | Nonbinary

  /** The display colour, kept as an abstract tag. */
  datatype Color = Blue | Pink | Green

  /** `SharkGender.allCases`, in declaration order. */
  const AllCases: seq<SharkGender> := [Masc, Fem, Nonbinary]

  /** The `String` raw value the enum derives from its case names. */
  function RawValue(g: SharkGender): string
  {
    match g
    case Masc => "masc"
    case Fem => "fem"
    case Nonbinary => "nonbinary"
  }

  /** The failable `init?(rawValue:)` that `Codable` decoding relies on. */
  function FromRawValue(s: string): (r: Option<SharkGender>)
    ensures r.Some? ==> RawValue(r.value) == s
    ensures r.None? ==> forall g :: RawValue(g) != s
  {
    if s == "masc" then Some(Masc)
    else if s == "fem" then Some(Fem)
    else if s == "nonbinary" then Some(Nonbinary)
    else None
  }

  /** `Identifiable.id`: the raw value, which identifies the case. */
  function Id(g: SharkGender): (id: string)
    ensures FromRawValue(id) == Some(g)
  {
    RawValue(g)
  }

  function Label(g: SharkGender): string
  {
    match g
    case Masc => "Masc"
    case Fem => "Femme"
    case Nonbinary => "Nonbinary"
  }

  function ColorOf(g: SharkGender): Color
  {
    match g
    case Masc => Blue
    case Fem => Pink
    case Nonbinary => Green
  }

  lemma AllCasesExact(g: SharkGender)
    ensures g in AllCases
    ensures |AllCases| == 3
    ensures AllCases[0] != AllCases[1] && AllCases[0] != AllCases[2] && AllCases[1] != AllCases[2]
  {
  }

  lemma RawValueRoundTrip(g: SharkGender)
    ensures FromRawValue(RawValue(g)) == Some(g)
  {
  }

  lemma IdsDistinct(g: SharkGender, h: SharkGender)
    requires g != h
    ensures Id(g) != Id(h)
  {
  }

  lemma LabelsDistinct(g: SharkGender, h: SharkGender)
    requires g != h
    ensures Label(g) != Label(h)
  {
  }

  lemma ColorsDistinct(g: SharkGender, h: SharkGender)
    requires g != h
    ensures ColorOf(g) != ColorOf(h)
  {
  }
}
