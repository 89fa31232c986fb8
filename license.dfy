/** The licence a capsule's content is published under (src/config/license.rs):
    seven Creative Commons variants and a free-form one. */
module Licenses {
  import opened Text

  datatype License =
    | CcBy
    | CcBySa
    | CcByNc
    | CcByNcSa
    | CcByNd
    | CcByNcNd
    | CcZero
    | Other(name: string)

  /** `impl Display for License`. */
  function Display(l: License): string {
    match l
    case CcBy => "CC BY"
    case CcBySa => "CC BY-SA"
    case CcByNc => "CC BY-NC"
    case CcByNcSa => "CC BY-NC-SA"
    case CcByNd => "CC BY-ND"
    case CcByNcNd => "CC BY-NC-ND"
    case CcZero => "CC Zero"
    case Other(s) => s
  }

  /** `impl From<&str> for License`: total; anything unrecognised is kept as
      `Other`. */
  function FromStr(s: string): License {
    if s == "CcBy" || s == "ccby" then CcBy
    else if s == "CcBySa" || s == "ccbysa" then CcBySa
    else if s == "CcByNc" || s == "ccbync" then CcByNc
    else if s == "CcByNcSa" || s == "ccbyncsa" then CcByNcSa
    else if s == "CcByNd" || s == "ccbynd" then CcByNd
    else if s == "CcByNcNd" || s == "ccbyncnd" then CcByNcNd
    else if s == "CcZero" || s == "cczero" || s == "Cc0" || s == "cc0" then CcZero
    else Other(s)
  }

  /** The variant's name as written in the source. */
  function VariantName(l: License): string
    requires !l.Other?
  {
    match l
    case CcBy => "CcBy"
    case CcBySa => "CcBySa"
    case CcByNc => "CcByNc"
    case CcByNcSa => "CcByNcSa"
    case CcByNd => "CcByNd"
    case CcByNcNd => "CcByNcNd"
    case CcZero => "CcZero"
  }

  /** The lower-case spelling of each variant name. */
  function LowerName(l: License): string
    requires !l.Other?
  {
    match l
    case CcBy => "ccby"
    case CcBySa => "ccbysa"
    case CcByNc => "ccbync"
    case CcByNcSa => "ccbyncsa"
    case CcByNd => "ccbynd"
    case CcByNcNd => "ccbyncnd"
    case CcZero => "cczero"
  }

  lemma LowerNameIsLowerCase(l: License)
    requires !l.Other?
    ensures LowerName(l) == ToLower(VariantName(l))
  {
    var name, lower := VariantName(l), LowerName(l);
    assert |name| == |lower|;
    forall i | 0 <= i < |name| ensures lower[i] == ToLowerChar(name[i]) {
    }
  }

  /** The strings `FromStr` reads as a given Creative Commons variant. */
  function Spellings(l: License): set<string>
    requires !l.Other?
  {
    if l == CcZero then {VariantName(l), LowerName(l), "Cc0", "cc0"}
    else {VariantName(l), LowerName(l)}
  }

  /** Every variant is read from its CamelCase name and from that name in
      lower case. */
  lemma FromStrReadsNames(l: License)
    requires !l.Other?
    ensures FromStr(VariantName(l)) == l && FromStr(ToLower(VariantName(l))) == l
  {
    FromStrReadsSpellings(l, VariantName(l));
    FromStrReadsSpellings(l, LowerName(l));
    LowerNameIsLowerCase(l);
  }

  /** A variant is read from exactly its spellings (for `CcZero` also `Cc0` and
      `cc0`). */
  lemma FromStrReadsSpellings(l: License, s: string)
    requires !l.Other?
    ensures FromStr(s) == l <==> s in Spellings(l)
  {
    match l
    case CcBy => assert Spellings(l) == {"CcBy", "ccby"};
    case CcBySa => assert Spellings(l) == {"CcBySa", "ccbysa"};
    case CcByNc => assert Spellings(l) == {"CcByNc", "ccbync"};
    case CcByNcSa => assert Spellings(l) == {"CcByNcSa", "ccbyncsa"};
    case CcByNd => assert Spellings(l) == {"CcByNd", "ccbynd"};
    case CcByNcNd => assert Spellings(l) == {"CcByNcNd", "ccbyncnd"};
    case CcZero => assert Spellings(l) == {"CcZero", "cczero", "Cc0", "cc0"};
  }

  /** Any other string becomes `Other` holding it verbatim, and displays as
      itself. */
  lemma FromStrOther(s: string)
    requires forall l: License :: !l.Other? ==> s !in Spellings(l)
    ensures FromStr(s) == Other(s)
    ensures Display(FromStr(s)) == s
  {
    assert s !in Spellings(CcBy) && s !in Spellings(CcBySa) && s !in Spellings(CcByNc);
    assert s !in Spellings(CcByNcSa) && s !in Spellings(CcByNd) && s !in Spellings(CcByNcNd);
    assert s !in Spellings(CcZero);
  }

  /** The Creative Commons labels are distinct, so a label names its variant. */
  lemma DisplayDistinct(a: License, b: License)
    requires !a.Other? && !b.Other? && a != b
    ensures Display(a) != Display(b)
  {
  }

  /** An `Other` licence round-trips through its display text unless that text
      is one of the reserved spellings. */
  lemma OtherRoundTrip(s: string)
    requires forall l: License :: !l.Other? ==> s !in Spellings(l)
    ensures FromStr(Display(Other(s))) == Other(s)
  {
    FromStrOther(s);
  }
}
