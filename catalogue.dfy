/** The classifier's feature catalogue: the 22 mushroom attributes, their
    column names and training order, and the subset the form asks for. */
module Catalogue {

  datatype Feature =
    | CapShape | CapSurface | CapColor | Bruises | Odor | GillAttachment
    | GillSpacing | GillSize | GillColor | StalkShape | StalkRoot
    | StalkSurfaceAboveRing | StalkSurfaceBelowRing | StalkColorAboveRing
    | StalkColorBelowRing | VeilType | VeilColor | RingNumber | RingType
    | SporePrintColor | Population | Habitat

  /** The column name of a feature, as the training data spells it. */
  function Name(f: Feature): string
  {
    match f
    case CapShape => "cap-shape"
    case CapSurface => "cap-surface"
    case CapColor => "cap-color"
    case Bruises => "bruises"
    case Odor => "odor"
    case GillAttachment => "gill-attachment"
    case GillSpacing => "gill-spacing"
    case GillSize => "gill-size"
    case GillColor => "gill-color"
    case StalkShape => "stalk-shape"
    case StalkRoot => "stalk-root"
    case StalkSurfaceAboveRing => "stalk-surface-above-ring"
    case StalkSurfaceBelowRing => "stalk-surface-below-ring"
    case StalkColorAboveRing => "stalk-color-above-ring"
    case StalkColorBelowRing => "stalk-color-below-ring"
    case VeilType => "veil-type"
    case VeilColor => "veil-color"
    case RingNumber => "ring-number"
    case RingType => "ring-type"
    case SporePrintColor => "spore-print-color"
    case Population => "population"
    case Habitat => "habitat"
  }

  /** Every feature, in training order: the column order of the classifier's input. */
  const AllFeatures: seq<Feature> := [
    CapShape, CapSurface, CapColor, Bruises, Odor, GillAttachment,
    GillSpacing, GillSize, GillColor, StalkShape, StalkRoot,
    StalkSurfaceAboveRing, StalkSurfaceBelowRing, StalkColorAboveRing,
    StalkColorBelowRing, VeilType, VeilColor, RingNumber, RingType,
    SporePrintColor, Population, Habitat
  ]

  /** The features the form asks the user for; every other feature is zero-filled. */
  const SelectedFeatures: seq<Feature> := [
    Bruises, GillSize, GillSpacing, GillColor,
    StalkSurfaceBelowRing, VeilColor, RingType, Population, Habitat
  ]

  /** No element occurs twice in the sequence. */
  predicate Distinct<T(==)>(s: seq<T>)
  {
    forall i, j :: 0 <= i < j < |s| ==> s[i] != s[j]
  }

  /** The column of a feature in the catalogue. */
  function Position(f: Feature): (i: nat)
    ensures i < |AllFeatures| && AllFeatures[i] == f
  {
    match f
    case CapShape => 0
    case CapSurface => 1
    case CapColor => 2
    case Bruises => 3
    case Odor => 4
    case GillAttachment => 5
    case GillSpacing => 6
    case GillSize => 7
    case GillColor => 8
    case StalkShape => 9
    case StalkRoot => 10
    case StalkSurfaceAboveRing => 11
    case StalkSurfaceBelowRing => 12
    case StalkColorAboveRing => 13
    case StalkColorBelowRing => 14
    case VeilType => 15
    case VeilColor => 16
    case RingNumber => 17
    case RingType => 18
    case SporePrintColor => 19
    case Population => 20
    case Habitat => 21
  }

  /** The catalogue lists every feature exactly once, 22 in all. */
  lemma CatalogueComplete()
    ensures |AllFeatures| == 22 && Distinct(AllFeatures)
    ensures forall f: Feature :: f in AllFeatures
  {
    forall f: Feature
      ensures f in AllFeatures
    {
      var _ := Position(f);
    }
  }

  /** Distinct features have distinct column names. */
  lemma NameInjective(f: Feature, g: Feature)
    requires Name(f) == Name(g)
    ensures f == g
  {
  }
}
