/** The manual label encoding: for each selected feature, the table from
    category label to integer code used at training time. */
module Encoding {
  import opened Catalogue

  // The hand-written code table of each selected feature.
  const BruisesCodes: map<string, int> := map[
    "no bruises" := 0, "bruises" := 1
  ]
  const GillSizeCodes: map<string, int> := map[
    "narrow" := 0, "broad" := 1
  ]
  const GillSpacingCodes: map<string, int> := map[
    "close" := 0, "crowded" := 1, "distant" := 2
  ]
  const GillColorCodes: map<string, int> := map[
    "black" := 0, "brown" := 1, "buff" := 2, "chocolate" := 3, "gray" := 4, "green" := 5,
    "orange" := 6, "pink" := 7, "purple" := 8, "red" := 9, "white" := 10, "yellow" := 11
  ]
  const StalkSurfaceBelowRingCodes: map<string, int> := map[
    "fibrous" := 0, "scaly" := 1, "silky" := 2, "smooth" := 3
  ]
  const VeilColorCodes: map<string, int> := map[
    "brown" := 0, "orange" := 1, "white" := 2, "yellow" := 3
  ]
  const RingTypeCodes: map<string, int> := map[
    "cobwebby" := 0, "evanescent" := 1, "flaring" := 2, "large" := 3, "none" := 4, "pendant" := 5,
    "sheathing" := 6, "zone" := 7
  ]
  const PopulationCodes: map<string, int> := map[
    "abundant" := 0, "clustered" := 1, "numerous" := 2, "scattered" := 3, "several" := 4,
    "solitary" := 5
  ]
  const HabitatCodes: map<string, int> := map[
    "grasses" := 0, "leaves" := 1, "meadows" := 2, "paths" := 3, "urban" := 4, "waste" := 5,
    "woods" := 6
  ]

  /** The code table written for a selected feature. */
  function CodesOf(f: Feature): map<string, int>
  {
    match f
    case Bruises => BruisesCodes
    case GillSize => GillSizeCodes
    case GillSpacing => GillSpacingCodes
    case GillColor => GillColorCodes
    case StalkSurfaceBelowRing => StalkSurfaceBelowRingCodes
    case VeilColor => VeilColorCodes
    case RingType => RingTypeCodes
    case Population => PopulationCodes
    case Habitat => HabitatCodes
    case _ => map[]
  }

  /** The manual label encoding: one code table per selected feature. */
  const LabelEncoders: map<Feature, map<string, int>> := map f | f in SelectedFeatures :: CodesOf(f)

  /** No two labels of the table share a code. */
  predicate Injective(t: map<string, int>)
  {
    forall a, b :: a in t && b in t && a != b ==> t[a] != t[b]
  }

  /** The table assigns each of the codes 0 .. n-1 to exactly one label, and no other code. */
  predicate Dense(t: map<string, int>, n: nat)
  {
    && (forall l :: l in t ==> 0 <= t[l] < n)
    && Injective(t)
    && (forall i :: 0 <= i < n ==> i in t.Values)
  }

  // Each table's density is proved in three parts (range, injectivity, every code
  // used) and then combined in `XDense`; one obligation for all three parts of
  // the larger tables is beyond the solver's budget.
  lemma BruisesRange()
    ensures forall l :: l in BruisesCodes ==> 0 <= BruisesCodes[l] < 2
  {
  }

  lemma BruisesInjective()
    ensures Injective(BruisesCodes)
  {
  }

  lemma BruisesOnto()
    ensures forall i :: 0 <= i < 2 ==> i in BruisesCodes.Values
  {
    assert BruisesCodes["no bruises"] == 0;
    assert BruisesCodes["bruises"] == 1;
  }

  lemma GillSizeRange()
    ensures forall l :: l in GillSizeCodes ==> 0 <= GillSizeCodes[l] < 2
  {
  }

  lemma GillSizeInjective()
    ensures Injective(GillSizeCodes)
  {
  }

  lemma GillSizeOnto()
    ensures forall i :: 0 <= i < 2 ==> i in GillSizeCodes.Values
  {
    assert GillSizeCodes["narrow"] == 0;
    assert GillSizeCodes["broad"] == 1;
  }

  lemma GillSpacingRange()
    ensures forall l :: l in GillSpacingCodes ==> 0 <= GillSpacingCodes[l] < 3
  {
  }

  lemma GillSpacingInjective()
    ensures Injective(GillSpacingCodes)
  {
  }

  lemma GillSpacingOnto()
    ensures forall i :: 0 <= i < 3 ==> i in GillSpacingCodes.Values
  {
    assert GillSpacingCodes["close"] == 0;
    assert GillSpacingCodes["crowded"] == 1;
    assert GillSpacingCodes["distant"] == 2;
  }

  lemma GillColorRange()
    ensures forall l :: l in GillColorCodes ==> 0 <= GillColorCodes[l] < 12
  {
  }

  lemma GillColorInjective()
    ensures Injective(GillColorCodes)
  {
  }

  lemma GillColorOnto()
    ensures forall i :: 0 <= i < 12 ==> i in GillColorCodes.Values
  {
    assert GillColorCodes["black"] == 0;
    assert GillColorCodes["brown"] == 1;
    assert GillColorCodes["buff"] == 2;
    assert GillColorCodes["chocolate"] == 3;
    assert GillColorCodes["gray"] == 4;
    assert GillColorCodes["green"] == 5;
    assert GillColorCodes["orange"] == 6;
    assert GillColorCodes["pink"] == 7;
    assert GillColorCodes["purple"] == 8;
    assert GillColorCodes["red"] == 9;
    assert GillColorCodes["white"] == 10;
    assert GillColorCodes["yellow"] == 11;
  }

  lemma StalkSurfaceBelowRingRange()
    ensures forall l :: l in StalkSurfaceBelowRingCodes ==> 0 <= StalkSurfaceBelowRingCodes[l] < 4
  {
  }

  lemma StalkSurfaceBelowRingInjective()
    ensures Injective(StalkSurfaceBelowRingCodes)
  {
  }

  lemma StalkSurfaceBelowRingOnto()
    ensures forall i :: 0 <= i < 4 ==> i in StalkSurfaceBelowRingCodes.Values
  {
    assert StalkSurfaceBelowRingCodes["fibrous"] == 0;
    assert StalkSurfaceBelowRingCodes["scaly"] == 1;
    assert StalkSurfaceBelowRingCodes["silky"] == 2;
    assert StalkSurfaceBelowRingCodes["smooth"] == 3;
  }

  lemma VeilColorRange()
    ensures forall l :: l in VeilColorCodes ==> 0 <= VeilColorCodes[l] < 4
  {
  }

  lemma VeilColorInjective()
    ensures Injective(VeilColorCodes)
  {
  }

  lemma VeilColorOnto()
    ensures forall i :: 0 <= i < 4 ==> i in VeilColorCodes.Values
  {
    assert VeilColorCodes["brown"] == 0;
    assert VeilColorCodes["orange"] == 1;
    assert VeilColorCodes["white"] == 2;
    assert VeilColorCodes["yellow"] == 3;
  }

  lemma RingTypeRange()
    ensures forall l :: l in RingTypeCodes ==> 0 <= RingTypeCodes[l] < 8
  {
  }

  lemma RingTypeInjective()
    ensures Injective(RingTypeCodes)
  {
  }

  lemma RingTypeOnto()
    ensures forall i :: 0 <= i < 8 ==> i in RingTypeCodes.Values
  {
    assert RingTypeCodes["cobwebby"] == 0;
    assert RingTypeCodes["evanescent"] == 1;
    assert RingTypeCodes["flaring"] == 2;
    assert RingTypeCodes["large"] == 3;
    assert RingTypeCodes["none"] == 4;
    assert RingTypeCodes["pendant"] == 5;
    assert RingTypeCodes["sheathing"] == 6;
    assert RingTypeCodes["zone"] == 7;
  }

  lemma PopulationRange()
    ensures forall l :: l in PopulationCodes ==> 0 <= PopulationCodes[l] < 6
  {
  }

  lemma PopulationInjective()
    ensures Injective(PopulationCodes)
  {
  }

  lemma PopulationOnto()
    ensures forall i :: 0 <= i < 6 ==> i in PopulationCodes.Values
  {
    assert PopulationCodes["abundant"] == 0;
    assert PopulationCodes["clustered"] == 1;
    assert PopulationCodes["numerous"] == 2;
    assert PopulationCodes["scattered"] == 3;
    assert PopulationCodes["several"] == 4;
    assert PopulationCodes["solitary"] == 5;
  }

  lemma HabitatRange()
    ensures forall l :: l in HabitatCodes ==> 0 <= HabitatCodes[l] < 7
  {
  }

  lemma HabitatInjective()
    ensures Injective(HabitatCodes)
  {
  }

  lemma HabitatOnto()
    ensures forall i :: 0 <= i < 7 ==> i in HabitatCodes.Values
  {
    assert HabitatCodes["grasses"] == 0;
    assert HabitatCodes["leaves"] == 1;
    assert HabitatCodes["meadows"] == 2;
    assert HabitatCodes["paths"] == 3;
    assert HabitatCodes["urban"] == 4;
    assert HabitatCodes["waste"] == 5;
    assert HabitatCodes["woods"] == 6;
  }

  /** Every selected feature is catalogued and has a code table, and only those do. */
  lemma SelectedAreEncoded()
    ensures Distinct(SelectedFeatures)
    ensures forall f :: f in SelectedFeatures ==> f in AllFeatures
    ensures LabelEncoders.Keys == set f | f in SelectedFeatures
  {
  }

  /** Each table gives its n labels the distinct codes 0 .. n-1. */
  lemma BruisesDense()
    ensures Dense(BruisesCodes, 2)
  {
    BruisesRange(); BruisesInjective(); BruisesOnto();
  }

  lemma GillSizeDense()
    ensures Dense(GillSizeCodes, 2)
  {
    GillSizeRange(); GillSizeInjective(); GillSizeOnto();
  }

  lemma GillSpacingDense()
    ensures Dense(GillSpacingCodes, 3)
  {
    GillSpacingRange(); GillSpacingInjective(); GillSpacingOnto();
  }

  lemma GillColorDense()
    ensures Dense(GillColorCodes, 12)
  {
    GillColorRange(); GillColorInjective(); GillColorOnto();
  }

  lemma StalkSurfaceBelowRingDense()
    ensures Dense(StalkSurfaceBelowRingCodes, 4)
  {
    StalkSurfaceBelowRingRange(); StalkSurfaceBelowRingInjective(); StalkSurfaceBelowRingOnto();
  }

  lemma VeilColorDense()
    ensures Dense(VeilColorCodes, 4)
  {
    VeilColorRange(); VeilColorInjective(); VeilColorOnto();
  }

  lemma RingTypeDense()
    ensures Dense(RingTypeCodes, 8)
  {
    RingTypeRange(); RingTypeInjective(); RingTypeOnto();
  }

  lemma PopulationDense()
    ensures Dense(PopulationCodes, 6)
  {
    PopulationRange(); PopulationInjective(); PopulationOnto();
  }

  lemma HabitatDense()
    ensures Dense(HabitatCodes, 7)
  {
    HabitatRange(); HabitatInjective(); HabitatOnto();
  }

  /** The number of labels in the table of a selected feature. */
  function TableSize(f: Feature): nat
  {
    match f
    case Bruises => 2
    case GillSize => 2
    case GillSpacing => 3
    case GillColor => 12
    case StalkSurfaceBelowRing => 4
    case VeilColor => 4
    case RingType => 8
    case Population => 6
    case Habitat => 7
    case _ => 0
  }

  /** The encoder holds exactly the selected features, each with the table written for it. */
  lemma EncoderOf(f: Feature)
    requires f in LabelEncoders
    ensures f in SelectedFeatures && LabelEncoders[f] == CodesOf(f)
  {
  }

  // The facts about each encoder entry are split into one lemma for the lookup
  // (`XHeld`) and one that transfers the density of the named table to the entry
  // (`XEncoded`): proving both in one obligation, or for all tables in one
  // lemma, exhausts the solver on the string-literal maps.
  lemma BruisesHeld(f: Feature)
    requires f == Bruises
    ensures f in LabelEncoders && LabelEncoders[f] == BruisesCodes && TableSize(f) == 2
  {
  }

  lemma BruisesEncoded(f: Feature)
    requires f == Bruises
    ensures f in LabelEncoders && Dense(LabelEncoders[f], TableSize(f))
  {
    BruisesDense();
    BruisesHeld(f);
  }

  lemma GillSizeHeld(f: Feature)
    requires f == GillSize
    ensures f in LabelEncoders && LabelEncoders[f] == GillSizeCodes && TableSize(f) == 2
  {
  }

  lemma GillSizeEncoded(f: Feature)
    requires f == GillSize
    ensures f in LabelEncoders && Dense(LabelEncoders[f], TableSize(f))
  {
    GillSizeDense();
    GillSizeHeld(f);
  }

  lemma GillSpacingHeld(f: Feature)
    requires f == GillSpacing
    ensures f in LabelEncoders && LabelEncoders[f] == GillSpacingCodes && TableSize(f) == 3
  {
  }

  lemma GillSpacingEncoded(f: Feature)
    requires f == GillSpacing
    ensures f in LabelEncoders && Dense(LabelEncoders[f], TableSize(f))
  {
    GillSpacingDense();
    GillSpacingHeld(f);
  }

  lemma GillColorHeld(f: Feature)
    requires f == GillColor
    ensures f in LabelEncoders && LabelEncoders[f] == GillColorCodes && TableSize(f) == 12
  {
  }

  lemma GillColorEncoded(f: Feature)
    requires f == GillColor
    ensures f in LabelEncoders && Dense(LabelEncoders[f], TableSize(f))
  {
    GillColorDense();
    GillColorHeld(f);
  }

  lemma StalkSurfaceBelowRingHeld(f: Feature)
    requires f == StalkSurfaceBelowRing
    ensures f in LabelEncoders && LabelEncoders[f] == StalkSurfaceBelowRingCodes && TableSize(f) == 4
  {
  }

  lemma StalkSurfaceBelowRingEncoded(f: Feature)
    requires f == StalkSurfaceBelowRing
    ensures f in LabelEncoders && Dense(LabelEncoders[f], TableSize(f))
  {
    StalkSurfaceBelowRingDense();
    StalkSurfaceBelowRingHeld(f);
  }

  lemma VeilColorHeld(f: Feature)
    requires f == VeilColor
    ensures f in LabelEncoders && LabelEncoders[f] == VeilColorCodes && TableSize(f) == 4
  {
  }

  lemma VeilColorEncoded(f: Feature)
    requires f == VeilColor
    ensures f in LabelEncoders && Dense(LabelEncoders[f], TableSize(f))
  {
    VeilColorDense();
    VeilColorHeld(f);
  }

  lemma RingTypeHeld(f: Feature)
    requires f == RingType
    ensures f in LabelEncoders && LabelEncoders[f] == RingTypeCodes && TableSize(f) == 8
  {
  }

  lemma RingTypeEncoded(f: Feature)
    requires f == RingType
    ensures f in LabelEncoders && Dense(LabelEncoders[f], TableSize(f))
  {
    RingTypeDense();
    RingTypeHeld(f);
  }

  lemma PopulationHeld(f: Feature)
    requires f == Population
    ensures f in LabelEncoders && LabelEncoders[f] == PopulationCodes && TableSize(f) == 6
  {
  }

  lemma PopulationEncoded(f: Feature)
    requires f == Population
    ensures f in LabelEncoders && Dense(LabelEncoders[f], TableSize(f))
  {
    PopulationDense();
    PopulationHeld(f);
  }

  lemma HabitatHeld(f: Feature)
    requires f == Habitat
    ensures f in LabelEncoders && LabelEncoders[f] == HabitatCodes && TableSize(f) == 7
  {
  }

  lemma HabitatEncoded(f: Feature)
    requires f == Habitat
    ensures f in LabelEncoders && Dense(LabelEncoders[f], TableSize(f))
  {
    HabitatDense();
    HabitatHeld(f);
  }

  /** The table the encoder holds for each selected feature gives its labels the distinct codes 0 .. n-1. */
  lemma TableDense(f: Feature)
    requires f in LabelEncoders
    ensures Dense(LabelEncoders[f], TableSize(f))
  {
    EncoderOf(f);
    if f == Bruises {
      BruisesEncoded(f);
    } else if f == GillSize {
      GillSizeEncoded(f);
    } else if f == GillSpacing {
      GillSpacingEncoded(f);
    } else if f == GillColor {
      GillColorEncoded(f);
    } else if f == StalkSurfaceBelowRing {
      StalkSurfaceBelowRingEncoded(f);
    } else if f == VeilColor {
      VeilColorEncoded(f);
    } else if f == RingType {
      RingTypeEncoded(f);
    } else if f == Population {
      PopulationEncoded(f);
    } else {
      HabitatEncoded(f);
    }
  }

  /** Every code of every table lies in 0 .. 11. */
  lemma CodesInRange(f: Feature)
    requires f in LabelEncoders
    ensures forall l :: l in LabelEncoders[f] ==> 0 <= LabelEncoders[f][l] < 12
  {
    TableDense(f);
    EncoderOf(f);
  }
}
