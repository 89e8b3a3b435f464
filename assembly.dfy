/** Turning the user's choices into the classifier's input: collecting one
    choice per selected feature, then one code per catalogued feature. The
    constant tables are passed in as a `Schema`; `Mushroom` is the one the
    page uses. */
module Assembly {
  import opened Catalogue
  import opened Encoding

  /** The user's choice for each feature the form asks about. */
  type Inputs = map<Feature, string>

  /** The constant tables the assembly reads: the ordered catalogue, the
      features the form asks for, and their code tables. */
  datatype Schema = Schema(catalogue: seq<Feature>, selected: seq<Feature>, encoders: map<Feature, map<string, int>>)

  /** The mushroom classifier's tables. */
  const Mushroom := Schema(AllFeatures, SelectedFeatures, LabelEncoders)

  /** The warning logged for a label the feature's table does not know. */
  datatype Warning = UnseenLabel(choice: string, feature: Feature)

  /** Every selected feature has a code table and a choice. */
  predicate Ready(s: Schema, u: Inputs)
  {
    forall f :: f in s.selected ==> f in s.encoders && f in u
  }

  /** The feature is selected and its chosen label is not in its table. */
  predicate Unseen(s: Schema, f: Feature, u: Inputs)
    requires Ready(s, u)
  {
    f in s.selected && u[f] !in s.encoders[f]
  }

  /** Asks for one choice per selected feature; `select` stands for the form's
      selection box for that feature, whose options come from the dataset. */
  method CollectInputs(s: Schema, select: Feature -> string) returns (u: Inputs)
    ensures forall f :: f in u <==> f in s.selected
    ensures forall f :: f in u ==> u[f] == select(f)
  {
    u := map[];
    for i := 0 to |s.selected|
      invariant forall f :: f in u <==> f in s.selected[..i]
      invariant forall f :: f in u ==> u[f] == select(f)
    {
      var feature := s.selected[i];
      u := u[feature := select(feature)];
    }
  }

  /** The warning a feature raises: one exactly when its label is unseen. */
  function WarningFor(s: Schema, f: Feature, u: Inputs): seq<Warning>
    requires Ready(s, u)
  {
    if Unseen(s, f, u) then [UnseenLabel(u[f], f)] else []
  }

  /** The warnings raised over the features `fs`, in order. */
  function UnseenIn(s: Schema, fs: seq<Feature>, u: Inputs): seq<Warning>
    requires Ready(s, u)
  {
    if fs == [] then [] else UnseenIn(s, fs[..|fs| - 1], u) + WarningFor(s, fs[|fs| - 1], u)
  }

  lemma UnseenStep(s: Schema, fs: seq<Feature>, i: nat, u: Inputs)
    requires Ready(s, u) && i < |fs|
    ensures UnseenIn(s, fs[..i + 1], u) == UnseenIn(s, fs[..i], u) + WarningFor(s, fs[i], u)
  {
    assert fs[..i + 1][..i] == fs[..i];
  }

  /** The entry of feature `f` in a row: its table's code when the feature is
      selected and its label known, and 0 when the label is unseen or the
      feature is not selected. */
  predicate Encodes(s: Schema, u: Inputs, f: Feature, code: int)
    requires Ready(s, u)
  {
    if f in s.selected && u[f] in s.encoders[f] then code == s.encoders[f][u[f]] else code == 0
  }

  /** Builds the input row: walks the catalogue in order and appends the table
      code of a selected feature's known label, 0 with a warning for an unseen
      label, and 0 for a feature the form does not ask about. */
  method AssembleInput(s: Schema, u: Inputs) returns (inputData: seq<int>, warnings: seq<Warning>)
    requires Ready(s, u)
    ensures |inputData| == |s.catalogue|
    ensures forall i :: 0 <= i < |s.catalogue| ==> Encodes(s, u, s.catalogue[i], inputData[i])
    ensures warnings == UnseenIn(s, s.catalogue, u)
  {
    inputData, warnings := [], [];
    for i := 0 to |s.catalogue|
      invariant |inputData| == i
      invariant forall k :: 0 <= k < i ==> Encodes(s, u, s.catalogue[k], inputData[k])
      invariant warnings == UnseenIn(s, s.catalogue[..i], u)
    {
      var feature := s.catalogue[i];
      if feature in s.selected {
        var choice := u[feature];
        if choice in s.encoders[feature] {
          inputData := inputData + [s.encoders[feature][choice]];
        } else {
          warnings := warnings + [UnseenLabel(choice, feature)];
          inputData := inputData + [0];
        }
      } else {
        inputData := inputData + [0];
      }
      UnseenStep(s, s.catalogue, i, u);
    }
    assert s.catalogue[..|s.catalogue|] == s.catalogue;
  }

  /** The mushroom tables are ready for any choices collected by the form. */
  lemma MushroomReady(u: Inputs)
    requires forall f :: f in u <==> f in SelectedFeatures
    ensures Ready(Mushroom, u)
  {
    SelectedAreEncoded();
  }

  /** With the mushroom tables, a row entry lies in 0 .. 11. */
  lemma MushroomCodeInRange(u: Inputs, f: Feature, code: int)
    requires Ready(Mushroom, u) && Encodes(Mushroom, u, f, code)
    ensures 0 <= code < 12
  {
    if f in SelectedFeatures && u[f] in LabelEncoders[f] {
      CodesInRange(f);
    }
  }

  /** The warnings that name feature `f`. */
  function Naming(ws: seq<Warning>, f: Feature): (r: seq<Warning>)
    ensures forall w :: w in r <==> w in ws && w.feature == f
  {
    if ws == [] then []
    else (if ws[0].feature == f then [ws[0]] else []) + Naming(ws[1..], f)
  }

  lemma {:induction false} NamingConcat(a: seq<Warning>, b: seq<Warning>, f: Feature)
    ensures Naming(a + b, f) == Naming(a, f) + Naming(b, f)
  {
    if a == [] {
      assert a + b == b;
    } else {
      assert (a + b)[0] == a[0];
      assert (a + b)[1..] == a[1..] + b;
      NamingConcat(a[1..], b, f);
    }
  }

  /** Each warning names an unseen selected feature of `fs` and its label. */
  lemma {:induction false} WarningsAreUnseen(s: Schema, fs: seq<Feature>, u: Inputs)
    requires Ready(s, u)
    ensures forall w :: w in UnseenIn(s, fs, u) ==>
      w.feature in fs && Unseen(s, w.feature, u) && w.choice == u[w.feature]
  {
    if fs != [] {
      WarningsAreUnseen(s, fs[..|fs| - 1], u);
    }
  }

  /** The warning of one feature names that feature only. */
  lemma NamingWarningFor(s: Schema, g: Feature, u: Inputs, f: Feature)
    requires Ready(s, u)
    ensures Naming(WarningFor(s, g, u), f) == if f == g && Unseen(s, g, u) then [UnseenLabel(u[g], g)] else []
  {
    if Unseen(s, g, u) {
      var w := UnseenLabel(u[g], g);
      assert [w][1..] == [];
    }
  }

  /** Over a list of distinct features, exactly one warning names a feature of
      the list whose label is unseen, and none names any other feature. */
  lemma {:induction false} OneWarningPerUnseen(s: Schema, fs: seq<Feature>, u: Inputs, f: Feature)
    requires Ready(s, u) && Distinct(fs)
    ensures Naming(UnseenIn(s, fs, u), f) == if f in fs && Unseen(s, f, u) then [UnseenLabel(u[f], f)] else []
  {
    if fs != [] {
      var n := |fs| - 1;
      var g, init := fs[n], fs[..n];
      assert Distinct(init);
      OneWarningPerUnseen(s, init, u, f);
      NamingConcat(UnseenIn(s, init, u), WarningFor(s, g, u), f);
      NamingWarningFor(s, g, u, f);
      assert fs == init + [g];
      if f == g {
        assert f !in init;
      }
    }
  }

  /** The warnings of a whole mushroom row: exactly one per selected feature
      with an unseen label, carrying that label, and nothing for any other feature. */
  lemma WarningsExact(u: Inputs, f: Feature)
    requires Ready(Mushroom, u)
    ensures Naming(UnseenIn(Mushroom, AllFeatures, u), f) ==
      if Unseen(Mushroom, f, u) then [UnseenLabel(u[f], f)] else []
    ensures forall w :: w in UnseenIn(Mushroom, AllFeatures, u) ==>
      Unseen(Mushroom, w.feature, u) && w.choice == u[w.feature]
  {
    CatalogueComplete();
    OneWarningPerUnseen(Mushroom, AllFeatures, u, f);
    WarningsAreUnseen(Mushroom, AllFeatures, u);
  }
}
