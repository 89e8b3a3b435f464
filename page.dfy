/** One run of the prediction page: collect the choices, assemble the row and
    its frame, and, when the Classify button was pressed, ask the classifier
    and decide what to show. */
module Page {
  import opened Wrappers
  import opened Catalogue
  import opened Encoding
  import opened Assembly
  import opened Frames
  import opened Outcome

  /** `select` gives the form's choice for a feature, `clicked` whether the
      button was pressed, and `classify` the loaded model's answer for a frame. */
  method Classify(select: Feature -> string, clicked: bool, classify: Frame -> Prediction)
    returns (choices: Inputs, frame: Frame, warnings: seq<Warning>, shown: Option<Display>)
    ensures forall f :: f in choices <==> f in SelectedFeatures
    ensures forall f :: f in choices ==> choices[f] == select(f)
    ensures Ready(Mushroom, choices)
    ensures |frame.columns| == |frame.row| == |AllFeatures|
    ensures frame.columns == Names(AllFeatures)
    ensures forall i :: 0 <= i < |AllFeatures| ==> Encodes(Mushroom, choices, AllFeatures[i], frame.row[i])
    ensures forall f: Feature :: Column(frame, Name(f)).Some?
    ensures forall f: Feature :: Encodes(Mushroom, choices, f, Column(frame, Name(f)).value)
    ensures forall i :: 0 <= i < |frame.row| ==> 0 <= frame.row[i] < 12
    ensures warnings == UnseenIn(Mushroom, AllFeatures, choices)
    ensures shown == if clicked then Some(Decide(classify(frame))) else None
  {
    choices := CollectInputs(Mushroom, select);
    MushroomReady(choices);
    var inputData;
    inputData, warnings := AssembleInput(Mushroom, choices);
    forall i | 0 <= i < |inputData|
      ensures 0 <= inputData[i] < 12
    {
      MushroomCodeInRange(choices, AllFeatures[i], inputData[i]);
    }
    frame := ToFrame(inputData);
    forall f: Feature
      ensures Column(frame, Name(f)) == Some(inputData[Position(f)])
    {
      ColumnOfFeature(inputData, f);
    }
    if clicked {
      shown := Some(Decide(classify(frame)));
    } else {
      shown := None;
    }
  }
}
