/** The one-row data frame the classifier reads: the input row under the
    catalogue's column names. */
module Frames {
  import opened Wrappers
  import opened Catalogue

  /** The table handed to the classifier: one row under the catalogue's column names. */
  datatype Frame = Frame(columns: seq<string>, row: seq<int>)

  /** The one-row frame of an input row, its columns named after the catalogue. */
  function ToFrame(inputData: seq<int>): (fr: Frame)
    requires |inputData| == |AllFeatures|
    ensures |fr.columns| == |fr.row| == |AllFeatures|
  {
    Frame(Names(AllFeatures), inputData)
  }

  /** The column names of a list of features, in order. */
  function Names(fs: seq<Feature>): (names: seq<string>)
    ensures |names| == |fs| && forall i :: 0 <= i < |fs| ==> names[i] == Name(fs[i])
  {
    seq(|fs|, i requires 0 <= i < |fs| => Name(fs[i]))
  }

  /** The value a frame holds under a column name, if it has that column. */
  function Column(fr: Frame, name: string): Option<int>
    requires |fr.columns| == |fr.row|
    decreases |fr.columns|
  {
    if fr.columns == [] then None
    else if fr.columns[0] == name then Some(fr.row[0])
    else Column(Frame(fr.columns[1..], fr.row[1..]), name)
  }

  /** Reading a feature's column from the frame gives the entry at the feature's
      catalogue position: the classifier sees each code under its own name. */
  lemma ColumnOfFeature(inputData: seq<int>, f: Feature)
    requires |inputData| == |AllFeatures|
    ensures Column(ToFrame(inputData), Name(f)) == Some(inputData[Position(f)])
  {
    CatalogueComplete();
    ColumnAt(AllFeatures, inputData, Position(f));
  }

  /** Under the names of distinct features, each feature's column holds its own entry. */
  lemma ColumnAt(fs: seq<Feature>, row: seq<int>, k: nat)
    requires |fs| == |row| && k < |fs| && Distinct(fs)
    ensures Column(Frame(Names(fs), row), Name(fs[k])) == Some(row[k])
  {
    var names := Names(fs);
    forall i | 0 <= i < k
      ensures names[i] != Name(fs[k])
    {
      if names[i] == Name(fs[k]) {
        NameInjective(fs[i], fs[k]);
      }
    }
    ColumnFrom(names, row, fs[k], k);
  }

  lemma {:induction false} ColumnFrom(columns: seq<string>, row: seq<int>, f: Feature, k: nat)
    requires |columns| == |row| && k < |columns| && columns[k] == Name(f)
    requires forall i :: 0 <= i < k ==> columns[i] != Name(f)
    ensures Column(Frame(columns, row), Name(f)) == Some(row[k])
  {
    if k > 0 {
      ColumnFrom(columns[1..], row[1..], f, k - 1);
    }
  }
}
