# Mushroom classification: the prediction page

This project models the core of the mushroom-classification prediction page,
`pages/Predict.py`. The page asks the user for nine of the 22 catalogued
mushroom features. It turns each chosen label into its integer code with a
hand-written table. Every feature the form does not ask about gets code 0, as
does a label the table does not know; an unknown label also logs a warning. The
page puts the 22 codes into a one-row frame whose columns carry the catalogue's
names. When the Classify button is pressed, it asks the trained model for a
class and shows Poisonous (class 1) or Edible (class 0) with the matching
probability, or an error message when the model fails.

Modules:

- `Catalogue`: the 22 features as the enumeration `Feature`. It holds their column
  names (`Name`), the ordered catalogue `AllFeatures`, the nine `SelectedFeatures`
  and each feature's position in the catalogue.
- `Encoding`: one code table per selected feature, with the source's labels and
  codes, and `LabelEncoders`, which keys those tables by feature. It proves that
  every table gives its labels the distinct codes 0 .. n-1.
- `Assembly`: the two loops of the page, as methods over a `Schema` (catalogue,
  selection, tables). `Mushroom` is the page's own schema. Logged warnings are
  returned as a list of `Warning` values, in logging order.
- `Frames`: the one-row frame and reading one column of it by name.
- `Outcome`: what is shown for a prediction.
- `Page`: one run of the page, from choices to what is shown.

The selection box, the button and the trained model are parameters of
`Page.Classify`:

- `select` gives the label chosen for a feature;
- `clicked` says whether the button was pressed;
- `classify` gives the model's answer for a frame. That answer is either
  `Raised` (no answer) or `Predicted(code, count)`, where `count` is the number
  of class probabilities returned.

## Model

| member | source | states |
|---|---|---|
| Catalogue.Position | pages/Predict.py:31-37 | every feature has a position in the catalogue, and the catalogue holds that feature at that position |
| Catalogue.CatalogueComplete | pages/Predict.py:31-37 | the catalogue lists 22 features with no repeats, and every feature appears in it |
| Catalogue.NameInjective | pages/Predict.py:31-37 | two features with the same column name are the same feature |
| Encoding.SelectedAreEncoded | pages/Predict.py:40-56 | the nine selected features are distinct and all in the catalogue, and the encoder has a table for exactly these features |
| Encoding.BruisesDense | pages/Predict.py:47 | the bruises table gives its labels the distinct codes 0 and 1 and no other code |
| Encoding.GillSizeDense | pages/Predict.py:48 | the gill-size table gives its labels the distinct codes 0 and 1 and no other code |
| Encoding.GillSpacingDense | pages/Predict.py:49 | the gill-spacing table gives its labels the distinct codes 0 .. 2 and no other code |
| Encoding.GillColorDense | pages/Predict.py:50 | the gill-color table gives its labels the distinct codes 0 .. 11 and no other code |
| Encoding.StalkSurfaceBelowRingDense | pages/Predict.py:51 | the stalk-surface-below-ring table gives its labels the distinct codes 0 .. 3 and no other code |
| Encoding.VeilColorDense | pages/Predict.py:52 | the veil-color table gives its labels the distinct codes 0 .. 3 and no other code |
| Encoding.RingTypeDense | pages/Predict.py:53 | the ring-type table gives its labels the distinct codes 0 .. 7 and no other code |
| Encoding.PopulationDense | pages/Predict.py:54 | the population table gives its labels the distinct codes 0 .. 5 and no other code |
| Encoding.HabitatDense | pages/Predict.py:55 | the habitat table gives its labels the distinct codes 0 .. 6 and no other code |
| Encoding.TableDense | pages/Predict.py:46-56 | the table the encoder holds for each selected feature gives its labels the distinct codes 0 .. n-1, with n the number of labels written for that feature |
| Encoding.CodesInRange | pages/Predict.py:46-56 | every code of every table the encoder holds lies in 0 .. 11 |
| Assembly.CollectInputs | pages/Predict.py:64-66 | the choices hold exactly one entry per selected feature, and that entry is the label chosen for the feature |
| Assembly.AssembleInput | pages/Predict.py:69-80 | the row has one entry per catalogued feature, in catalogue order. A selected feature with a known label gets that label's code, and every other entry is 0. The warnings are those of the unseen labels, in catalogue order |
| Assembly.MushroomReady | pages/Predict.py:40-66 | for choices over the selected features, every table lookup and every choice lookup of the assembly loop finds its key |
| Assembly.MushroomCodeInRange | pages/Predict.py:69-80 | every entry of the mushroom row lies in 0 .. 11 |
| Assembly.WarningsAreUnseen | pages/Predict.py:74-77 | every warning names a feature of the list that is selected and whose label its table lacks, and it carries that label |
| Assembly.OneWarningPerUnseen | pages/Predict.py:70-77 | over distinct features, a feature with an unseen label is named by exactly one warning, and any other feature by none |
| Assembly.WarningsExact | pages/Predict.py:69-80 | for a whole mushroom row, each selected feature with an unseen label gets exactly one warning, carrying its label. No other feature is warned about |
| Frames.ToFrame | pages/Predict.py:83 | the frame has one column name and one value per catalogued feature |
| Frames.Names | pages/Predict.py:83 | the column names follow the feature list in order |
| Frames.ColumnOfFeature | pages/Predict.py:83 | reading a feature's column by name gives the row entry at that feature's catalogue position |
| Frames.ColumnAt | pages/Predict.py:83 | under the names of distinct features, each feature's column holds that feature's own entry |
| Outcome.Decide | pages/Predict.py:87-112 | a failed prediction shows exactly the error message. A prediction with fewer than two class probabilities stops the page on the uncaught index error, and nothing else does. Otherwise code 1 shows Poisonous with probability index 1, code 0 shows Edible with index 0, any other code shows no headline, and both probabilities are listed |
| Outcome.QuotedIndicesExist | pages/Predict.py:96-112 | a result is shown only for a successful prediction, and every probability index it quotes is one the classifier returned |
| Outcome.VerdictMatchesProbability | pages/Predict.py:96-107 | a headline appears only for a successful prediction. Its probability index is the predicted code, and the probability listing has its class at that index |
| Outcome.VerdictNamesLabel | pages/Predict.py:96-107 | Poisonous is announced exactly when the code is 1 and Edible exactly when it is 0, in both cases with the two probabilities available |
| Page.Classify | pages/Predict.py:64-112 | one run of the page. The choices are the selected labels, and every lookup succeeds. The frame's columns are the catalogue's names in catalogue order, and entry i is the code the encoding rules give feature i. Every entry lies in 0 .. 11. The warnings are those of the unseen labels. Something is shown only when the button was pressed, and then it is what `Decide` gives for the model's answer |

## Left out

- The Streamlit interface is not modelled: titles, texts, the selection boxes and the button. The selection boxes become the `select` parameter and the button becomes `clicked`.
- The options of each selection box come from the dataset's distinct values. They are not modelled: `select` may give any string, so the model also covers labels no table lists.
- Loading the model file and the CSV dataset is not modelled. A model that failed to load makes the prediction raise, which is folded into `Raised`. A dataset that failed to load stops the page before the form and is not modelled.
- The model's `predict` and `predict_proba` are the `classify` parameter. A failure of either one is `Raised`. A predicted class is an integer; class labels of other types are not modelled. Reading the two probabilities happens outside the error handler (pages/Predict.py:98-99), so too few of them stop the page; this is the `Uncaught` display.
- The probability values are not modelled, and neither is their percentage formatting. The model keeps only which index of the probability pair is quoted for each class.
- The fixed message texts are not modelled: the error text, and the advice shown under each headline.
- Logging configuration and log output are not modelled. The warnings for unseen labels are returned as data, in the order the loop would log them, and the informational and error log lines are left out.
- Of the pandas frame, only the column names and the row are modelled.
- `Home.py` is not part of this model.
- Determinism is not stated as a separate lemma. The contracts of `Assembly.CollectInputs`, `Assembly.AssembleInput` and `Page.Classify` fix the choices, the row, the frame and the warnings as functions of `select`, and what is shown as a function of `clicked` and the classifier's answer.
- The code and the expected behaviour differ for a predicted class other than 0 or 1. Such a class gets no headline, but both probabilities are still listed (pages/Predict.py:102-112). `Outcome.Decide` follows the code.
