# Risk prediction form: feature pipeline model

The repository is a Streamlit form (`riesgo_ventas.py`) that asks for a
driver's age and a vehicle category. It turns the two answers into one
feature row shaped like the training schema. It then asks one of three
pre-trained classifiers (k-nearest neighbours, decision tree, neural
network) for a risk code and shows "Alto Riesgo" (high risk) or
"Bajo Riesgo" (low risk).

This project models what happens when the prediction button is pressed:

- `Features`: the one-row record `{age, cartype}` and its one-hot encoding
  (`GetDummies`). For a single row the encoding keeps `age` and adds one
  indicator column, `cartype_<category>`, set to 1.
- `Features`: the projection onto the schema. `Align` is a method that
  works the way the script does. The frame built from the schema has its
  columns but no row. An array holds the row it will get, and a flag says
  whether that row exists yet. The first assignment of a user column that is
  a schema column creates the row, with every other cell missing. Each user
  column that is a schema column is assigned in turn, then the missing cells
  are filled with 0. It is proved equal to the specification function
  `Aligned`, and the lemmas beside it state what the result means.
- `Classifiers`: choosing a model by its menu name (`SelectModel`), the
  handles of the three models (`Registry`), and turning a raw code into a
  label (`LabelOf`, `LabelText`).
- `Request`: the whole request (`Respond`, and `HandleRequest`, which runs
  the imperative alignment), including its three error exits. The exits are:
  schema not loaded, model name not recognised, and prediction failed.
  `ErrorMessage` gives the text each exit reports. In the script as written,
  a failed load already stops at lines 82 and 85, so the schema check at
  lines 118 and 126-128 never fails; the model reaches `SchemaMissing` only
  when it is given `None` for the schema.

Frames are modelled as named columns with a list of rows, and values are
integers: the age, 1 for a set indicator, 0 for a filled cell. A cell of the
row that no assignment has reached yet is `None`.

`pd.DataFrame(columns=model_variables)` (line 119) has no row. The frame
gets its single row only when a user column is assigned into it (lines
120-122). So when the schema has neither `age` nor the selected category's indicator, the frame
stays empty and goes to `predict` with zero rows. The model follows the code:
`Aligned` has one row exactly when some user column is a schema column
(`Supplied`). Such a request ends in `InferenceFailed` unless the external
`predict` returns a code for the empty frame.

The loaded schema, the model handles and the models' `predict` are
parameters. A schema that was not loaded is `None`. `predict` yields one raw
code per row, or `None` when it raises. An empty answer stands for the
`IndexError` of `prediction[0]`, which the same handler catches.

## Model

| member | source | states |
|---|---|---|
| Features.GetDummies | riesgo_ventas.py:112-115 | the encoded record gives `age` the entered age, gives the selected category's indicator column 1, has no indicator column for any other category, and has no other column |
| Features.DummyColumnNames | riesgo_ventas.py:115 | indicator columns of different categories have different names, and none of them is named `age` |
| Features.LookupFindsLast | riesgo_ventas.py:120-122 | a user column's value is found exactly when some column has that name, and it is the value of the last such column (later assignments overwrite earlier ones) |
| Features.IndexOf | riesgo_ventas.py:121 | the position found holds the name, and the search returns past the end exactly when the name is not a schema column |
| Features.Aligned | riesgo_ventas.py:119-123 | the aligned frame has exactly the schema's columns in the schema's order; it has one row exactly when some user column is a schema column, otherwise none; each row has one value per schema column |
| Features.Align | riesgo_ventas.py:119-123 | the step-by-step alignment (empty frame, assignment of each user column found in the schema, fill with 0) produces exactly the frame `Aligned` describes, for any schema of distinct names |
| Features.CopiedValue | riesgo_ventas.py:120-122 | a schema column that the user row supplies makes the frame have its row and holds the user's value, the last one given |
| Features.FilledWithZero | riesgo_ventas.py:123 | a schema column that the user row does not supply is 0 in the row |
| Features.DroppedColumnsHaveNoEffect | riesgo_ventas.py:120-122 | user columns that are not schema columns are dropped: deleting them from the user row first gives the same aligned frame |
| Features.EncodedRow | riesgo_ventas.py:112-123 | the aligned frame of the encoded inputs has its row exactly when the schema has `age` or the selected indicator; then `age` holds the age, the selected indicator 1 and every other column 0 |
| Features.ExactlyOneHot | riesgo_ventas.py:115-123 | among the schema's indicator columns, a column is 1 exactly when it is the selected category's |
| Features.FamilyExample | riesgo_ventas.py:112-123 | age 33, category "family" and the schema age, combi, family, sport, minivan give the row 33, 0, 1, 0, 0 |
| Classifiers.SelectModel | riesgo_ventas.py:132-140 | a name chooses a model exactly when it is one of "Nn", "Knn", "Dt", and the chosen model is the one that name stands for; any other name chooses none |
| Classifiers.SelectModelByName | riesgo_ventas.py:132-137 | each model is chosen by its own menu name and by no other name |
| Classifiers.SelectedHandles | riesgo_ventas.py:132-137 | "Knn" gives the k-nearest-neighbours handle, "Dt" the tree handle, "Nn" the neural-network handle |
| Classifiers.LabelOf | riesgo_ventas.py:148-151 | the label is high risk exactly when the raw code is 0 |
| Classifiers.TextOfCode | riesgo_ventas.py:148-151 | the text shown is "Alto Riesgo" exactly for code 0 and "Bajo Riesgo" exactly for every other code |
| Request.Respond | riesgo_ventas.py:110-154 | a missing schema, and only that, ends the request before alignment; an unrecognised name, and only that, ends it after alignment; every later outcome shows the aligned frame of the inputs; a prediction means the chosen model answered with at least one code, and the label is high risk exactly when its first code is 0 |
| Request.HandleRequest | riesgo_ventas.py:110-154 | running the request with the step-by-step alignment gives exactly the outcome `Respond` describes, for inputs the widgets allow and a schema of distinct names |
| Request.NoPredictionOnError | riesgo_ventas.py:118-140 | with no schema or with an unrecognised model name, the outcome does not depend on what the models would predict, and it is not a prediction |
| Request.PredictionFollowsCode | riesgo_ventas.py:132-151 | with a schema and a menu name whose model answers, the request ends in a prediction whose text is "Alto Riesgo" exactly when the first code is 0 |
| Request.ShownFrameFollowsSchema | riesgo_ventas.py:112-125 | when the schema has `age`, the frame a request shows has exactly the schema's columns and its row, with the entered age in that column |
| Request.ErrorsReported | riesgo_ventas.py:126-154 | a request reports an error exactly when it ends without a prediction; it reports the missing-schema text exactly when no schema was loaded, and "Modelo no reconocido" exactly when the name is not one of the three menu names |
| Request.FamilyTreeExample | riesgo_ventas.py:110-151 | age 33, "family", the tree model and a code of 0 end with the row 33, 0, 1, 0, 0 shown and the label high risk |

## Left out

- Page styling (riesgo_ventas.py:9-74), the logo (93-97), titles and the closing echo of the inputs (156-159): presentation only.
- Loading the pickled artifact (77-85): file input and deserialisation. The schema, the three handles and `predict` are parameters instead. The label encoder and the scaler are loaded but never used, so they are not modelled.
- The widgets (105-107) are inputs. The age range 18 to 100 and the four vehicle categories are the requires `Request.ValidInputs`. The model name is any string, so the code's fallback branch is reachable in the model.
- The classifiers' `predict` (144): the fitted models are not visible, so it is an arbitrary function from a handle and a frame to an optional list of codes. The text of the caught exception (154) is not kept: `ErrorMessage` of `InferenceFailed` is only the fixed prefix of that message.
- `st.error` and `st.stop` are modelled as the outcome that ends the request (`SchemaMissing`, `UnknownModel`). `ErrorMessage` gives their texts, `SchemaMissingMessage` and `UnknownModelMessage`.
- Column types: indicator columns are booleans in pandas and the filled cells start as NaN. The model uses integers 1 and 0, and `None` for a missing cell.
- Features.Align: assumes the schema's names are distinct. A schema with a repeated name, where pandas would assign every copy of that column, is not modelled.
- Determinism: every member is a function or a method specified by one, so equal inputs give equal outcomes; no separate lemma states it.
