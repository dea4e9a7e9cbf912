/**
 * One press of the prediction button: encode and align the inputs, choose
 * the model, ask it for a prediction and read the code as a label.
 *
 * The loaded schema is a parameter (`None` when it was not loaded), and so
 * are the model handles and the models' `predict`, which yields the raw
 * codes, one per row, or `None` when it raises.
 */
module Request {
  import opened Options
  import opened Features
  import opened Classifiers

  const SchemaMissingMessage: string := "Las variables del modelo no se cargaron correctamente."

  /** The text the form shows before the exception's own text when `predict` fails. */
  const InferenceErrorPrefix: string := "Ocurrió un error durante la predicción: "

  /**
   * How a request ends. Each outcome reached after alignment carries the
   * aligned frame, which the form shows before choosing the model.
   */
  datatype Outcome =
    | SchemaMissing
    | UnknownModel(shown: Frame)
    | InferenceFailed(shown: Frame)
    | Predicted(shown: Frame, risk: RiskLabel)

  /** What the two input widgets can produce: an age from 18 to 100 and a menu category. */
  predicate ValidInputs(age: int, cartype: string)
  {
    18 <= age <= 100 && cartype in VehicleTypes
  }

  /** The frame the request builds from the inputs and the schema. */
  function Shown(age: int, cartype: string, schema: seq<string>): Frame
  {
    Aligned(GetDummies(UserRecord(age, cartype)), schema)
  }

  /** The outcome of a request, step by step as the script takes them. */
  function Respond<H>(age: int, cartype: string, modelName: string, schema: Option<seq<string>>,
                      reg: Registry<H>, predict: (H, Frame) -> Option<seq<int>>): (o: Outcome)
    ensures o == SchemaMissing <==> schema.None?
    ensures o.UnknownModel? <==> schema.Some? && modelName !in ModelMenu
    ensures !o.SchemaMissing? ==> o.shown == Shown(age, cartype, schema.value)
    ensures o.Predicted? ==>
      modelName in ModelMenu &&
      var codes := predict(reg.Handle(SelectModel(modelName).value), o.shown);
      codes.Some? && |codes.value| > 0 && (o.risk == HighRisk <==> codes.value[0] == 0)
  {
    match schema
    case None => SchemaMissing
    case Some(columns) =>
      var shown := Shown(age, cartype, columns);
      match SelectModel(modelName)
      case None => UnknownModel(shown)
      case Some(kind) =>
        match predict(reg.Handle(kind), shown)
        case None => InferenceFailed(shown)
        case Some(codes) =>
          if |codes| == 0 then InferenceFailed(shown) else Predicted(shown, LabelOf(codes[0]))
  }

  /**
   * The error the form reports for an outcome: the fixed texts for the two
   * stops, the prefix of the failed-prediction text, and none for a
   * prediction.
   */
  function ErrorMessage(o: Outcome): Option<string>
  {
    match o
    case SchemaMissing => Some(SchemaMissingMessage)
    case UnknownModel(_) => Some(UnknownModelMessage)
    case InferenceFailed(_) => Some(InferenceErrorPrefix)
    case Predicted(_, _) => None
  }

  /**
   * A request reports an error exactly when it ends without a prediction;
   * it reports the missing schema exactly when there is none, and the
   * unrecognised model exactly when the name is not on the menu.
   */
  lemma ErrorsReported<H>(age: int, cartype: string, modelName: string, schema: Option<seq<string>>,
                          reg: Registry<H>, predict: (H, Frame) -> Option<seq<int>>)
    ensures ErrorMessage(Respond(age, cartype, modelName, schema, reg, predict)).None? <==>
      Respond(age, cartype, modelName, schema, reg, predict).Predicted?
    ensures ErrorMessage(Respond(age, cartype, modelName, schema, reg, predict)) == Some(SchemaMissingMessage) <==>
      schema.None?
    ensures ErrorMessage(Respond(age, cartype, modelName, schema, reg, predict)) == Some(UnknownModelMessage) <==>
      schema.Some? && modelName !in ModelMenu
  {
  }

  /**
   * The request as the script runs it, with the alignment done step by step
   * on the frame's cells.
   */
  method HandleRequest<H>(age: int, cartype: string, modelName: string, schema: Option<seq<string>>,
                          reg: Registry<H>, predict: (H, Frame) -> Option<seq<int>>) returns (o: Outcome)
    requires ValidInputs(age, cartype)
    requires schema.Some? ==> Distinct(schema.value)
    ensures o == Respond(age, cartype, modelName, schema, reg, predict)
  {
    if schema.None? {
      return SchemaMissing;
    }
    var user := GetDummies(UserRecord(age, cartype));
    var shown := Align(user, schema.value);
    var kind := SelectModel(modelName);
    if kind.None? {
      return UnknownModel(shown);
    }
    var prediction := predict(reg.Handle(kind.value), shown);
    if prediction.None? || |prediction.value| == 0 {
      return InferenceFailed(shown);
    }
    o := Predicted(shown, LabelOf(prediction.value[0]));
  }

  /**
   * Without a schema, or with a name that chooses no model, nothing is
   * predicted: the outcome is the same whatever the models would answer.
   */
  lemma NoPredictionOnError<H>(age: int, cartype: string, modelName: string, schema: Option<seq<string>>,
                               reg: Registry<H>, p1: (H, Frame) -> Option<seq<int>>,
                               p2: (H, Frame) -> Option<seq<int>>)
    requires schema.None? || modelName !in ModelMenu
    ensures Respond(age, cartype, modelName, schema, reg, p1) == Respond(age, cartype, modelName, schema, reg, p2)
    ensures !Respond(age, cartype, modelName, schema, reg, p1).Predicted?
  {
  }

  /**
   * With a schema and a menu name, the chosen model's first code decides the
   * outcome: the text shown is "Alto Riesgo" exactly when it is 0.
   */
  lemma PredictionFollowsCode<H>(age: int, cartype: string, modelName: string, schema: seq<string>,
                                 reg: Registry<H>, predict: (H, Frame) -> Option<seq<int>>, kind: ClassifierKind)
    requires modelName == ModelName(kind)
    requires predict(reg.Handle(kind), Shown(age, cartype, schema)).Some?
    requires |predict(reg.Handle(kind), Shown(age, cartype, schema)).value| > 0
    ensures Respond(age, cartype, modelName, Some(schema), reg, predict).Predicted?
    ensures LabelText(Respond(age, cartype, modelName, Some(schema), reg, predict).risk) == "Alto Riesgo" <==>
      predict(reg.Handle(kind), Shown(age, cartype, schema)).value[0] == 0
  {
  }

  /**
   * The frame a request shows has exactly the schema's columns; when the
   * schema has the age column it has its row, and that row carries the
   * entered age there.
   */
  lemma ShownFrameFollowsSchema(age: int, cartype: string, schema: seq<string>, i: nat)
    requires i < |schema| && schema[i] == AgeColumn
    ensures Shown(age, cartype, schema).columns == schema
    ensures |Shown(age, cartype, schema).rows| == 1
    ensures Shown(age, cartype, schema).rows[0][i] == age
  {
    EncodedRow(UserRecord(age, cartype), schema);
  }

  /** A request for age 33, category "family" and the tree, whose code is 0. */
  lemma FamilyTreeExample<H>(reg: Registry<H>)
    ensures
      var schema := ["age", "cartype_combi", "cartype_family", "cartype_sport", "cartype_minivan"];
      Respond(33, "family", "Dt", Some(schema), reg, (h: H, f: Frame) => Some([0]))
        == Predicted(Frame(schema, [[33, 0, 1, 0, 0]]), HighRisk)
  {
    FamilyExample();
  }
}
