/**
 * The classifier side of the risk form: the three pre-trained models, the
 * choice of one by its menu name, and the reading of its raw prediction
 * code as a risk label.
 */
module Classifiers {
  import opened Options

  /** The three models of the artifact bundle: k-nearest neighbours, a decision tree, a neural network. */
  datatype ClassifierKind = Knn | Tree | NeuralNet

  /** The loaded model handles, one per kind; `H` is whatever a handle is. */
  datatype Registry<H> = Registry(knn: H, tree: H, nn: H)
  {
    function Handle(kind: ClassifierKind): H
    {
      match kind
      case Knn => knn
      case Tree => tree
      case NeuralNet => nn
    }
  }

  /** The choices the model menu offers, in its order. */
  const ModelMenu: seq<string> := ["Nn", "Knn", "Dt"]

  const UnknownModelMessage: string := "Modelo no reconocido"

  /** The name under which the menu offers each kind. */
  function ModelName(kind: ClassifierKind): string
  {
    match kind
    case Knn => "Knn"
    case Tree => "Dt"
    case NeuralNet => "Nn"
  }

  /**
   * The model chosen by a name: "Knn", "Dt" and "Nn" choose their kinds,
   * any other name chooses none.
   */
  function SelectModel(name: string): (r: Option<ClassifierKind>)
    ensures r.Some? <==> name in ModelMenu
    ensures r.Some? ==> ModelName(r.value) == name
  {
    if name == "Knn" then Some(Knn)
    else if name == "Dt" then Some(Tree)
    else if name == "Nn" then Some(NeuralNet)
    else None
  }

  /** Every kind is chosen by its own menu name, and by no other name. */
  lemma SelectModelByName(kind: ClassifierKind, name: string)
    ensures SelectModel(name) == Some(kind) <==> name == ModelName(kind)
  {
  }

  /** The chosen handle: "Knn" gives the k-nearest-neighbours model, "Dt" the tree, "Nn" the network. */
  lemma SelectedHandles<H>(reg: Registry<H>)
    ensures SelectModel("Knn").Some? && reg.Handle(SelectModel("Knn").value) == reg.knn
    ensures SelectModel("Dt").Some? && reg.Handle(SelectModel("Dt").value) == reg.tree
    ensures SelectModel("Nn").Some? && reg.Handle(SelectModel("Nn").value) == reg.nn
  {
  }

  /** The two labels the form shows. */
  datatype RiskLabel = HighRisk | LowRisk

  /** The raw code 0 is high risk; every other code is low risk. */
  function LabelOf(code: int): (risk: RiskLabel)
    ensures risk == HighRisk <==> code == 0
  {
    if code == 0 then HighRisk else LowRisk
  }

  /** The text shown for a label. */
  function LabelText(risk: RiskLabel): string
  {
    match risk
    case HighRisk => "Alto Riesgo"
    case LowRisk => "Bajo Riesgo"
  }

  /** The text shown for a raw code is "Alto Riesgo" exactly for 0 and "Bajo Riesgo" exactly otherwise. */
  lemma TextOfCode(code: int)
    ensures LabelText(LabelOf(code)) == "Alto Riesgo" <==> code == 0
    ensures LabelText(LabelOf(code)) == "Bajo Riesgo" <==> code != 0
  {
  }
}
