/** The parts of the Weka library the service touches. Weka's own behaviour
    (CSV parsing, the NumericToNominal filter, tree induction, building and
    classifying an instance) is not modelled: a `Library` value stands for
    it, each step a function that returns a value or fails, so that what is
    proved about the service holds whatever Weka does. */
module Weka {
  import opened Outcomes

  /** The uploaded file's bytes. */
  type Csv = seq<bv8>

  /** A `weka.core.Instances` dataset: attribute names in column order, the
      rows (one cell per attribute, kept as Weka's text for it), and the class
      index, -1 while no class attribute is set. The service never looks
      inside the rows; the Weka steps may. */
  datatype Instances = Instances(attributes: seq<string>, rows: seq<seq<string>>, classIndex: int) {

    /** `numAttributes()`. */
    function NumAttributes(): nat {
      |attributes|
    }

    /** `setClassIndex(i)`: Weka rejects an index at or beyond the attribute
        count; -1 (no class) is allowed. */
    function SetClassIndex(i: int): (d: Instances)
      requires i < NumAttributes()
      ensures d.classIndex == i
      ensures d.attributes == attributes && d.rows == rows
    {
      this.(classIndex := i)
    }
  }

  /** A decision tree induced by J48; its structure is Weka's. */
  datatype TreeModel = TreeModel(id: nat)

  /** A single query row built for classification. */
  datatype Instance = Instance(values: seq<Option<int>>)

  /** The steps of the Weka library the service calls, each one fallible. */
  datatype Library = Library(
    /** `CSVLoader.setSource(file.getInputStream())` then `getDataSet()`. */
    load: Csv -> Outcome<Instances>,
    /** `NumericToNominal` on the last attribute: `setInputFormat` then `Filter.useFilter`. */
    lastToNominal: Instances -> Outcome<Instances>,
    /** J48 induction inside `buildClassifier`. */
    induce: Instances -> Outcome<TreeModel>,
    /** `new DenseInstance(n)`, `setDataset` and the three `setValue` calls for zone, time and day. */
    makeQuery: (Instances, int, int, int) -> Outcome<Instance>,
    /** `classifyInstance` on a J48 whose induced tree is given (`None` when never built),
        giving the predicted class index. */
    classify: (Option<TreeModel>, Instance) -> Outcome<int>,
    /** `classAttribute().value(index)`. */
    classLabel: (Instances, int) -> Outcome<string>)

  /** `weka.classifiers.trees.J48`: unbuilt when constructed, holding an
      induced tree once `buildClassifier` succeeds. */
  class J48 {
    var root: Option<TreeModel>

    constructor()
      ensures root == None
    {
      root := None;
    }

    /** `buildClassifier(data)`: on success this J48 holds the induced tree;
        on failure it throws and keeps what it held. */
    method BuildClassifier(lib: Library, data: Instances) returns (thrown: Outcome<Unit>)
      modifies this
      ensures lib.induce(data).Ok? ==> thrown == Ok(Unit) && root == Some(lib.induce(data).value)
      ensures lib.induce(data).Fail? ==> thrown == Fail(lib.induce(data).message) && root == old(root)
    {
      var induced := lib.induce(data);
      if induced.Fail? {
        return Fail(induced.message);
      }
      root := Some(induced.value);
      return Ok(Unit);
    }
  }
}
