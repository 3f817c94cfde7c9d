/** The prediction service: two fields, `tree` and `data`, that start null,
    are overwritten step by step by `trainModel`, and are only read by
    `predictRisk`. */
module Service {
  import opened Outcomes
  import opened Weka

  const NotTrained: string := "Model not trained yet"
  const PredictionErrorPrefix: string := "Error in prediction: "
  const ConversionErrorPrefix: string := "Failed to convert numeric class attribute to nominal: "
  const BuildErrorPrefix: string := "Failed to build classifier: "

  /** How far one call of `trainModel` gets: the step that fails, with the
      values the earlier steps produced. */
  datatype TrainRun =
    | LoadFailed(message: string)
    | ConversionFailed(loaded: Instances, message: string)
    | BuildFailed(prepared: Instances, message: string)
    | Built(prepared: Instances, model: TreeModel)
  {
    /** The `IOException` `trainModel` throws, or normal return. */
    function Thrown(): (e: Outcome<Unit>)
      ensures e.Ok? <==> Built?
      ensures LoadFailed? ==> e.message == message
      ensures ConversionFailed? ==>
                |e.message| >= |ConversionErrorPrefix| &&
                e.message[..|ConversionErrorPrefix|] == ConversionErrorPrefix &&
                e.message[|ConversionErrorPrefix|..] == message
      ensures BuildFailed? ==>
                |e.message| >= |BuildErrorPrefix| &&
                e.message[..|BuildErrorPrefix|] == BuildErrorPrefix &&
                e.message[|BuildErrorPrefix|..] == message
    {
      match this
      case LoadFailed(m) => Fail(m)
      case ConversionFailed(_, m) => Fail(ConversionErrorPrefix + m)
      case BuildFailed(_, m) => Fail(BuildErrorPrefix + m)
      case Built(_, _) => Ok(Unit)
    }
  }

  /** The steps of `trainModel` on an uploaded file: load, convert the last
      attribute to nominal, make it the class attribute, build the tree. */
  function Run(lib: Library, file: Csv): (r: TrainRun)
    ensures r.LoadFailed? <==> lib.load(file).Fail?
    ensures r.LoadFailed? ==> r.message == lib.load(file).message
    ensures r.ConversionFailed? ==> lib.load(file) == Ok(r.loaded) && lib.lastToNominal(r.loaded) == Fail(r.message)
    ensures (r.BuildFailed? || r.Built?) ==>
              lib.load(file).Ok? && lib.lastToNominal(lib.load(file).value).Ok? &&
              r.prepared.attributes == lib.lastToNominal(lib.load(file).value).value.attributes &&
              r.prepared.rows == lib.lastToNominal(lib.load(file).value).value.rows &&
              r.prepared.classIndex == r.prepared.NumAttributes() - 1
    ensures r.BuildFailed? ==> lib.induce(r.prepared) == Fail(r.message)
    ensures r.Built? ==> lib.induce(r.prepared) == Ok(r.model)
  {
    match lib.load(file)
    case Fail(m) => LoadFailed(m)
    case Ok(loaded) =>
      match lib.lastToNominal(loaded)
      case Fail(m) => ConversionFailed(loaded, m)
      case Ok(nominal) =>
        var prepared := nominal.SetClassIndex(nominal.NumAttributes() - 1);
        match lib.induce(prepared)
        case Fail(m) => BuildFailed(prepared, m)
        case Ok(model) => Built(prepared, model)
  }

  /** The body of the `try` in `predictRisk`: build the query row, classify
      it, look up the label of the predicted class. */
  function Query(lib: Library, root: Option<TreeModel>, data: Instances, zone: int, time: int, day: int): (r: Outcome<string>)
    ensures r.Ok? <==>
              lib.makeQuery(data, zone, time, day).Ok? &&
              lib.classify(root, lib.makeQuery(data, zone, time, day).value).Ok? &&
              lib.classLabel(data, lib.classify(root, lib.makeQuery(data, zone, time, day).value).value).Ok?
    ensures r.Ok? ==>
              r == lib.classLabel(data, lib.classify(root, lib.makeQuery(data, zone, time, day).value).value)
    ensures lib.makeQuery(data, zone, time, day).Fail? ==> r == Fail(lib.makeQuery(data, zone, time, day).message)
    ensures lib.makeQuery(data, zone, time, day).Ok? && lib.classify(root, lib.makeQuery(data, zone, time, day).value).Fail? ==>
              r == Fail(lib.classify(root, lib.makeQuery(data, zone, time, day).value).message)
    ensures lib.makeQuery(data, zone, time, day).Ok? && lib.classify(root, lib.makeQuery(data, zone, time, day).value).Ok? ==>
              r == lib.classLabel(data, lib.classify(root, lib.makeQuery(data, zone, time, day).value).value)
  {
    match lib.makeQuery(data, zone, time, day)
    case Fail(m) => Fail(m)
    case Ok(instance) =>
      match lib.classify(root, instance)
      case Fail(m) => Fail(m)
      case Ok(index) => lib.classLabel(data, index)
  }

  class MLService {
    var tree: J48?
    var data: Option<Instances>

    constructor()
      ensures tree == null && data == None
    {
      tree := null;
      data := None;
    }

    /** Both fields are set, so `predictRisk` gets past its guard. */
    predicate IsTrained()
      reads this
    {
      tree != null && data.Some?
    }

    /** The fields after a training run that started from `tree0` and `data0`. */
    ghost predicate StateAfter(run: TrainRun, tree0: J48?, data0: Option<Instances>)
      reads this, tree
    {
      match run
      case LoadFailed(_) => tree == tree0 && data == data0
      case ConversionFailed(loaded, _) => tree == tree0 && data == Some(loaded)
      case BuildFailed(prepared, _) => tree != null && tree.root == None && data == Some(prepared)
      case Built(prepared, model) => tree != null && tree.root == Some(model) && data == Some(prepared)
    }

    /** `trainModel(file)`. Each field is overwritten as soon as its new
        value exists, so a failing step leaves the earlier updates in place. */
    method TrainModel(lib: Library, file: Csv) returns (thrown: Outcome<Unit>)
      modifies this
      ensures thrown == Run(lib, file).Thrown()
      ensures StateAfter(Run(lib, file), old(tree), old(data))
      ensures tree != old(tree) ==> fresh(tree)
      ensures Run(lib, file).BuildFailed? || Run(lib, file).Built? ==> fresh(tree)
      // Spelled out although `modifies this` already implies it: a J48 the
      // service held before is never rebuilt, only replaced.
      ensures old(tree) != null ==> old(tree).root == old(tree.root)
      ensures old(IsTrained()) ==> IsTrained()
    {
      var loaded := lib.load(file);
      if loaded.Fail? {
        return Fail(loaded.message);
      }
      data := Some(loaded.value);

      var nominal := lib.lastToNominal(data.value);
      if nominal.Fail? {
        return Fail(ConversionErrorPrefix + nominal.message);
      }
      data := Some(nominal.value);

      data := Some(data.value.SetClassIndex(data.value.NumAttributes() - 1));

      tree := new J48();
      var built := tree.BuildClassifier(lib, data.value);
      if built.Fail? {
        return Fail(BuildErrorPrefix + built.message);
      }
      return Ok(Unit);
    }

    /** `predictRisk(zone, time, day)`: the not-trained sentinel, the
        predicted label, or the message of whatever the Weka steps threw. */
    function PredictRisk(lib: Library, zone: int, time: int, day: int): (r: string)
      reads this, tree
      ensures !IsTrained() ==> r == NotTrained
      ensures IsTrained() && Query(lib, tree.root, data.value, zone, time, day).Ok? ==>
                r == Query(lib, tree.root, data.value, zone, time, day).value
      ensures IsTrained() && Query(lib, tree.root, data.value, zone, time, day).Fail? ==>
                r == PredictionErrorPrefix + Query(lib, tree.root, data.value, zone, time, day).message
    {
      if tree == null || data.None? then
        NotTrained
      else
        match Query(lib, tree.root, data.value, zone, time, day)
        case Ok(predicted) => predicted
        case Fail(m) => PredictionErrorPrefix + m
    }
  }
}
