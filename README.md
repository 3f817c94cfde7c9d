# Urban-risk prediction service: training and prediction model

The application takes a CSV file through a web upload and trains a J48 decision
tree (Weka) on it. It then answers risk queries for a `(zone, time, day)`
triple. This project models the two classes that carry the behaviour:

- `MLService` (module `Service`) holds two fields, `tree` (a `J48`) and `data`
  (the training `Instances`). Both start null.
  - `trainModel` overwrites them one step at a time. It loads the CSV, converts
    the last attribute to nominal, makes that attribute the class, then
    creates a new `J48` and builds it. A step that throws leaves the updates
    made before it in place.
  - `predictRisk` is a read-only query. It returns the not-trained sentinel,
    the predicted label, or `"Error in prediction: "` followed by the failure's
    message.
- `UploadController` (module `Controller`) times `trainModel` with two clock
  readings. It splits the elapsed nanoseconds into whole minutes and leftover
  whole seconds with `TimeUnit` (module `TimeUnits`), writes them in decimal
  (module `Decimal`), and renders the `index` view with a success or failure
  message.

Weka is not modelled. A `Library` value (module `Weka`) stands for it. Each step
(load, filter, induce, build the query row, classify, look up the label) is a
function that returns a value or fails with a message. So every property below
holds whatever Weka does. Java exceptions are `Outcome.Fail(message)`.

Java arithmetic is written out:
- `long` subtraction wraps in 64 bits.
- `/` truncates toward zero (`Quot`).
- `TimeUnit.MINUTES.toSeconds` saturates at the `long` bounds.

The repository's `final thread/` variant trains on a thread pool. This model
follows `final/`, which trains a single J48 synchronously.

## Model

| member | source | states |
|---|---|---|
| `Service.MLService.constructor` | final/src/main/java/com/securite/urbaine/service/MLService.java:22-25 | `tree` and `data` both start null. |
| `Service.Run` | final/src/main/java/com/securite/urbaine/service/MLService.java:33-64 | Which step of training fails, and the values the earlier steps produced. Loading fails exactly when the loader fails, with the loader's message. A conversion failure carries the loaded dataset and the filter's message. After a successful conversion, the prepared dataset has the converted attributes and rows, with the class index on the last attribute (`numAttributes() - 1`). Building fails or succeeds exactly as induction on that prepared dataset does. |
| `Service.MLService.TrainModel` | final/src/main/java/com/securite/urbaine/service/MLService.java:33-64 | What is thrown depends on the failing step. A load failure throws the loader's message and changes neither field. A conversion failure throws `"Failed to convert numeric class attribute to nominal: "` + message; `data` is already the loaded dataset and `tree` is unchanged. A build failure throws `"Failed to build classifier: "` + message; `data` is prepared and `tree` is a fresh, unbuilt `J48`. On success, `tree` is a fresh `J48` holding the induced tree. Whenever the build step is reached, `tree` is a newly constructed `J48`, whatever it held before. `tree` changes only to a fresh object, and an earlier `J48` is never touched. Once both fields are set they stay set. |
| `Service.TrainRun.Thrown` | final/src/main/java/com/securite/urbaine/service/MLService.java:52-63 | `trainModel` returns normally only when the tree was built. A load failure rethrows the loader's message. A conversion or build failure throws its prefix followed by the cause's message. |
| `Service.Query` | final/src/main/java/com/securite/urbaine/service/MLService.java:80-92 | The try body of `predictRisk` yields a label exactly when building the row, classifying it and looking up the label all succeed, and that label is the lookup's. Each step's failure is reported with that step's own message: building the row, classifying, or looking up the label. |
| `Service.MLService.PredictRisk` | final/src/main/java/com/securite/urbaine/service/MLService.java:74-96 | Returns exactly `"Model not trained yet"` when `tree` or `data` is null, for every `(zone, time, day)`. Otherwise it returns the label when building the row, classifying and the label lookup all succeed, and `"Error in prediction: "` + message when any of them fails. It never throws and, being a function, changes no field. |
| `Weka.Instances.SetClassIndex` | final/src/main/java/com/securite/urbaine/service/MLService.java:56 | Sets the class index and keeps the attributes and rows. It requires an index below the attribute count, as Weka does. |
| `Weka.J48.constructor` | final/src/main/java/com/securite/urbaine/service/MLService.java:58 | A new `J48` holds no induced tree. |
| `Weka.J48.BuildClassifier` | final/src/main/java/com/securite/urbaine/service/MLService.java:59-63 | On success the `J48` holds the tree that induction produced. On failure it throws induction's message. |
| `Controller.Index` | final/src/main/java/com/securite/urbaine/controller/UploadController.java:25-27 | The view name is `"index"`. |
| `TimeUnits.WrapLong` | final/src/main/java/com/securite/urbaine/controller/UploadController.java:35 | The result is a `long` congruent to its argument modulo 2^64, and equal to it when the argument fits in a `long`. |
| `TimeUnits.Duration` | final/src/main/java/com/securite/urbaine/controller/UploadController.java:35 | `endTime - startTime` computed on `long`s. It is exact whenever the true difference fits. |
| `TimeUnits.NanosToMinutes` | final/src/main/java/com/securite/urbaine/controller/UploadController.java:36 | `NANOSECONDS.toMinutes`: the whole minutes truncated toward zero, with the leftover nanoseconds in `[0, 60·10⁹)` for a non-negative interval and in `(-60·10⁹, 0]` for a negative one. |
| `TimeUnits.NanosToSeconds` | final/src/main/java/com/securite/urbaine/controller/UploadController.java:37 | `NANOSECONDS.toSeconds`: the whole seconds truncated toward zero, with the leftover nanoseconds in `[0, 10⁹)` for a non-negative interval and in `(-10⁹, 0]` for a negative one. |
| `TimeUnits.Quot` | final/src/main/java/com/securite/urbaine/controller/UploadController.java:36-37 | Java's truncating division: the remainder lies in `[0, b)` for a non-negative dividend and in `(-b, 0]` for a negative one. |
| `TimeUnits.MinutesToSeconds` | final/src/main/java/com/securite/urbaine/controller/UploadController.java:37 | `MINUTES.toSeconds` stays inside `long` and equals `60 * m` whenever that product cannot overflow. |
| `TimeUnits.MinutesNeverSaturate` | final/src/main/java/com/securite/urbaine/controller/UploadController.java:36-37 | For every `long` interval, the minute count is inside the range where `MINUTES.toSeconds` is exact. |
| `TimeUnits.NestedQuot` | final/src/main/java/com/securite/urbaine/controller/UploadController.java:36-37 | Truncated whole minutes equal truncated whole seconds divided by 60 (truncated), for negative intervals too. |
| `TimeUnits.Split` | final/src/main/java/com/securite/urbaine/controller/UploadController.java:35-37 | `minutes` is `durationNs / 60·10⁹` truncated. `60 * minutes + seconds` is the whole seconds `durationNs / 10⁹`, so the sub-second remainder is dropped. `0 <= seconds <= 59` for a non-negative interval and `-59 <= seconds <= 0` for a negative one. |
| `Decimal.LongString` | final/src/main/java/com/securite/urbaine/controller/UploadController.java:38 | `Long.toString` as string concatenation applies it: non-empty, without spaces, and starting with `-` exactly for a negative number. There are no leading zeros: the digits start with `0` only when they are exactly `"0"`. |
| `Decimal.ParseLongString` | final/src/main/java/com/securite/urbaine/controller/UploadController.java:38 | The decimal text Java writes for a `long` reads back as that `long`. |
| `Controller.SuccessMessage` | final/src/main/java/com/securite/urbaine/controller/UploadController.java:38 | The success message starts with `"File uploaded and model trained successfully in : "`. |
| `Controller.SuccessMessageRoundTrip` | final/src/main/java/com/securite/urbaine/controller/UploadController.java:38 | The success message states exactly the minutes and seconds it was built from: parsing it gives them back. |
| `Controller.Respond` | final/src/main/java/com/securite/urbaine/controller/UploadController.java:31-42 | The view is `"index"` on both paths. On success the message is exactly `"File uploaded and model trained successfully in : " + minutes + " min " + seconds + " sec"` for the split of `endTime - startTime`, and parses back to that split. On an `IOException` it is `"Failed to upload file: " + message`. A message parses as a success message if and only if training succeeded. |
| `Controller.UploadController.constructor` | final/src/main/java/com/securite/urbaine/controller/UploadController.java:21-22 | The controller holds the service it was given, the injected `mlService`. |
| `Controller.UploadController.UploadFile` | final/src/main/java/com/securite/urbaine/controller/UploadController.java:29-43 | Trains the service and renders what `Respond` gives for the exception `trainModel` threw. The service's fields end in the state `trainModel` describes, and `mlService.tree` is a new `J48` whenever the build step is reached. |

## Left out

- Weka's own behaviour is not modelled: CSV parsing, the `NumericToNominal` filter, J48 induction, `DenseInstance`/`setValue`, `classifyInstance` and `Attribute.value`. Each is a function field of `Weka.Library` that any behaviour may fill. The source of that library is not part of this model.
- `Weka.Instances` keeps the attribute names, the rows and the class index. Each cell is Weka's text for it, without Weka's typed values (numeric, nominal index, missing). The rows are produced by the load step and read only by the other Weka steps, never by the service.
- `classifyInstance` returns a `double` that the source casts with `(int)`. The model's classify step returns the integer class index directly, so no floating point is involved.
- `Weka.J48.BuildClassifier`: on failure it keeps what the `J48` held before (for the fresh `J48` of `trainModel`, nothing). Weka's partial state after a failed build is not modelled.
- `getMessage()` can be null, which Java concatenation writes as `"null"`. The model's messages are always strings.
- `Weka.Library.load` stands for `file.getInputStream()`, `setSource` and `getDataSet` together, all of which throw `IOException`. Runtime exceptions that escape `trainModel` uncaught, and so also escape `uploadFile`, are not modelled.
- The Spring `Model` attribute map, request mapping and multipart handling are not modelled. `uploadFile` returns the message with the view name.
- `System.nanoTime()` is not modelled. The two readings are parameters of `UploadFile`.
- `final/src/main/java/com/securite/urbaine/model/TrafficData.java` is a data holder with no logic and is not part of this model.
- The `final thread/` variant is not part of this model: its partitioned thread-pool training, queue, progress counter and choice of the first finished classifier. The unguarded races on the shared `tree`/`data` fields when two requests overlap are not modelled either. Both are concurrency.
