/** The upload page's controller: `index()` and `uploadFile`, which trains
    the service on the uploaded file, times the training and reports the
    outcome as a message on the `index` view. The clock is not modelled: the
    two `System.nanoTime()` readings are parameters. */
module Controller {
  import opened Outcomes
  import opened Weka
  import opened Service
  import opened TimeUnits
  import opened Decimal

  const ViewName: string := "index"
  /** Written as two literals only so that the verifier can see its first
      characters (it does not look inside a literal this long). */
  const SuccessPrefix: string := "File" + " uploaded and model trained successfully in : "
  const FailurePrefix: string := "Failed to upload file: "

  /** The view and the "message" attribute a request renders. */
  datatype Response = Response(message: string, view: string)

  /** The message reporting a successful training and its duration. */
  function SuccessMessage(e: Elapsed): (msg: string)
    ensures |SuccessPrefix| <= |msg| && msg[..|SuccessPrefix|] == SuccessPrefix
  {
    SuccessPrefix + LongString(e.minutes) + " min " + LongString(e.seconds) + " sec"
  }

  /** Index of the first space in `s`, or `|s|` when there is none. */
  function FirstSpace(s: string): (i: nat)
    ensures i <= |s|
  {
    if s == [] || s[0] == ' ' then 0 else 1 + FirstSpace(s[1..])
  }

  /** Reads the minutes and seconds back out of a success message. */
  function ParseSuccessMessage(msg: string): Option<Elapsed> {
    if |msg| < |SuccessPrefix| || msg[..|SuccessPrefix|] != SuccessPrefix then None
    else
      var body := msg[|SuccessPrefix|..];
      var i := FirstSpace(body);
      var rest := body[i..];
      if |rest| < 5 || rest[..5] != " min " then None
      else
        var tail := rest[5..];
        if |tail| < 4 || tail[|tail| - 4..] != " sec" then None
        else
          match (ParseLong(body[..i]), ParseLong(tail[..|tail| - 4]))
          case (Some(m), Some(s)) => Some(Elapsed(m, s))
          case _ => None
  }

  lemma {:induction false} FirstSpaceAfter(a: string, b: string)
    requires ' ' !in a
    requires |b| > 0 && b[0] == ' '
    ensures FirstSpace(a + b) == |a|
  {
    if a != [] {
      assert (a + b)[1..] == a[1..] + b;
      FirstSpaceAfter(a[1..], b);
    }
  }

  /** Parsing a message of the success shape reads back the two numbers
      written in it, provided the first has no space. */
  lemma ParseSuccessShape(minutes: string, seconds: string)
    requires ' ' !in minutes
    ensures ParseSuccessMessage(SuccessPrefix + minutes + " min " + seconds + " sec") ==
            match (ParseLong(minutes), ParseLong(seconds))
            case (Some(m), Some(s)) => Some(Elapsed(m, s))
            case _ => None
  {
    var msg := SuccessPrefix + minutes + " min " + seconds + " sec";
    var body := msg[|SuccessPrefix|..];
    assert msg[..|SuccessPrefix|] == SuccessPrefix;
    assert body == minutes + (" min " + seconds + " sec");
    FirstSpaceAfter(minutes, " min " + seconds + " sec");
    var rest := body[|minutes|..];
    assert rest == " min " + seconds + " sec";
    var tail := rest[5..];
    assert tail == seconds + " sec";
    assert body[..|minutes|] == minutes;
    assert tail[..|tail| - 4] == seconds;
  }

  /** The success message states exactly the minutes and seconds it was
      given. */
  lemma SuccessMessageRoundTrip(e: Elapsed)
    ensures ParseSuccessMessage(SuccessMessage(e)) == Some(e)
  {
    ParseSuccessShape(LongString(e.minutes), LongString(e.seconds));
    ParseLongString(e.minutes);
    ParseLongString(e.seconds);
  }

  /** No failure message starts like a success message: the two prefixes
      differ in their third character ("Fai…" against "Fil…"). */
  lemma FailureIsNotSuccess(m: string)
    ensures var msg := FailurePrefix + m;
            |msg| < |SuccessPrefix| || msg[..|SuccessPrefix|] != SuccessPrefix
  {
    var msg := FailurePrefix + m;
    assert msg[2] == 'i' && SuccessPrefix[2] == 'l';
    assert |msg| >= |SuccessPrefix| ==> msg[..|SuccessPrefix|][2] != SuccessPrefix[2];
  }

  /** `index()`. */
  function Index(): (view: string)
    ensures view == "index"
  {
    ViewName
  }

  /** What `uploadFile` renders once `trainModel` has returned or thrown,
      with the clock readings taken before and after it. */
  function Respond(thrown: Outcome<Unit>, startTime: int, endTime: int): (r: Response)
    requires IsLong(startTime) && IsLong(endTime)
    ensures r.view == Index()
    ensures thrown.Ok? ==> r.message == SuccessMessage(Split(Duration(startTime, endTime)))
    ensures thrown.Ok? ==> ParseSuccessMessage(r.message) == Some(Split(Duration(startTime, endTime)))
    ensures thrown.Fail? ==> r.message == FailurePrefix + thrown.message
    ensures thrown.Ok? <==> ParseSuccessMessage(r.message).Some?
  {
    match thrown
    case Ok(_) =>
      var elapsed := Split(Duration(startTime, endTime));
      SuccessMessageRoundTrip(elapsed);
      Response(SuccessMessage(elapsed), ViewName)
    case Fail(m) =>
      FailureIsNotSuccess(m);
      Response(FailurePrefix + m, ViewName)
  }

  class UploadController {
    const mlService: MLService

    constructor(service: MLService)
      ensures mlService == service
    {
      mlService := service;
    }

    /** `uploadFile(model, file)`: train, then report success with the
        elapsed time or the `IOException`'s message; the view is `index`
        either way. */
    method UploadFile(lib: Library, file: Csv, startTime: int, endTime: int) returns (r: Response)
      requires IsLong(startTime) && IsLong(endTime)
      modifies mlService
      ensures r == Respond(Run(lib, file).Thrown(), startTime, endTime)
      ensures mlService.StateAfter(Run(lib, file), old(mlService.tree), old(mlService.data))
      ensures mlService.tree != old(mlService.tree) ==> fresh(mlService.tree)
      ensures Run(lib, file).BuildFailed? || Run(lib, file).Built? ==> fresh(mlService.tree)
    {
      var thrown := mlService.TrainModel(lib, file);
      r := Respond(thrown, startTime, endTime);
    }
  }
}
