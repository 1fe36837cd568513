/** Values shared by every step: optional values (the source's nullable
    references and nullable integers) and the outcome a step returns to the
    workflow host. */
module Wrappers {

  /** A nullable value: None stands for C#'s null. */
  datatype Option<+T> = None | Some(value: T)

  /** The named outcome a workflow step returns ("Done", "No Results", ...),
      with the data the outcome carries. StillPolling is not an outcome of the
      source: it is what the model returns when the sequence of observations
      given to a polling loop ends while the loop would go on waiting. */
  datatype StepResult<+T> =
    | Done(data: T)
    | NoResults
    | Timeout
    | AlreadyRunning
    | NotRunning
    | Error(message: string)
    | StillPolling

  /** An entry of a step's OutcomeScenarios list: the outcome's name and the
      name of the data it carries, if any. */
  datatype OutcomeScenario = OutcomeScenario(name: string, dataName: Option<string>)

  /** The outcome name a result is reported under; StillPolling has none. */
  function OutcomeName<T>(r: StepResult<T>): string
  {
    match r
    case Done(_) => "Done"
    case NoResults => "No Results"
    case Timeout => "Timeout"
    case AlreadyRunning => "Already Running"
    case NotRunning => "Not Running"
    case Error(_) => "Error"
    case StillPolling => ""
  }

  /** A result the workflow can route: its outcome is in the list. */
  predicate Listed<T>(r: StepResult<T>, outcomes: seq<OutcomeScenario>)
  {
    exists i :: 0 <= i < |outcomes| && outcomes[i].name == OutcomeName(r)
  }

  const ErrorOutcome: OutcomeScenario := OutcomeScenario("Error", Some("Error Message"))
  const TimeoutOutcome: OutcomeScenario := OutcomeScenario("Timeout", None)

  /** The outcome list the guest-polling steps share: Done (carrying
      `doneData`), Timeout when the step waits with a timeout, the step's
      optional guard outcome, then Error. */
  function PollingOutcomes(doneData: Option<string>, withTimeout: bool, guard: Option<string>)
    : (os: seq<OutcomeScenario>)
    requires guard.Some? ==> guard.value !in {"Done", "Timeout", "Error"}
    ensures |os| >= 2 && os[0] == OutcomeScenario("Done", doneData) && os[|os| - 1] == ErrorOutcome
    ensures TimeoutOutcome in os <==> withTimeout
    ensures forall g :: OutcomeScenario(g, None) in os && g !in {"Done", "Timeout", "Error"} <==> guard == Some(g)
    ensures forall o :: o in os ==> o.name in {"Done", "Timeout", "Error"} || Some(o.name) == guard
  {
    [OutcomeScenario("Done", doneData)]
    + (if withTimeout then [TimeoutOutcome] else [])
    + (if guard.Some? then [OutcomeScenario(guard.value, None)] else [])
    + [ErrorOutcome]
  }

  /** The message of the exception C# throws when a null `int?` is converted
      to a number. */
  const NullableHasNoValue: string := "Nullable object must have a value."

  /** The message of the exception C# throws when a member of a null
      reference is accessed. */
  const NullReference: string := "Object reference not set to an instance of an object."

  /** C#'s byte. */
  newtype byte = x: int | 0 <= x < 256

  /** C#'s `string.IsNullOrEmpty`. */
  predicate IsNullOrEmpty(s: Option<string>)
  {
    s.None? || s.value == ""
  }

  /** Ordinal `StartsWith`. */
  predicate StartsWith(s: string, prefix: string)
  {
    |prefix| <= |s| && s[..|prefix|] == prefix
  }

  /** C#'s string concatenation with a nullable operand: null reads as "". */
  function OrEmpty(s: Option<string>): string
  {
    if s.Some? then s.value else ""
  }

  /** C#'s decimal rendering of an int, used in error messages. */
  function IntToString(n: int): (s: string)
    ensures |s| >= 1
    decreases if n < 0 then -n + 1 else n
  {
    if n < 0 then "-" + IntToString(-n)
    else if n < 10 then [DigitChar(n)]
    else IntToString(n / 10) + [DigitChar(n % 10)]
  }

  function DigitChar(d: int): char
    requires 0 <= d < 10
  {
    ['0', '1', '2', '3', '4', '5', '6', '7', '8', '9'][d]
  }
}
