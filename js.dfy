/**
 * The JavaScript values, exceptions and process results the wrapper deals in.
 * The tool itself is not modelled: a run of it is a `ToolResult`, the value
 * `execa` resolves with (exit code 0) or rejects with (any other exit).
 */
module Js {

  import opened Text

  /** An argument value, as far as the wrapper's checks tell values apart.
      Numbers are integers here. */
  datatype Value =
    | Undefined
    | Null
    | Bool(b: bool)
    | Number(n: int)
    | Str(s: string)
    | Object

  /** A destructuring default `{ x = fallback }`: it applies only to `undefined`. */
  function WithDefault(v: Value, fallback: Value): (r: Value)
    ensures v.Undefined? ==> r == fallback
    ensures !v.Undefined? ==> r == v
  {
    if v.Undefined? then fallback else v
  }

  /** `if (v)` */
  predicate Truthy(v: Value) {
    match v
    case Undefined => false
    case Null => false
    case Bool(b) => b
    case Number(n) => n != 0
    case Str(s) => s != []
    case Object => true
  }

  /** What an operation can throw (its promise rejects with). */
  datatype Error =
    | ArgumentError                           // `ow` refused an argument
    | AdminRequired                           // `forceAdmin` found no elevated privileges
    | ToolFailure(code: int, stdout: string)  // the error `execa` rejected with, passed on unchanged
    | TypeError                               // `.groups` or `.map` read from the `null` of a failed match

  datatype Outcome<+T> = Returned(value: T) | Threw(error: Error)

  /** How one run of the command-line tool ends, as `execa` reports it. */
  datatype ToolResult =
    | Succeeded(stdout: string)
    | Failed(code: int, stdout: string)
  {
    /** The error object `execa` rejects with. */
    function AsError(): Error
      requires Failed?
    {
      ToolFailure(code, stdout)
    }
  }

  /** `xs.map(f)` with a callback that may throw: the first element whose
      callback throws ends the whole call with that error. */
  function MapOrThrow<A, B>(xs: seq<A>, f: A -> Outcome<B>): (r: Outcome<seq<B>>)
    ensures r.Returned? ==> |r.value| == |xs|
  {
    if xs == [] then Returned([])
    else match f(xs[0])
      case Threw(e) => Threw(e)
      case Returned(y) =>
        match MapOrThrow(xs[1..], f)
        case Threw(e) => Threw(e)
        case Returned(ys) => Returned([y] + ys)
  }

  /** The map returns exactly when every callback returns, and then holds
      each callback's value at its element's place; otherwise it throws the
      error of the first callback that throws. */
  lemma {:induction false} MapOrThrowEach<A, B>(xs: seq<A>, f: A -> Outcome<B>)
    ensures var r := MapOrThrow(xs, f);
            && (r.Returned? <==> forall k | 0 <= k < |xs| :: f(xs[k]).Returned?)
            && (r.Returned? ==> forall k | 0 <= k < |xs| :: f(xs[k]) == Returned(r.value[k]))
            && (r.Threw? ==> exists k | 0 <= k < |xs| ::
                  f(xs[k]) == Threw(r.error) && forall j | 0 <= j < k :: f(xs[j]).Returned?)
    decreases |xs|
  {
    if xs != [] {
      MapOrThrowEach(xs[1..], f);
      var r := MapOrThrow(xs, f);
      var rest := MapOrThrow(xs[1..], f);
      if f(xs[0]).Returned? {
        if rest.Returned? {
          forall k | 0 <= k < |xs| ensures f(xs[k]) == Returned(r.value[k]) {
            if k > 0 {
              assert xs[k] == xs[1..][k - 1];
            }
          }
        } else {
          var k :| 0 <= k < |xs[1..]| && f(xs[1..][k]) == Threw(rest.error)
                   && forall j | 0 <= j < k :: f(xs[1..][j]).Returned?;
          assert xs[1..][k] == xs[k + 1];
          forall j | 0 <= j < k + 1 ensures f(xs[j]).Returned? {
            if j > 0 {
              assert xs[j] == xs[1..][j - 1];
            }
          }
        }
      }
    }
  }

  /** One call of an operation: the argument list it handed to the tool, if it
      got that far, and how the call ended. */
  datatype Run<+T> = Run(invocation: Option<seq<string>>, outcome: Outcome<T>)

  /** The unit value of an operation that resolves with nothing. */
  datatype Unit = Unit
}
