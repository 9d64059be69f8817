/** Shared vocabulary: optional values, results carrying the failure that
    Python would raise, and the scalar JSON values found in secrets and in
    Connecteam custom fields. */
module Base {
  import Text

  datatype Option<T> = None | Some(value: T)

  /** The exceptions that escape a step of the job. */
  datatype Fault =
    | Timeout                    // httpx.TimeoutException after the client's retries
    | HttpStatus(code: int)      // raise_for_status on a non-2xx response
    | InvalidJson                // response.json() on a 2xx body that is not JSON
    | MissingField(name: string) // KeyError on a row field read with [...]
    | InvalidDate(text: string)  // ValueError from datetime.fromisoformat
    | MissingApiKey              // ValueError from ConnecteamConfig.from_env

  datatype Result<T> = Ok(value: T) | Err(fault: Fault)

  /** A JSON scalar as Python sees it after json.loads. */
  datatype Scalar = JsonNull | JsonBool(b: bool) | JsonInt(i: int) | JsonStr(s: string)

  /** Python's `str(v)` (also what an f-string placeholder renders). */
  function PyStr(v: Scalar): string {
    match v
    case JsonNull => "None"
    case JsonBool(b) => if b then "True" else "False"
    case JsonInt(i) => Text.IntToString(i)
    case JsonStr(s) => s
  }

  /** Python truthiness. */
  predicate Truthy(v: Scalar) {
    match v
    case JsonNull => false
    case JsonBool(b) => b
    case JsonInt(i) => i != 0
    case JsonStr(s) => s != ""
  }

  /** A truthy scalar never renders as the empty string, and only the empty
      string renders as the empty string. */
  lemma TruthyRendersNonEmpty(v: Scalar)
    ensures Truthy(v) ==> PyStr(v) != ""
    ensures PyStr(v) == "" <==> v == JsonStr("")
  {
  }

  /** Apply `f` to each element in order, stopping at the first failure. */
  function MapResult<A, T>(xs: seq<A>, f: A -> Result<T>): (r: Result<seq<T>>)
    ensures r.Err? <==> exists i | 0 <= i < |xs| :: f(xs[i]).Err?
    ensures r.Ok? ==> |r.value| == |xs| && forall i | 0 <= i < |xs| :: f(xs[i]) == Ok(r.value[i])
  {
    if xs == [] then Ok([])
    else
      var pre := xs[..|xs| - 1];
      assert forall i | 0 <= i < |pre| :: pre[i] == xs[i];
      match MapResult(pre, f)
      case Err(e) => Err(e)
      case Ok(ys) =>
        match f(xs[|xs| - 1])
        case Err(e) => Err(e)
        case Ok(y) =>
          assert forall i | 0 <= i < |pre| :: (ys + [y])[i] == ys[i];
          Ok(ys + [y])
  }
}
