/** Shared vocabulary of the model: identifiers, the error taxonomy of the RPC layer, a
    failure-compatible result type, substring search as JavaScript's `includes` does it, and the
    string/number checks the input schemas perform. */
module Common {

  /** Every identifier in the system (post, reply and user ids) is a string. */
  type Id = string

  datatype Option<+T> = None | Some(value: T) {
    /** JavaScript's `x ?? default`. */
    function GetOr(default: T): T {
      if Some? then value else default
    }
  }

  /** The typed failures an RPC call surfaces. `Validation` carries the schema's issue messages,
      in the order the schema lists its fields. */
  datatype ApiError =
    | BadRequest(message: string)
    | Forbidden(message: string)
    | Internal(message: string)
    | Validation(issues: seq<string>)

  datatype Result<+T> = Ok(value: T) | Err(error: ApiError) {
    predicate IsFailure() {
      Err?
    }

    function PropagateFailure<U>(): Result<U>
      requires Err?
    {
      Err(error)
    }

    function Extract(): T
      requires Ok?
    {
      value
    }
  }

  function Min(a: int, b: int): int {
    if a <= b then a else b
  }

  /** `s.includes(t)`: `t` occurs in `s` as a contiguous block (the empty string occurs everywhere). */
  predicate Contains(s: string, t: string) {
    exists i :: 0 <= i <= |s| - |t| && OccursAt(s, t, i)
  }

  /** `t` is the block of `s` that starts at position `i`. */
  predicate OccursAt(s: string, t: string, i: int) {
    0 <= i && i + |t| <= |s| && s[i..i + |t|] == t
  }

  /** A string that ends with `t` contains it. */
  lemma ContainsSuffix(prefix: string, t: string)
    ensures Contains(prefix + t, t)
  {
    var s := prefix + t;
    assert OccursAt(s, t, |prefix|);
  }

  // Default issue messages of the schema library for strings and numbers.

  function AtLeastChars(n: nat): string {
    "String must contain at least " + NatToString(n) + " character(s)"
  }

  function AtMostChars(n: nat): string {
    "String must contain at most " + NatToString(n) + " character(s)"
  }

  function NatToString(n: nat): string
    decreases n
  {
    var digit := ["0", "1", "2", "3", "4", "5", "6", "7", "8", "9"][n % 10];
    if n < 10 then digit else NatToString(n / 10) + digit
  }

  /** The issues of `z.string().min(n, message)`. */
  function MinIssue(s: string, n: nat, message: string): seq<string> {
    if |s| < n then [message] else []
  }

  /** The issues of `z.string().max(n, message)`. */
  function MaxIssue(s: string, n: nat, message: string): seq<string> {
    if |s| > n then [message] else []
  }

  /** The issues of `z.number().min(1).max(100)`, the page-size bound every paginated query uses. */
  function LimitIssues(limit: int): (issues: seq<string>)
    ensures |issues| == 0 <==> 1 <= limit <= 100
    ensures limit < 1 ==> issues == [NumberAtLeast(1)]
    ensures limit > 100 ==> issues == [NumberAtMost(100)]
  {
    if limit < 1 then
      assert NatToString(1) == "1";
      assert NumberAtLeast(1) == "Number must be greater than or equal to 1";
      ["Number must be greater than or equal to 1"]
    else if limit > 100 then
      assert NatToString(1) == "1" && NatToString(10) == "10" && NatToString(100) == "100";
      assert NumberAtMost(100) == "Number must be less than or equal to 100";
      ["Number must be less than or equal to 100"]
    else []
  }

  /** The schema library's default issue for a number below its minimum. */
  function NumberAtLeast(n: nat): string {
    "Number must be greater than or equal to " + NatToString(n)
  }

  /** The schema library's default issue for a number above its maximum. */
  function NumberAtMost(n: nat): string {
    "Number must be less than or equal to " + NatToString(n)
  }
}
