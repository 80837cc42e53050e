/**
  Shared vocabulary of the model: optional values (JavaScript's `null` and
  `undefined` both become `None`), the outcome of an awaited call that may
  throw, JavaScript truthiness of an optional string, and the two string
  helpers the system leans on: `Array.prototype.join` and the decimal
  rendering of a number inside a template literal.
*/
module Base {

  datatype Option<+T> = None | Some(value: T)

  /** The outcome of an awaited call: it either returns a value or throws an
      error whose `message` is kept. */
  datatype Outcome<+T> = Done(value: T) | Threw(message: string)

  /** JavaScript truthiness of a value that is a string, `null` or `undefined`:
      only a non-empty string is truthy. */
  predicate Truthy(v: Option<string>) {
    v.Some? && v.value != ""
  }

  /** `parts.join(sep)`: the parts in order, with `sep` between neighbours. */
  function Join(parts: seq<string>, sep: string): string
    decreases |parts|
  {
    if |parts| == 0 then ""
    else if |parts| == 1 then parts[0]
    else parts[0] + sep + Join(parts[1..], sep)
  }

  /** Joining a first part onto a non-empty rest puts exactly one separator
      between them. */
  lemma JoinCons(p: string, rest: seq<string>, sep: string)
    requires |rest| > 0
    ensures Join([p] + rest, sep) == p + sep + Join(rest, sep)
  {
    assert ([p] + rest)[1..] == rest;
  }

  /** Joining two non-empty lists is joining each and putting one separator
      between the results. */
  lemma {:induction false} JoinAppend(a: seq<string>, b: seq<string>, sep: string)
    requires |a| > 0 && |b| > 0
    ensures Join(a + b, sep) == Join(a, sep) + sep + Join(b, sep)
    decreases |a|
  {
    if |a| == 1 {
      assert (a + b)[1..] == b;
    } else {
      assert (a + b)[1..] == a[1..] + b;
      JoinAppend(a[1..], b, sep);
    }
  }

  /** The decimal digits of a natural number, as `${n}` renders it. */
  function Decimal(n: nat): (r: string)
    ensures |r| > 0
    ensures forall i :: 0 <= i < |r| ==> '0' <= r[i] <= '9'
    decreases n
  {
    if n < 10 then ["0123456789"[n]]
    else Decimal(n / 10) + ["0123456789"[n % 10]]
  }
}
