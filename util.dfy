/** Small shared definitions: failure-compatible Option and Result, powers of two,
    and the `join` of a list of strings with a separator. */
module Util {

  datatype Option<+T> = None | Some(value: T) {
    predicate IsFailure() { None? }

    function PropagateFailure<U>(): Option<U>
      requires None?
    {
      None
    }

    function Extract(): T
      requires Some?
    {
      value
    }
  }

  datatype Result<+T, +E> = Ok(value: T) | Err(error: E) {
    predicate IsFailure() { Err? }

    function PropagateFailure<U>(): Result<U, E>
      requires Err?
    {
      Err(error)
    }

    function Extract(): T
      requires Ok?
    {
      value
    }
  }

  /** The process stops with a panic. */
  datatype Panic = Panic

  function Pow2(k: nat): (r: nat)
    ensures r >= 1
  {
    if k == 0 then 1 else 2 * Pow2(k - 1)
  }

  /** `parts.join(sep)`: the parts in order with `sep` between neighbours. */
  function JoinWith(parts: seq<string>, sep: string): string
  {
    if |parts| == 0 then ""
    else if |parts| == 1 then parts[0]
    else parts[0] + sep + JoinWith(parts[1..], sep)
  }

  /** Joining one more part on the right adds the separator and the part. */
  lemma {:induction false} JoinWithSnoc(parts: seq<string>, p: string, sep: string)
    ensures JoinWith(parts + [p], sep) ==
            if parts == [] then p else JoinWith(parts, sep) + sep + p
  {
    if |parts| <= 1 {
    } else {
      assert (parts + [p])[1..] == parts[1..] + [p];
      JoinWithSnoc(parts[1..], p, sep);
    }
  }

  /** Joining with a leading part. */
  lemma JoinWithCons(p: string, parts: seq<string>, sep: string)
    ensures JoinWith([p] + parts, sep) == if parts == [] then p else p + sep + JoinWith(parts, sep)
  {
    assert ([p] + parts)[1..] == parts;
  }
}
