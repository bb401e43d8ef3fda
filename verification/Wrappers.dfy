// Datatypes and small functions shared by all modules.

module Wrappers {
  datatype Option<+T> = None | Some(value: T)

  // The outcome of an operation that can fail with a message.
  datatype Result<+T> = Ok(value: T) | Err(message: string)
}

module Numbers {
  function Min(a: nat, b: nat): nat {
    if a <= b then a else b
  }

  function Max(a: nat, b: nat): nat {
    if a <= b then b else a
  }

  function Pow2(k: nat): (r: nat)
    ensures r >= 1
  {
    if k == 0 then 1 else 2 * Pow2(k - 1)
  }
}
