/** Small arithmetic that several of the modelled programs share. */
module Numbers {
  function Abs(r: real): real { if r < 0.0 then -r else r }

  function Min(a: real, b: real): real { if a <= b then a else b }

  function Max(a: real, b: real): real { if a >= b then a else b }

  /** How far two indices are apart. */
  function Distance(a: nat, b: nat): nat {
    if a >= b then a - b else b - a
  }
}
