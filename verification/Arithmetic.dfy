/** Small numeric helpers shared by the other modules. */
module Arithmetic {

  function Least(a: nat, b: nat): nat
  {
    if a < b then a else b
  }

  function Abs(x: real): real
  {
    if x < 0.0 then -x else x
  }
}
