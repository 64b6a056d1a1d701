/** Bounds of whole numbers. */
module Numbers {

  function Min(a: nat, b: nat): nat {
    if a < b then a else b
  }

  function Max(a: nat, b: nat): nat {
    if a < b then b else a
  }

  // The number from 0 up to `high` that is nearest to x.
  function Clamp(x: int, high: nat): (r: nat)
    ensures r <= high
    ensures r == x || (x < r && r == 0) || (x > r && r == high)
  {
    if x < 0 then 0 else if x > high then high else x
  }
}
