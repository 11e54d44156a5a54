/** The integer helpers of the colour package's HSB conversions. */
module Hsb {

  /** clamp0To255: the nearest value in [0, 255]. */
  function Clamp0To255(value: int): (r: int)
    ensures 0 <= r <= 255
    ensures 0 <= value <= 255 ==> r == value
    ensures value < 0 ==> r == 0
    ensures value > 255 ==> r == 255
  {
    if value < 0 then 0 else if value > 255 then 255 else value
  }

  /** Clamping a clamped value changes nothing. */
  lemma ClampIdempotent(value: int)
    ensures Clamp0To255(Clamp0To255(value)) == Clamp0To255(value)
  {
  }

  /** min: the least of three. */
  function Min3(a: int, b: int, c: int): (r: int)
    ensures r <= a && r <= b && r <= c
    ensures r == a || r == b || r == c
  {
    if a < b then (if a < c then a else c)
    else if b < c then b else c
  }

  /** max: the greatest of three. */
  function Max3(a: int, b: int, c: int): (r: int)
    ensures r >= a && r >= b && r >= c
    ensures r == a || r == b || r == c
  {
    if a > b then (if a > c then a else c)
    else if b > c then b else c
  }

  lemma MinAtMostMax(a: int, b: int, c: int)
    ensures Min3(a, b, c) <= Max3(a, b, c)
  {
  }
}
