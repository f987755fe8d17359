/** Times in i64 milliseconds, their saturating arithmetic, and ranges of them. */
module Times {

  const I64_MIN := -0x8000_0000_0000_0000
  const I64_MAX := 0x7fff_ffff_ffff_ffff

  const HOUR_MS := 3_600_000
  const DAY_MS := 86_400_000

  datatype Range = Range(start: int, end: int)

  predicate IsTime(t: int) { I64_MIN <= t <= I64_MAX }

  function Saturate(x: int): int
  {
    if x > I64_MAX then I64_MAX else if x < I64_MIN then I64_MIN else x
  }

  /** Division truncating toward zero, as on i64. */
  function TruncDiv(x: int, y: int): int
    requires y > 0
  {
    if x >= 0 then x / y else -((-x) / y)
  }

  function Min(a: int, b: int): int { if a < b then a else b }
}
