/** The requested identifier length: a readonly wrapper around a strictly
    positive integer. */
module Sizes {
  import opened Wrappers
  import opened Errors

  datatype Size = Size(value: int)

  predicate Valid(s: Size)
  {
    s.value > 0
  }

  /** The constructor: only an integer of at least 1 is accepted, and it is
      kept unchanged. */
  function Create(value: int): (r: Result<Size, Error>)
    ensures r.Ok? <==> value >= 1
    ensures r.Ok? ==> Valid(r.value) && r.value.value == value
    ensures r.Err? ==> r.error == SizeNotPositive && Message(r.error) == "Size must be a positive integer."
  {
    if value <= 0 then Err(SizeNotPositive) else Ok(Size(value))
  }
}
