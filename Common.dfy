/** Values shared by the three image tools: optional values, the decoded image
    as the tools see it, Python truthiness, and the JPEG quality-search constants
    that the cropper and the resizer both use. */
module Common {

  datatype Option<+T> = None | Some(value: T)

  /** A decoded image: its pixel size and whether any pixel value is non-zero
      (the `image.any()` test both interactive tools make before saving). */
  datatype Image = Image(width: nat, height: nat, anyNonzero: bool)

  /** An image is worth saving when one is loaded and it is not all zeros. */
  predicate HasContent(image: Option<Image>)
  {
    image.Some? && image.value.anyNonzero
  }

  function Abs(x: int): nat
  {
    if x < 0 then -x else x
  }

  function Min(a: int, b: int): int
  {
    if a <= b then a else b
  }

  /** Python truthiness of an optional integer: `None` and `0` are both false. */
  predicate Truthy(v: Option<int>)
  {
    v.Some? && v.value != 0
  }

  /** The answer of a save-as dialog: the empty string means the user cancelled. */
  function ChosenPath(answer: string): (r: Option<string>)
    ensures r.None? <==> answer == ""
    ensures r.Some? ==> r.value == answer
  {
    if answer == "" then None else Some(answer)
  }

  /** Both quality searches start at 95, move in steps of 5 and stop at 10. */
  const StartQuality := 95
  const QualityStep := 5
  const FloorQuality := 10

  /** The prompts ask for kilobytes; the searches compare bytes. */
  const BytesPerKb := 1024
}
