/** The resize tool: the "-1 keeps the original" dimension rule, the save
    guard with its KB-to-byte conversion, and the range-mode quality search,
    which moves quality up or down until the encoded size falls inside
    [minBytes, maxBytes] or quality reaches 10. That loop has no iteration cap,
    so it is run here with explicit fuel. */
module Resizer {
  import opened Common
  import Cropper

  /** The value a dimension prompt takes to mean "keep the original". */
  const KeepOriginal := -1

  /** The initial values of the size prompts: 3 KB and 60 KB. */
  const DefaultMinBytes := 3 * BytesPerKb
  const DefaultMaxBytes := 60 * BytesPerKb

  /** A requested width or height: -1 stands for the source image's own
      dimension, any other value is used as given. */
  function ResolveDimension(requested: int, original: nat): (r: int)
    ensures requested == KeepOriginal ==> r == original
    ensures requested != KeepOriginal ==> r == requested
  {
    if requested == KeepOriginal then original else requested
  }

  /** The dimension prompts accept answers from -1 up. For an image of positive
      size every such answer but 0 gives a usable positive dimension, and the
      result keeps the image's own size exactly when the answer is -1 or that
      size itself. */
  lemma PromptAnswerGivesDimension(requested: int, original: nat)
    requires requested >= KeepOriginal && original >= 1
    ensures ResolveDimension(requested, original) >= 1 <==> requested != 0
    ensures ResolveDimension(requested, original) == original <==>
      requested == KeepOriginal || requested == original
  {
  }

  // ---------------------------------------------------------------------
  // The save guard and the prompts

  /** What pressing "Save Resized Image" leads to before any work starts:
      nothing (no image, before any prompt), an aborted handler (a cancelled
      size prompt makes `None * 1024` raise), or the worker started with the
      answers, the sizes converted to bytes. */
  datatype SavePlan =
    | NoImage
    | PromptFailed
    | Launch(width: Option<int>, height: Option<int>, minBytes: int, maxBytes: int)

  function PlanSave(image: Option<Image>, width: Option<int>, height: Option<int>,
                    minKb: Option<int>, maxKb: Option<int>): (r: SavePlan)
    ensures r.NoImage? <==> !HasContent(image)
    ensures r.PromptFailed? <==> HasContent(image) && (minKb.None? || maxKb.None?)
    ensures r.Launch? ==>
      && minKb.Some? && maxKb.Some?
      && r.width == width && r.height == height
      && r.minBytes / BytesPerKb == minKb.value && r.minBytes % BytesPerKb == 0
      && r.maxBytes / BytesPerKb == maxKb.value && r.maxBytes % BytesPerKb == 0
  {
    if !HasContent(image) then NoImage
    else if minKb.None? || maxKb.None? then PromptFailed
    else Launch(width, height, minKb.value * BytesPerKb, maxKb.value * BytesPerKb)
  }

  /** With the prompts' lower bound of 1 KB, both limits are at least 1024
      bytes and ordered as the KB answers are. */
  lemma LimitsFollowAnswers(image: Option<Image>, width: Option<int>, height: Option<int>,
                            minKb: int, maxKb: int)
    requires HasContent(image) && 1 <= minKb && 1 <= maxKb
    ensures var r := PlanSave(image, width, height, Some(minKb), Some(maxKb));
      && r.Launch? && r.minBytes >= BytesPerKb && r.maxBytes >= BytesPerKb
      && (r.minBytes <= r.maxBytes <==> minKb <= maxKb)
  {
  }

  // ---------------------------------------------------------------------
  // Range-mode quality search

  predicate InRange(minBytes: int, maxBytes: int, s: int)
  {
    minBytes <= s <= maxBytes
  }

  /** The loop exits at quality q when the size is in range or q is at the floor. */
  predicate RangeStops(size: int -> nat, minBytes: int, maxBytes: int, q: int)
  {
    InRange(minBytes, maxBytes, size(q)) || q <= FloorQuality
  }

  /** The next quality after an iteration that did not exit: down a step when
      the encoding was over the maximum, up a step otherwise. */
  function NextQuality(q: int, s: int, maxBytes: int): (r: int)
    ensures r < q <==> s > maxBytes
    ensures r == q - QualityStep || r == q + QualityStep
  {
    if s > maxBytes then q - QualityStep else q + QualityStep
  }

  /** Where the search is after its fuel: settled at a quality with its
      encoded size, or still looking at the quality it would encode next. */
  datatype Search = Settled(quality: int, size: nat) | Searching(quality: int)

  /** The search from quality q, allowed `fuel` encodings. */
  function RangeRun(size: int -> nat, minBytes: int, maxBytes: int, q: int, fuel: nat): Search
    decreases fuel
  {
    if fuel == 0 then Searching(q)
    else if RangeStops(size, minBytes, maxBytes, q) then Settled(q, size(q))
    else RangeRun(size, minBytes, maxBytes, NextQuality(q, size(q), maxBytes), fuel - 1)
  }

  /** Whatever the fuel, quality stays a multiple of 5 not below 10, and a
      settled search is either in range or at quality 10, where the image is
      kept whatever its size. */
  lemma {:induction false} RangeRunSound(size: int -> nat, minBytes: int, maxBytes: int, q: int, fuel: nat)
    requires FloorQuality <= q && q % QualityStep == 0
    ensures var r := RangeRun(size, minBytes, maxBytes, q, fuel);
      && r.quality >= FloorQuality && r.quality % QualityStep == 0
      && (r.Settled? ==> r.size == size(r.quality)
                         && (InRange(minBytes, maxBytes, r.size) || r.quality == FloorQuality))
    decreases fuel
  {
    if fuel > 0 && !RangeStops(size, minBytes, maxBytes, q) {
      RangeRunSound(size, minBytes, maxBytes, NextQuality(q, size(q), maxBytes), fuel - 1);
    }
  }

  /** Fuel only bounds how long we watch: once the search settles, more fuel
      gives the same answer, so a settled result is where the unbounded loop exits. */
  lemma {:induction false} RangeRunFuelMonotone(size: int -> nat, minBytes: int, maxBytes: int,
                                                q: int, fuel: nat, more: nat)
    requires RangeRun(size, minBytes, maxBytes, q, fuel).Settled?
    requires fuel <= more
    ensures RangeRun(size, minBytes, maxBytes, q, more) == RangeRun(size, minBytes, maxBytes, q, fuel)
    decreases fuel
  {
    if !RangeStops(size, minBytes, maxBytes, q) {
      RangeRunFuelMonotone(size, minBytes, maxBytes, NextQuality(q, size(q), maxBytes), fuel - 1, more - 1);
    }
  }

  /** An encoder whose size never decreases with quality but jumps over the
      default range [3 KB, 60 KB] between qualities 90 and 95. */
  function GapSize(q: int): nat
  {
    if q >= StartQuality then 70 * BytesPerKb else 2 * BytesPerKb
  }

  lemma GapSizeMonotone(p: int, q: int)
    requires p <= q
    ensures GapSize(p) <= GapSize(q)
  {
  }

  /** With the default limits and GapSize, the search alternates between 95
      and 90 forever: for every fuel it has not settled. */
  lemma {:induction false} RangeRunOscillates(q: int, fuel: nat)
    requires q == StartQuality || q == StartQuality - QualityStep
    ensures var r := RangeRun(GapSize, DefaultMinBytes, DefaultMaxBytes, q, fuel);
      r.Searching? && (r.quality == StartQuality || r.quality == StartQuality - QualityStep)
    decreases fuel
  {
    if fuel > 0 {
      var next := NextQuality(q, GapSize(q), DefaultMaxBytes);
      assert next == (if q == StartQuality then StartQuality - QualityStep else StartQuality);
      RangeRunOscillates(next, fuel - 1);
    }
  }

  /** When every encoding is below the minimum (and so not over the maximum),
      quality climbs by 5 per encoding without bound: the search has no upper
      limit on quality. */
  lemma {:induction false} RangeRunClimbs(size: int -> nat, minBytes: int, maxBytes: int, q: int, fuel: nat)
    requires forall p :: size(p) < minBytes && size(p) <= maxBytes
    requires q > FloorQuality
    ensures RangeRun(size, minBytes, maxBytes, q, fuel) == Searching(q + QualityStep * fuel)
    decreases fuel
  {
    if fuel > 0 {
      RangeRunClimbs(size, minBytes, maxBytes, q + QualityStep, fuel - 1);
    }
  }

  /** When no encoding is ever below the minimum, the range search only moves
      down and settles exactly where the crop tool's ceiling search does, within
      one encoding per step from q down to 10. */
  lemma {:induction false} RangeRunIsCeilingWhenNeverBelow(size: int -> nat, minBytes: int, maxBytes: int,
                                                           q: int, fuel: nat)
    requires forall p :: minBytes <= size(p)
    requires FloorQuality <= q && q % QualityStep == 0
    requires fuel > (q - FloorQuality) / QualityStep
    ensures var c := Cropper.CeilingQuality(size, maxBytes, q);
      RangeRun(size, minBytes, maxBytes, q, fuel) == Settled(c, size(c))
  {
    if !RangeStops(size, minBytes, maxBytes, q) {
      RangeRunIsCeilingWhenNeverBelow(size, minBytes, maxBytes, q - QualityStep, fuel - 1);
    }
  }

  /** The loop of the resize export, allowed `fuel` encodings. `tried` lists
      the qualities encoded, in order. */
  method RangeSearch(size: int -> nat, minBytes: int, maxBytes: int, fuel: nat)
    returns (r: Search, tried: seq<int>)
    ensures r == RangeRun(size, minBytes, maxBytes, StartQuality, fuel)
    ensures |tried| <= fuel && (fuel > 0 ==> |tried| > 0 && tried[0] == StartQuality)
    ensures forall i :: 0 <= i < |tried| ==> tried[i] >= FloorQuality && tried[i] % QualityStep == 0
    ensures forall i :: 0 <= i < |tried| - 1 ==>
      !RangeStops(size, minBytes, maxBytes, tried[i]) &&
      tried[i + 1] == NextQuality(tried[i], size(tried[i]), maxBytes)
    ensures r.Settled? ==>
      |tried| > 0 && r.quality == tried[|tried| - 1] && r.size == size(r.quality) &&
      RangeStops(size, minBytes, maxBytes, r.quality)
    ensures r.Searching? ==>
      |tried| == fuel && forall i :: 0 <= i < |tried| ==> !RangeStops(size, minBytes, maxBytes, tried[i])
  {
    var quality := StartQuality;
    var steps: nat := 0;
    tried := [];
    while steps < fuel
      invariant steps <= fuel && |tried| == steps
      invariant FloorQuality <= quality && quality % QualityStep == 0
      invariant RangeRun(size, minBytes, maxBytes, quality, fuel - steps)
             == RangeRun(size, minBytes, maxBytes, StartQuality, fuel)
      invariant steps == 0 ==> quality == StartQuality
      invariant steps > 0 ==> tried[0] == StartQuality
      invariant forall i :: 0 <= i < |tried| ==>
        tried[i] >= FloorQuality && tried[i] % QualityStep == 0 &&
        !RangeStops(size, minBytes, maxBytes, tried[i])
      invariant forall i :: 0 <= i < |tried| - 1 ==>
        tried[i + 1] == NextQuality(tried[i], size(tried[i]), maxBytes)
      invariant steps > 0 ==> quality == NextQuality(tried[steps - 1], size(tried[steps - 1]), maxBytes)
    {
      var s := size(quality);
      tried := tried + [quality];
      if InRange(minBytes, maxBytes, s) || quality <= FloorQuality {
        r := Settled(quality, s);
        return;
      }
      quality := NextQuality(quality, s, maxBytes);
      steps := steps + 1;
    }
    r := Searching(quality);
  }

  // ---------------------------------------------------------------------
  // The worker

  /** The byte count of the resized image at each quality. */
  function SizeAt(encode: (int, int, int) -> nat, width: int, height: int): int -> nat
  {
    q => encode(width, height, q)
  }

  /** What the worker does: raise in the resize (a cancelled dimension
      prompt passed None, or a dimension below 1 reached the library), still
      be searching when the fuel ran out, or finish with the dimensions used,
      the quality and size kept, and the path written if the user chose one
      (with none the tool reports a failure). */
  datatype Processed =
    | ResizeRaised
    | StillSearching(quality: int)
    | Finished(width: int, height: int, quality: int, size: nat, savedTo: Option<string>)

  /** The worker thread, with the source image, the answers passed on by the
      save handler, the encoder's byte count for a width, height and quality,
      the fuel for the search, and the save-as answer. */
  method ProcessImage(source: Image, width: Option<int>, height: Option<int>,
                      minBytes: int, maxBytes: int, encode: (int, int, int) -> nat,
                      fuel: nat, savePath: string) returns (r: Processed)
    ensures r.ResizeRaised? <==>
      || width.None? || height.None?
      || ResolveDimension(width.value, source.width) < 1
      || ResolveDimension(height.value, source.height) < 1
    ensures !r.ResizeRaised? ==>
      var w := ResolveDimension(width.value, source.width);
      var h := ResolveDimension(height.value, source.height);
      match RangeRun(SizeAt(encode, w, h), minBytes, maxBytes, StartQuality, fuel)
      case Settled(q, s) => r == Finished(w, h, q, s, ChosenPath(savePath))
      case Searching(q) => r == StillSearching(q)
  {
    if width.None? || height.None? {
      return ResizeRaised;
    }
    var w := ResolveDimension(width.value, source.width);
    var h := ResolveDimension(height.value, source.height);
    if w < 1 || h < 1 {
      return ResizeRaised;
    }
    var search, tried := RangeSearch(SizeAt(encode, w, h), minBytes, maxBytes, fuel);
    match search
    case Settled(q, s) =>
      r := Finished(w, h, q, s, ChosenPath(savePath));
    case Searching(q) =>
      r := StillSearching(q);
  }
}
