/**
 * The configuration the pipeline reads: an ordered list of triggers, the
 * input path and the sampling rate. Floating-point values enter the model
 * only as the text that formatting them produces.
 */
module Config {

  /** Rust's `u32`. */
  newtype u32 = x: int | 0 <= x < 0x1_0000_0000

  /** RGB24: three bytes per pixel. */
  const CHANNELS: u32 := 3

  /**
   * A trigger's crop rectangle. The four `*Frac` fields are the text of the
   * crop percentage divided by 100 (width, height, x, y); `width` and
   * `height` are the resolved pixel size of the cropped frame.
   */
  datatype Crop = Crop(
    widthFrac: string,
    heightFrac: string,
    xFrac: string,
    yFrac: string,
    width: u32,
    height: u32)

  /** What the pipeline needs of a trigger: its id, crop, runner name and debug flag. */
  datatype Trigger = Trigger(id: string, crop: Crop, runnerType: string, debug: bool)

  /** `samplesPerSecond` is the text of the sampling rate. */
  datatype HypetriggerConfig = HypetriggerConfig(
    inputPath: string,
    samplesPerSecond: string,
    triggers: seq<Trigger>)

  /**
   * `a * b`, written as repeated addition so that contexts which only carry
   * the product around never see a product of two unknowns.
   */
  function Mul(a: nat, b: nat): nat {
    if a == 0 then 0 else Mul(a - 1, b) + b
  }

  lemma {:induction false} MulIsProduct(a: nat, b: nat)
    ensures Mul(a, b) == a * b
    decreases a
  {
    if a > 0 {
      MulIsProduct(a - 1, b);
    }
  }

  /** The crop has a positive pixel size whose RGB24 byte count fits in a `u32`. */
  predicate FrameFits(c: Crop) {
    0 < c.width && 0 < c.height && Mul(Mul(c.width as nat, c.height as nat), CHANNELS as nat) < 0x1_0000_0000
  }

  /** The triggers the stdout demultiplexer can serve: at least one, each with a fitting frame. */
  predicate DemuxReady(triggers: seq<Trigger>) {
    |triggers| > 0 && forall i :: 0 <= i < |triggers| ==> FrameFits(triggers[i].crop)
  }

  /** Bytes in one RGB24 frame of the crop: nonzero, and within `u32` range. */
  function BufferSize(c: Crop): (n: nat)
    requires FrameFits(c)
    ensures 0 < n < 0x1_0000_0000
  {
    MulIsProduct(c.width as nat, c.height as nat);
    MulIsProduct(Mul(c.width as nat, c.height as nat), CHANNELS as nat);
    assert c.width as int * c.height as int >= c.height as int;
    Mul(Mul(c.width as nat, c.height as nat), CHANNELS as nat)
  }

  /**
   * The source's `u32` computation `width * height * CHANNELS` does not wrap
   * and yields BufferSize.
   */
  lemma BufferSizeInU32(c: Crop)
    requires FrameFits(c)
    ensures c.width as int * c.height as int * CHANNELS as int < 0x1_0000_0000
    ensures (c.width * c.height * CHANNELS) as int == BufferSize(c) == c.width as int * c.height as int * 3
  {
    MulIsProduct(c.width as nat, c.height as nat);
    MulIsProduct(Mul(c.width as nat, c.height as nat), CHANNELS as nat);
  }
}
