/**
 * The Blink SDK example program: the eight-column ramp images it sends to a
 * spatial light modulator, and the loop that alternates between two of
 * them until a key is pressed or the SDK refuses an image.
 */
module BlinkExample {
  import opened Util
  import opened IndexMath

  /**
   * The grey level of step k of a ramp: `(int)(k * (255.0 / 8.0) + 0.5)`.
   * 255 / 8, its multiples by k < 8 and the added half are all exact in
   * binary floating point, so exact real arithmetic gives the same value.
   */
  function Level(k: nat): (l: byte)
    requires k < 8
    ensures l as int == (255 * k + 4) / 8
  {
    var v := ((k as real) * (255.0 / 8.0) + 0.5).Floor;
    assert v == (255 * k + 4) / 8 by {
      assert (k as real) * (255.0 / 8.0) + 0.5 == ((255 * k + 4) as real) / 8.0;
    }
    v as byte
  }

  /** The eight levels rise strictly from 0 to 223. */
  lemma LevelRange(k: nat, k': nat)
    requires k < k' < 8
    ensures Level(0) == 0 && Level(7) == 223
    ensures Level(k) < Level(k') <= 223
  {
  }

  /** The pixel in column j: the low three bits of j pick the step, counted down in a decreasing ramp. */
  function RampPixel(increasing: bool, j: nat): byte {
    var k := j % 8;
    Level(if increasing then k else 7 - k)
  }

  /** The pattern repeats every eight columns. */
  lemma RampPixelPeriodic(increasing: bool, j: nat)
    ensures RampPixel(increasing, j + 8) == RampPixel(increasing, j)
  {
  }

  /** Within each period of eight columns the decreasing ramp is the increasing one read backwards. */
  lemma DecreasingMirrors(q: nat, r: nat)
    requires r < 8
    ensures RampPixel(false, 8 * q + r) == RampPixel(true, 8 * q + (7 - r))
  {
  }

  /** One row of a ramp image. */
  function RampRow(increasing: bool, width: nat): (row: seq<byte>)
    ensures |row| == width
    ensures forall j :: 0 <= j < width ==> row[j] == RampPixel(increasing, j)
  {
    seq(width, j requires 0 <= j < width => RampPixel(increasing, j))
  }

  /** A ramp image of `height` rows, in row-major order. */
  function RampImage(increasing: bool, width: nat, height: nat): (img: seq<byte>)
    ensures |img| == At(height, width, 0)
  {
    if height == 0 then [] else RampImage(increasing, width, height - 1) + RampRow(increasing, width)
  }

  /** A pixel of a ramp image depends on its column only. */
  lemma {:induction false} RampImageAt(increasing: bool, width: nat, height: nat, i: nat, j: nat)
    requires i < height && j < width
    ensures At(i, width, j) < |RampImage(increasing, width, height)|
    ensures RampImage(increasing, width, height)[At(i, width, j)] == RampPixel(increasing, j)
    decreases height
  {
    AtShift(i, width, j);
    if i < height - 1 {
      RampImageAt(increasing, width, height - 1, i, j);
    }
  }

  /**
   * `Generate_ramp_image`: writes the first width * height bytes of `pixels`
   * with the ramp image, row by row; the caller must provide at least that
   * many bytes.
   */
  method GenerateRampImage(increasing: bool, width: nat, height: nat, pixels: array<byte>)
    requires width * height <= pixels.Length
    modifies pixels
    ensures pixels[..width * height] == RampImage(increasing, width, height)
    ensures forall k :: width * height <= k < pixels.Length ==> pixels[k] == old(pixels[k])
  {
    AtIsProduct(height, width, 0);
    var pix := 0;
    for i := 0 to height
      invariant pix == At(i, width, 0) <= At(height, width, 0)
      invariant pixels[..pix] == RampImage(increasing, width, i)
      invariant forall k :: pix <= k < pixels.Length ==> pixels[k] == old(pixels[k])
    {
      RowInFrame(i, width, height);
      for j := 0 to width
        invariant pix == At(i, width, 0) + j
        invariant pixels[..pix] == RampImage(increasing, width, i) + RampRow(increasing, width)[..j]
        invariant forall k :: pix <= k < pixels.Length ==> pixels[k] == old(pixels[k])
      {
        pixels[pix] := RampPixel(increasing, j);
        pix := pix + 1;
        assert RampRow(increasing, width)[..j + 1] == RampRow(increasing, width)[..j] + [RampPixel(increasing, j)];
      }
      assert RampRow(increasing, width)[..width] == RampRow(increasing, width);
    }
  }

  /**
   * `Simple_loop` with the SDK and the console as oracles: `writeOk(t)` is
   * what the t-th `Write_overdrive_image` call returns and `keyHit(c)` what
   * `_kbhit()` returns before cycle c; a key is pressed by cycle `limit`.
   * `written` lists the images handed to the SDK, in order.
   */
  method SimpleLoop(ramp1: seq<byte>, ramp2: seq<byte>, writeOk: nat -> bool, keyHit: nat -> bool, limit: nat)
    returns (okay: bool, written: seq<seq<byte>>)
    requires keyHit(limit)
    ensures forall t :: 0 <= t < |written| ==> written[t] == (if t % 2 == 0 then ramp1 else ramp2)
    ensures forall t :: 0 <= t < |written| - 1 ==> writeOk(t)
    ensures okay <==> forall t :: 0 <= t < |written| ==> writeOk(t)
    ensures okay ==> |written| % 2 == 0 && keyHit(|written| / 2) && forall c :: 0 <= c < |written| / 2 ==> !keyHit(c)
    ensures !okay ==> (|written| > 0 && !writeOk(|written| - 1) && forall c :: 0 <= c <= (|written| - 1) / 2 ==> !keyHit(c))
  {
    okay := true;
    written := [];
    var i: nat := 0;
    while okay && !keyHit(i)
      invariant i <= limit
      invariant forall t :: 0 <= t < |written| ==> written[t] == (if t % 2 == 0 then ramp1 else ramp2)
      invariant forall t :: 0 <= t < |written| - 1 ==> writeOk(t)
      invariant okay <==> forall t :: 0 <= t < |written| ==> writeOk(t)
      invariant okay ==> |written| == 2 * i
      invariant !okay ==> (|written| > 0 && !writeOk(|written| - 1) && i > 0 && (|written| - 1) / 2 == i - 1)
      invariant forall c :: 0 <= c < i ==> !keyHit(c)
      decreases limit - i
    {
      var j := 0;
      var image := ramp1;
      while okay && j < 2
        invariant 0 <= j <= 2
        invariant okay ==> |written| == 2 * i + j
        invariant !okay ==> (j > 0 && |written| == 2 * i + j && !writeOk(|written| - 1))
        invariant image == (if j == 0 then ramp1 else ramp2)
        invariant forall t :: 0 <= t < |written| ==> written[t] == (if t % 2 == 0 then ramp1 else ramp2)
        invariant forall t :: 0 <= t < |written| - 1 ==> writeOk(t)
        invariant okay <==> forall t :: 0 <= t < |written| ==> writeOk(t)
      {
        okay := writeOk(|written|);
        written := written + [image];
        j := j + 1;
        if j == 1 {
          image := ramp2;
        }
      }
      i := i + 1;
    }
  }
}
