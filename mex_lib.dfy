/**
 * The host-array helpers of the MATLAB interface: `transpose` copies a
 * row-major camera image into a column-major host array, `transfer_many`
 * moves a run of queued images into consecutive host frames with their
 * timestamps, and `GetPvString` renders an SDK result as text.
 */
module MexLib {
  import opened Util
  import opened Pv
  import opened SpscQueue
  import opened IndexMath

  const MSG_NOT_RETRIEVED :=
    "transfer_many: One of the images could not be retrieved. Part of the images were dropped."
  const MSG_INCONSISTENT :=
    "transfer_many: One of the images has inconsistent dimensions. Part of the images were dropped."

  /** `GetPvString(PvResult)`: the code string, " / ", then the description. */
  function GetPvString(r: PvResult): (s: string)
    ensures |s| == |CodeString(r.code)| + 3 + |r.description|
    ensures s[..|CodeString(r.code)|] == CodeString(r.code)
    ensures s[|CodeString(r.code)|..|CodeString(r.code)| + 3] == " / "
    ensures s[|CodeString(r.code)| + 3..] == r.description
  {
    CodeString(r.code) + " / " + r.description
  }

  /** Results with the same code render differently exactly when their descriptions differ. */
  lemma GetPvStringSameCode(a: PvResult, b: PvResult)
    requires a.code == b.code
    ensures GetPvString(a) == GetPvString(b) <==> a == b
  {
    if GetPvString(a) == GetPvString(b) {
      var n := |CodeString(a.code)| + 3;
      assert a.description == GetPvString(a)[n..] == GetPvString(b)[n..] == b.description;
    }
  }

  /**
   * The column-major copy of a row-major width x height image: element k of
   * the result is row k % height, column k / height of the input.
   */
  function Transposed<T>(s: seq<T>, width: nat, height: nat): (t: seq<T>)
    requires width * height <= |s|
    ensures |t| == width * height
  {
    seq(width * height, k requires 0 <= k < width * height =>
      AtOfDivMod(k, height, width);
      AtBound(k % height, width, k / height, height);
      assert height * width == width * height;
      s[At(k % height, width, k / height)])
  }

  /** Input row i, column j lands at output position j * height + i. */
  lemma TransposedAt<T>(s: seq<T>, width: nat, height: nat, i: nat, j: nat)
    requires width * height <= |s| && i < height && j < width
    ensures At(j, height, i) < width * height && At(i, width, j) < width * height
    ensures Transposed(s, width, height)[At(j, height, i)] == s[At(i, width, j)]
  {
    AtBounds(width, height);
    AtDivMod(j, height, i);
  }

  /** Both the row-major and the column-major position of a pixel lie in the image. */
  lemma AtBounds(width: nat, height: nat)
    ensures forall p, q :: 0 <= p < height && 0 <= q < width ==>
              At(q, height, p) < width * height && At(p, width, q) < width * height
  {
    forall p, q | 0 <= p < height && 0 <= q < width
      ensures At(q, height, p) < width * height && At(p, width, q) < width * height
    {
      AtBound(q, height, p, width);
      AtBound(p, width, q, height);
      assert height * width == width * height;
    }
  }

  /** Transposing width x height and then height x width gives the image back. */
  lemma TransposeTwice<T>(s: seq<T>, width: nat, height: nat)
    requires width * height <= |s|
    ensures height * width == width * height
    ensures Transposed(Transposed(s, width, height), height, width) == s[..width * height]
  {
    var t := Transposed(s, width, height);
    assert height * width == width * height;
    var u := Transposed(t, height, width);
    forall k | 0 <= k < width * height
      ensures u[k] == s[k]
    {
      AtOfDivMod(k, width, height);
      var a, b := k / width, k % width;
      TransposedAt(s, width, height, a, b);
      AtDivMod(b, height, a);
      AtBound(b, height, a, width);
    }
  }

  /**
   * `transpose`: writes the width x height image `inp` column-major into
   * `out` from position `offset` on, and touches no other element of `out`.
   */
  method Transpose<T>(out: array<T>, offset: nat, inp: seq<T>, width: nat, height: nat)
    requires width * height <= |inp|
    requires offset + width * height <= out.Length
    modifies out
    ensures out[offset..offset + width * height] == Transposed(inp, width, height)
    ensures KeptOutside(out[..], old(out[..]), offset, offset + width * height)
  {
    AtBounds(width, height);
    var i := 0;
    while i < height
      invariant 0 <= i <= height
      invariant forall p, q :: 0 <= p < i && 0 <= q < width ==>
                  out[offset + At(q, height, p)] == inp[At(p, width, q)]
      invariant forall k :: 0 <= k < out.Length && !(offset <= k < offset + width * height) ==>
                  out[k] == old(out[k])
    {
      var j := 0;
      while j < width
        invariant 0 <= j <= width
        invariant forall p, q :: ((0 <= p < i && 0 <= q < width) || (p == i && 0 <= q < j)) ==>
                    out[offset + At(q, height, p)] == inp[At(p, width, q)]
        invariant forall k :: 0 <= k < out.Length && !(offset <= k < offset + width * height) ==>
                    out[k] == old(out[k])
      {
        ghost var before := out[..];
        out[offset + At(j, height, i)] := inp[At(i, width, j)];
        forall p, q | (0 <= p < i && 0 <= q < width) || (p == i && 0 <= q < j)
          ensures out[offset + At(q, height, p)] == inp[At(p, width, q)]
        {
          if At(q, height, p) == At(j, height, i) {
            AtUnique(q, p, j, i, height);
          }
          assert out[offset + At(q, height, p)] == before[offset + At(q, height, p)];
        }
        j := j + 1;
      }
      i := i + 1;
    }
    forall k | 0 <= k < width * height
      ensures out[offset + k] == Transposed(inp, width, height)[k]
    {
      AtOfDivMod(k, height, width);
      TransposedAt(inp, width, height, k % height, k / height);
    }
  }

  /**
   * The n elements of `s` from `base + i * n` (that is, `At(i, n, base)`) on:
   * host frame i; empty when `s` is too short to hold it.
   */
  function Block<T>(s: seq<T>, base: nat, i: nat, n: nat): seq<T> {
    if At(i + 1, n, base) <= |s| then s[At(i, n, base)..At(i + 1, n, base)] else []
  }

  datatype Transfer = Transferred | Failed(message: string, frame: nat)

  /** Every queued image that owns a buffer holds all the pixels it announces. */
  predicate Filled(c: seq<Option<Frame>>) {
    forall k :: 0 <= k < |c| ==> c[k].Some? ==> Covers(c[k].value)
  }

  predicate Matches(f: Frame, width: nat, height: nat, bits: nat) {
    f.width == width && f.height == height && f.bitsPerPixel == bits
  }

  /**
   * Host frame p of `m` (from `matBase` on) holds `f` transposed, and
   * `t[timeBase + p]` holds its timestamp.
   */
  ghost predicate Delivered(m: seq<int>, matBase: nat, t: seq<nat>, timeBase: nat,
                            p: nat, f: Frame, bits: nat)
    requires bits == 8 || bits == 16
  {
    var n := f.width * f.height;
    At(p + 1, n, matBase) <= |m| && timeBase + p < |t| &&
    n <= |Elements(f.data, bits)| &&
    Block(m, matBase, p, n) == Transposed(Elements(f.data, bits), f.width, f.height) &&
    t[timeBase + p] == f.timestamp
  }

  /**
   * The first n queued images `c[0..n]` were owned buffers of the expected
   * dimensions and each was delivered into its host frame.
   */
  ghost predicate DeliveredPrefix(m: seq<int>, matBase: nat, t: seq<nat>, timeBase: nat,
                                  c: seq<Option<Frame>>, n: nat, width: nat, height: nat, bits: nat)
    requires bits == 8 || bits == 16
  {
    n <= |c| &&
    forall p :: 0 <= p < n ==>
      c[p].Some? && Matches(c[p].value, width, height, bits) &&
      Delivered(m, matBase, t, timeBase, p, c[p].value, bits)
  }

  /** Delivering image i into host frame i, leaving the earlier frames alone, extends the prefix. */
  lemma DeliveredPrefixExtend(m: seq<int>, m0: seq<int>, matBase: nat, t: seq<nat>, t0: seq<nat>,
                              timeBase: nat, c: seq<Option<Frame>>, i: nat,
                              width: nat, height: nat, bits: nat)
    requires bits == 8 || bits == 16
    requires DeliveredPrefix(m0, matBase, t0, timeBase, c, i, width, height, bits)
    requires i < |c| && c[i].Some? && Matches(c[i].value, width, height, bits)
    requires Delivered(m, matBase, t, timeBase, i, c[i].value, bits)
    requires |m| == |m0|
    requires forall p :: 0 <= p < i ==>
               Block(m, matBase, p, width * height) == Block(m0, matBase, p, width * height)
    requires KeptOutside(t, t0, timeBase + i, timeBase + i + 1)
    ensures DeliveredPrefix(m, matBase, t, timeBase, c, i + 1, width, height, bits)
  {
    forall p | 0 <= p < i
      ensures Delivered(m, matBase, t, timeBase, p, c[p].value, bits)
    {
      assert Delivered(m0, matBase, t0, timeBase, p, c[p].value, bits);
    }
  }

  /** The pixels of an image whose payload covers its header, read at its own depth. */
  lemma CoversElements(f: Frame, bits: nat)
    requires bits == 8 || bits == 16
    requires Covers(f) && f.bitsPerPixel == bits
    ensures f.width * f.height <= |Elements(f.data, bits)|
  {
    var n := f.width * f.height;
    if bits == 8 {
      assert n * 8 <= |f.data| * 8;
    } else {
      assert n * 16 <= |f.data| * 8;
    }
  }

  /** `s` and `s0` have the same length and agree outside positions [lo, hi). */
  ghost predicate KeptOutside<T>(s: seq<T>, s0: seq<T>, lo: nat, hi: nat) {
    |s| == |s0| && forall k :: 0 <= k < |s| && !(lo <= k < hi) ==> s[k] == s0[k]
  }

  /** A change inside [mid, hi) after a change inside [lo, mid) is a change inside [lo, hi). */
  lemma KeptOutsideWiden<T>(c: seq<T>, b: seq<T>, a: seq<T>, lo: nat, mid: nat, hi: nat)
    requires lo <= mid <= hi
    requires KeptOutside(c, b, mid, hi) && KeptOutside(b, a, lo, mid)
    ensures KeptOutside(c, a, lo, hi)
  {
  }

  /**
   * One step of `transfer_many`: image `f` goes transposed into host frame i
   * and its timestamp into `time[timeBase + i]`; earlier host frames and every
   * other timestamp are left alone.
   */
  method DeliverFrame(mat: array<int>, matBase: nat, time: array<nat>, timeBase: nat,
                      i: nat, f: Frame, bits: nat)
    requires bits == 8 || bits == 16
    requires Covers(f) && f.bitsPerPixel == bits
    requires At(i + 1, f.width * f.height, matBase) <= mat.Length
    requires timeBase + i < time.Length
    modifies mat, time
    ensures Delivered(mat[..], matBase, time[..], timeBase, i, f, bits)
    ensures forall p :: 0 <= p < i ==>
              Block(mat[..], matBase, p, f.width * f.height) ==
              Block(old(mat[..]), matBase, p, f.width * f.height)
    ensures time[..] == old(time[..])[timeBase + i := f.timestamp]
    ensures KeptOutside(mat[..], old(mat[..]), At(i, f.width * f.height, matBase),
                        At(i + 1, f.width * f.height, matBase))
    ensures KeptOutside(time[..], old(time[..]), timeBase + i, timeBase + i + 1)
  {
    var n := f.width * f.height;
    CoversElements(f, bits);
    var lo := At(i, n, matBase);
    assert At(i + 1, n, matBase) == lo + n;
    Transpose(mat, lo, Elements(f.data, bits), f.width, f.height);
    time[timeBase + i] := f.timestamp;
    BlocksBefore(mat[..], old(mat[..]), matBase, i, n);
    assert Block(mat[..], matBase, i, n) == mat[lo..lo + n];
  }

  /** A change from host frame i on leaves host frames 0 to i - 1 as they were. */
  lemma BlocksBefore<T>(m: seq<T>, m0: seq<T>, base: nat, i: nat, n: nat)
    requires At(i, n, base) <= |m|
    requires KeptOutside(m, m0, At(i, n, base), At(i + 1, n, base))
    ensures forall p :: 0 <= p < i ==> Block(m, base, p, n) == Block(m0, base, p, n)
  {
    forall p | 0 <= p < i
      ensures Block(m, base, p, n) == Block(m0, base, p, n)
    {
      AtMonotone(p + 1, i, n, base);
      assert At(p + 1, n, base) == At(p, n, base) + n;
      SliceKept(m, m0, At(p, n, base), At(p + 1, n, base), At(i, n, base), At(i + 1, n, base));
    }
  }

  /** A slice that ends before a changed range is unchanged. */
  lemma SliceKept<T>(m: seq<T>, m0: seq<T>, a: nat, b: nat, lo: nat, hi: nat)
    requires a <= b <= lo && b <= |m|
    requires KeptOutside(m, m0, lo, hi)
    ensures m[a..b] == m0[a..b]
  {
    assert forall k :: a <= k < b ==> m[k] == m0[k];
  }

  /**
   * The loop body of `transfer_many` once image i has been popped and checked:
   * it is delivered, and the delivered prefix and the untouched rest of the
   * host arrays (against `m00` and `t00`) grow by one frame.
   */
  method DeliverNext(mat: array<int>, matBase: nat, time: array<nat>, timeBase: nat,
                     ghost c: seq<Option<Frame>>, ghost m00: seq<int>, ghost t00: seq<nat>,
                     i: nat, f: Frame, width: nat, height: nat, frames: nat, bits: nat)
    requires bits == 8 || bits == 16
    requires i < frames && i < |c| && c[i] == Some(f) && Covers(f) && Matches(f, width, height, bits)
    requires At(frames, width * height, matBase) <= mat.Length
    requires timeBase + frames <= time.Length
    requires DeliveredPrefix(mat[..], matBase, time[..], timeBase, c, i, width, height, bits)
    requires KeptOutside(mat[..], m00, matBase, At(i, width * height, matBase))
    requires KeptOutside(time[..], t00, timeBase, timeBase + i)
    modifies mat, time
    ensures DeliveredPrefix(mat[..], matBase, time[..], timeBase, c, i + 1, width, height, bits)
    ensures KeptOutside(mat[..], m00, matBase, At(i + 1, width * height, matBase))
    ensures KeptOutside(time[..], t00, timeBase, timeBase + i + 1)
  {
    AtMonotone(i + 1, frames, width * height, matBase);
    ghost var m0, t0 := mat[..], time[..];
    DeliverFrame(mat, matBase, time, timeBase, i, f, bits);
    assert f.width * f.height == width * height;
    AtMonotone(0, i, width * height, matBase);
    assert At(i + 1, width * height, matBase) == At(i, width * height, matBase) + width * height;
    KeptOutsideWiden(mat[..], m0, m00, matBase, At(i, width * height, matBase),
                     At(i + 1, width * height, matBase));
    KeptOutsideWiden(time[..], t0, t00, timeBase, timeBase + i, timeBase + i + 1);
    DeliveredPrefixExtend(mat[..], m0, matBase, time[..], t0, timeBase, c, i, width, height, bits);
  }

  /**
   * `transfer_many<T>` with `sizeof(T) * 8 == bits`: pops `frames` images
   * from `source`; image i goes transposed into host frame i of `mat`
   * (from `matBase` on) and its timestamp into `time[timeBase + i]`. An empty
   * pop or an image of other dimensions stops the transfer with an error.
   */
  method TransferMany(mat: array<int>, matBase: nat, time: array<nat>, timeBase: nat,
                      source: Queue<Frame>, width: nat, height: nat, frames: nat, bits: nat)
    returns (r: Transfer)
    requires bits == 8 || bits == 16
    requires source.Valid() && Filled(source.Contents)
    requires matBase + frames * (width * height) <= mat.Length
    requires timeBase + frames <= time.Length
    modifies mat, time, source, source.slots
    ensures source.Valid() && Filled(source.Contents)
    ensures var n := if r.Transferred? then frames else r.frame;
            n <= frames &&
            DeliveredPrefix(mat[..], matBase, time[..], timeBase, old(source.Contents), n, width, height, bits)
    // the host arrays beyond the frames delivered keep their contents
    ensures var n := if r.Transferred? then frames else r.frame;
            KeptOutside(mat[..], old(mat[..]), matBase, At(n, width * height, matBase)) &&
            KeptOutside(time[..], old(time[..]), timeBase, timeBase + n)
    ensures r.Transferred? ==> source.Contents == old(source.Contents[frames..])
    // the empty pop or the image that stops the transfer is gone from the queue
    ensures r.Failed? && r.message == MSG_NOT_RETRIEVED ==>
              r.frame < frames &&
              (r.frame == old(|source.Contents|) || old(source.Contents[r.frame]).None?) &&
              source.Contents ==
                (if r.frame == old(|source.Contents|) then [] else old(source.Contents[r.frame + 1..]))
    ensures r.Failed? && r.message == MSG_INCONSISTENT ==>
              (r.frame < frames && r.frame < old(|source.Contents|) &&
               old(source.Contents[r.frame]).Some? &&
               !Matches(old(source.Contents[r.frame]).value, width, height, bits) &&
               source.Contents == old(source.Contents[r.frame + 1..]))
    ensures r.Failed? ==> r.message == MSG_NOT_RETRIEVED || r.message == MSG_INCONSISTENT
  {
    AtIsProduct(frames, width * height, matBase);
    var i := 0;
    while i < frames
      invariant 0 <= i <= frames && i <= old(|source.Contents|)
      invariant source.Valid() && Filled(source.Contents)
      invariant source.Contents == old(source.Contents[i..])
      invariant DeliveredPrefix(mat[..], matBase, time[..], timeBase, old(source.Contents), i, width, height, bits)
      invariant KeptOutside(mat[..], old(mat[..]), matBase, At(i, width * height, matBase))
      invariant KeptOutside(time[..], old(time[..]), timeBase, timeBase + i)
    {
      ghost var c := source.Contents;
      var img := source.TryPop();
      if img.None? {
        assert c == [] || source.Contents == old(source.Contents[i + 1..]);
        return Failed(MSG_NOT_RETRIEVED, i);
      }
      var f := img.value;
      assert f == old(source.Contents[i]).value;
      assert source.Contents == c[1..] == old(source.Contents[i + 1..]);
      if !Matches(f, width, height, bits) {
        return Failed(MSG_INCONSISTENT, i);
      }
      DeliverNext(mat, matBase, time, timeBase, old(source.Contents), old(mat[..]), old(time[..]),
                  i, f, width, height, frames, bits);
      i := i + 1;
    }
    r := Transferred;
  }
}
