/**
 * The sampling loop of `extractColors`: it walks a packed RGBA byte buffer
 * (the canvas `ImageData.data`) at a stride of 40 bytes, that is every tenth
 * pixel, and keeps the RGB of each visited pixel whose alpha is at least 128.
 */
module PixelSampling {
  import opened HexCodec

  /** Bytes between two visited pixels: ten pixels of four bytes. */
  const Stride: nat := 40

  /** Pixels with a smaller alpha are skipped as transparent. */
  const AlphaCutoff: nat := 128

  /** The colour of the pixel at byte offset `i`. */
  function PixelAt(pixels: seq<Byte>, i: nat): Rgb
    requires i + 3 < |pixels|
  {
    Rgb(pixels[i], pixels[i + 1], pixels[i + 2])
  }

  /** The buffer from byte offset `i` on (empty once `i` is past the end). */
  function Drop(pixels: seq<Byte>, i: nat): seq<Byte> {
    if i < |pixels| then pixels[i..] else []
  }

  /**
   * The colours the loop collects, in buffer order. A canvas buffer holds whole
   * pixels, so a trailing partial pixel never occurs. On one, the loop would push
   * a colour with `undefined` channels (`undefined < 128` is false); this
   * function does not sample it.
   */
  function Sampled(pixels: seq<Byte>): (colors: seq<Rgb>)
    ensures |colors| * Stride < |pixels| + Stride
    decreases |pixels|
  {
    if |pixels| < 4 then []
    else
      (if pixels[3] >= AlphaCutoff then [PixelAt(pixels, 0)] else []) + Sampled(Drop(pixels, Stride))
  }

  /** Sampling a buffer made of whole 40-byte blocks and another buffer samples each part in turn. */
  lemma {:induction false} SampledAppend(p: seq<Byte>, q: seq<Byte>)
    requires |p| % Stride == 0
    ensures Sampled(p + q) == Sampled(p) + Sampled(q)
    decreases |p|
  {
    if p == [] {
      assert p + q == q;
    } else {
      var head := if p[3] >= AlphaCutoff then [PixelAt(p, 0)] else [];
      assert (p + q)[..4] == p[..4];
      assert Drop(p + q, Stride) == Drop(p, Stride) + q;
      SampledAppend(Drop(p, Stride), q);
      calc {
        Sampled(p + q);
        head + Sampled(Drop(p, Stride) + q);
        head + (Sampled(Drop(p, Stride)) + Sampled(q));
        (head + Sampled(Drop(p, Stride))) + Sampled(q);
      }
    }
  }

  /** A colour is sampled exactly when it is the colour of a visited pixel whose alpha passes the cutoff. */
  lemma {:induction false} SampledMembers(pixels: seq<Byte>, c: Rgb)
    requires |pixels| % 4 == 0
    ensures c in Sampled(pixels) <==>
      exists j: nat :: Stride * j < |pixels| && pixels[Stride * j + 3] >= AlphaCutoff && c == PixelAt(pixels, Stride * j)
    decreases |pixels|
  {
    if |pixels| > 0 {
      var rest := Drop(pixels, Stride);
      SampledMembers(rest, c);
      if c in Sampled(pixels) {
        if !(pixels[3] >= AlphaCutoff && c == PixelAt(pixels, 0)) {
          var j: nat :| Stride * j < |rest| && rest[Stride * j + 3] >= AlphaCutoff && c == PixelAt(rest, Stride * j);
          assert pixels[Stride * (j + 1) + 3] == rest[Stride * j + 3];
          assert PixelAt(pixels, Stride * (j + 1)) == PixelAt(rest, Stride * j);
        } else {
          assert Stride * 0 == 0;
        }
      } else {
        forall j: nat | Stride * j < |pixels| && pixels[Stride * j + 3] >= AlphaCutoff
          ensures c != PixelAt(pixels, Stride * j)
        {
          if j > 0 {
            assert rest[Stride * (j - 1) + 3] == pixels[Stride * j + 3];
            assert PixelAt(rest, Stride * (j - 1)) == PixelAt(pixels, Stride * j);
          }
        }
      }
    }
  }

  /** A buffer whose every visited pixel is below the alpha cutoff samples nothing. */
  lemma SampledTransparent(pixels: seq<Byte>)
    requires |pixels| % 4 == 0
    requires forall j: nat :: Stride * j < |pixels| ==> pixels[Stride * j + 3] < AlphaCutoff
    ensures Sampled(pixels) == []
  {
    if Sampled(pixels) != [] {
      SampledMembers(pixels, Sampled(pixels)[0]);
    }
  }

  /** In a buffer of whole pixels, a visited offset has its three following bytes. */
  lemma WholePixel(len: nat, i: nat)
    requires len % 4 == 0 && i % Stride == 0 && i < len
    ensures i + 3 < len
  {
    var m, k := len / 4, i / Stride;
    assert len == 4 * m && i == 4 * (10 * k);
  }

  /** One step of the loop: the visited pixel at offset `i`, then the rest from `i + 40`. */
  lemma SampledStep(pixels: seq<Byte>, i: nat)
    requires i + 3 < |pixels|
    ensures Sampled(Drop(pixels, i)) ==
      (if pixels[i + 3] >= AlphaCutoff then [PixelAt(pixels, i)] else []) + Sampled(Drop(pixels, i + Stride))
  {
    var rest := Drop(pixels, i);
    assert rest[..4] == pixels[i..i + 4];
    assert Drop(rest, Stride) == Drop(pixels, i + Stride);
  }

  /** The sampling loop of `extractColors`. */
  method SamplePixels(pixels: seq<Byte>) returns (colors: seq<Rgb>)
    requires |pixels| % 4 == 0
    ensures colors == Sampled(pixels)
  {
    colors := [];
    var i: nat := 0;
    ghost var visited: nat := 0;
    while i < |pixels|
      invariant i == Stride * visited
      invariant colors + Sampled(Drop(pixels, i)) == Sampled(pixels)
      decreases |pixels| - i
    {
      WholePixel(|pixels|, i);
      SampledStep(pixels, i);
      ghost var rest := Sampled(Drop(pixels, i + Stride));
      if pixels[i + 3] >= AlphaCutoff {
        assert (colors + [PixelAt(pixels, i)]) + rest == colors + ([PixelAt(pixels, i)] + rest);
        colors := colors + [Rgb(pixels[i], pixels[i + 1], pixels[i + 2])];
      } else {
        assert [] + rest == rest;
      }
      i, visited := i + Stride, visited + 1;
    }
  }
}
