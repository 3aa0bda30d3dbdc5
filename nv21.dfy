/**
 * `yuv420888ToNv21` of MainActivity: repacks a YUV_420_888 camera image,
 * whose three planes have their own row and pixel strides, into one NV21
 * buffer: the w*h luma bytes row by row, then for each 2x2 block one V byte
 * followed by one U byte. The Y plane is read through the buffer's position
 * (relative bulk gets from position 0), the chroma planes by absolute index.
 * A read or write out of bounds throws in the source; here it makes the
 * method return false, and the caller drops the frame either way.
 */
module Nv21 {
  import opened KotlinText

  /** One plane of the image: its bytes and its strides. */
  datatype Plane = Plane(bytes: seq<Byte>, rowStride: nat, pixelStride: nat)

  /** Where chroma sample (row, col) lies in its plane. */
  function Offset(p: Plane, row: nat, col: nat): nat {
    row * p.rowStride + col * p.pixelStride
  }

  /** Where luma sample (row, col) lies in the Y plane; its pixel stride is taken to be 1. */
  function LumaOffset(y: Plane, row: nat, col: nat): nat {
    row * y.rowStride + col
  }

  /** Where luma sample (row, col) goes in the NV21 buffer. */
  function LumaPos(w: nat, row: nat, col: nat): nat {
    row * w + col
  }

  /** Where the V byte of chroma sample (row, col) goes; its U byte follows it. */
  function ChromaPos(w: nat, h: nat, row: nat, col: nat): nat {
    w * h + 2 * (row * (w / 2) + col)
  }

  /** The number of bytes the conversion writes. */
  function Nv21Size(w: nat, h: nat): nat {
    w * h + 2 * (w / 2) * (h / 2)
  }

  /** Luma sample (row, col) is in bounds on both sides and was copied. */
  predicate LumaCopied(o: seq<Byte>, w: nat, y: Plane, r: nat, c: nat) {
    && LumaPos(w, r, c) < |o|
    && LumaOffset(y, r, c) < |y.bytes|
    && o[LumaPos(w, r, c)] == y.bytes[LumaOffset(y, r, c)]
  }

  /** Chroma sample (row, col) is in bounds on all sides and was copied, V first. */
  predicate ChromaCopied(o: seq<Byte>, w: nat, h: nat, u: Plane, v: Plane, r: nat, c: nat) {
    && ChromaPos(w, h, r, c) + 1 < |o|
    && Offset(v, r, c) < |v.bytes|
    && Offset(u, r, c) < |u.bytes|
    && o[ChromaPos(w, h, r, c)] == v.bytes[Offset(v, r, c)]
    && o[ChromaPos(w, h, r, c) + 1] == u.bytes[Offset(u, r, c)]
  }

  /** The first `rows` luma rows are copied, into the first w*rows bytes. */
  predicate LumaDone(o: seq<Byte>, w: nat, y: Plane, rows: nat) {
    forall r: nat, c: nat | r < rows && c < w :: LumaPos(w, r, c) < w * rows && LumaCopied(o, w, y, r, c)
  }

  /** Every chroma sample before (row, col), in row-major order, is copied. */
  predicate ChromaDone(o: seq<Byte>, w: nat, h: nat, u: Plane, v: Plane, row: nat, col: nat) {
    forall r: nat, c: nat | r <= row && c < w / 2 && (r < row || c < col) :: ChromaCopied(o, w, h, u, v, r, c)
  }

  /** The luma copy stays in bounds: one bulk get when rows are unpadded, a padded row at a time otherwise. */
  predicate LumaFits(w: nat, h: nat, y: Plane, outLen: nat) {
    if y.rowStride == w then w * h <= |y.bytes| && w * h <= outLen
    else PaddedFits(w, h, y, outLen)
  }

  /** Padded rows fit when the last row need not carry its padding. */
  predicate PaddedFits(w: nat, h: nat, y: Plane, outLen: nat) {
    h == 0 || (w <= y.rowStride && (h - 1) * y.rowStride + w <= |y.bytes| && w * h <= outLen)
  }

  /** What the padded branch as written needs: a whole stride for every row, the last included. */
  predicate PaddedFitsAsWritten(w: nat, h: nat, y: Plane, outLen: nat) {
    h == 0 || (w <= y.rowStride && h * y.rowStride <= |y.bytes| && w * h <= outLen)
  }

  /** The luma copy as written stays in bounds: the padded branch needs a whole stride per row. */
  predicate LumaFitsAsWritten(w: nat, h: nat, y: Plane, outLen: nat) {
    if y.rowStride == w then w * h <= |y.bytes| && w * h <= outLen
    else PaddedFitsAsWritten(w, h, y, outLen)
  }

  /** Every image the padded branch as written copies, the corrected branch copies too. */
  lemma CorrectedAcceptsMore(w: nat, h: nat, y: Plane, outLen: nat)
    requires LumaFitsAsWritten(w, h, y, outLen)
    ensures LumaFits(w, h, y, outLen)
  {
    if y.rowStride != w && h > 0 {
      assert (h - 1) * y.rowStride + y.rowStride == h * y.rowStride;
    }
  }

  /** The chroma reads and writes stay in bounds; the last sample of each plane is the first to fail. */
  predicate ChromaFits(w: nat, h: nat, u: Plane, v: Plane, outLen: nat) {
    w / 2 == 0 || h / 2 == 0 ||
      (&& Offset(v, h / 2 - 1, w / 2 - 1) < |v.bytes|
       && Offset(u, h / 2 - 1, w / 2 - 1) < |u.bytes|
       && Nv21Size(w, h) <= outLen)
  }

  lemma MulLe(a: int, b: int, k: int)
    requires 0 <= a <= b && 0 <= k
    ensures a * k <= b * k
  {
  }

  lemma RowMajorBelow(r: nat, c: nat, w: nat, h: nat)
    requires r < h && c < w
    ensures r * w + c < w * h
  {
    MulLe(r + 1, h, w);
  }

  /** Row-major order of chroma samples maps to increasing output positions. */
  lemma ChromaOrder(w: nat, h: nat, r: nat, c: nat, row: nat, col: nat)
    requires c < w / 2 && col < w / 2
    requires r < row || (r == row && c < col)
    ensures ChromaPos(w, h, r, c) + 1 < ChromaPos(w, h, row, col)
  {
    RowMajorOrder(r, c, row, col, w / 2);
  }

  lemma RowMajorOrder(r: nat, c: nat, row: nat, col: nat, width: nat)
    requires c < width && col < width
    requires r < row || (r == row && c < col)
    ensures r * width + c < row * width + col
  {
    if r < row {
      MulLe(r + 1, row, width);
      assert (r + 1) * width == r * width + width;
    }
  }

  /** The last chroma sample ends the NV21 buffer, and a full pass ends there too. */
  lemma ChromaEnd(w: nat, h: nat)
    ensures ChromaPos(w, h, h / 2, 0) == Nv21Size(w, h)
    ensures w / 2 > 0 && h / 2 > 0 ==> ChromaPos(w, h, h / 2 - 1, w / 2 - 1) + 2 == Nv21Size(w, h)
  {
    var cw, ch := w / 2, h / 2;
    assert 2 * cw * ch == 2 * (ch * cw);
    if cw > 0 && ch > 0 {
      assert (ch - 1) * cw + cw == ch * cw;
    }
  }

  /** Where the chroma loop stops early, the last sample's bounds fail too. */
  lemma ChromaFailure(w: nat, h: nat, u: Plane, v: Plane, row: nat, col: nat)
    requires row < h / 2 && col < w / 2
    ensures Offset(v, row, col) <= Offset(v, h / 2 - 1, w / 2 - 1)
    ensures Offset(u, row, col) <= Offset(u, h / 2 - 1, w / 2 - 1)
    ensures ChromaPos(w, h, row, col) + 2 <= Nv21Size(w, h)
  {
    MulLe(row, h / 2 - 1, v.rowStride);
    MulLe(col, w / 2 - 1, v.pixelStride);
    MulLe(row, h / 2 - 1, u.rowStride);
    MulLe(col, w / 2 - 1, u.pixelStride);
    ChromaEnd(w, h);
    if (row, col) != (h / 2 - 1, w / 2 - 1) {
      ChromaOrder(w, h, row, col, h / 2 - 1, w / 2 - 1);
    }
  }

  /**
   * The buffer the analyzer passes in holds at least w*h*3/2 bytes, and that
   * is always enough for what the conversion writes.
   */
  lemma BufferLargeEnough(w: nat, h: nat, len: nat)
    requires len >= w * h * 3 / 2
    ensures Nv21Size(w, h) <= len
  {
    var a, b := w / 2, h / 2;
    MulLe(2 * a, w, 2 * b);
    MulLe(2 * b, h, w);
    assert (2 * a) * (2 * b) == 4 * (a * b);
    assert 2 * a * b == 2 * (a * b);
    assert w * h * 3 / 2 == w * h + (w * h) / 2;
  }

  /**
   * The buffer choice in the analyzer: the previous buffer when it holds at
   * least w*h*3/2 bytes, a new one of exactly that size otherwise.
   */
  method Nv21Buffer(previous: array?<Byte>, w: nat, h: nat) returns (buf: array<Byte>)
    ensures buf.Length >= w * h * 3 / 2
    ensures previous != null && previous.Length >= w * h * 3 / 2 ==> buf == previous
    ensures !(previous != null && previous.Length >= w * h * 3 / 2) ==> fresh(buf) && buf.Length == w * h * 3 / 2
  {
    if previous != null && previous.Length >= w * h * 3 / 2 {
      buf := previous;
    } else {
      buf := new Byte[w * h * 3 / 2];
    }
  }

  /** One more luma row copied from `from` to `at` keeps the rows before it. */
  lemma LumaRowStep(o: seq<Byte>, o': seq<Byte>, w: nat, y: Plane, row: nat, at: nat, from: nat)
    requires LumaDone(o, w, y, row)
    requires at == row * w && from == row * y.rowStride
    requires |o'| == |o| && at + w <= |o| && from + w <= |y.bytes|
    requires forall k | 0 <= k < |o| && !(at <= k < at + w) :: o'[k] == o[k]
    requires forall k | at <= k < at + w :: o'[k] == y.bytes[from + (k - at)]
    ensures LumaDone(o', w, y, row + 1)
  {
    forall r: nat, c: nat | r < row + 1 && c < w
      ensures LumaPos(w, r, c) < w * (row + 1) && LumaCopied(o', w, y, r, c)
    {
      if r < row {
        assert LumaCopied(o, w, y, r, c);
        RowMajorBelow(r, c, w, row);
      } else {
        assert LumaPos(w, r, c) == at + c && LumaOffset(y, r, c) == from + c;
      }
    }
  }

  /** Writes outside the first w*h bytes keep the copied luma rows. */
  lemma LumaKept(o: seq<Byte>, o': seq<Byte>, w: nat, y: Plane, h: nat)
    requires LumaDone(o, w, y, h)
    requires |o'| == |o|
    requires forall k | 0 <= k < w * h && k < |o| :: o'[k] == o[k]
    ensures LumaDone(o', w, y, h)
  {
    forall r: nat, c: nat | r < h && c < w
      ensures LumaPos(w, r, c) < w * h && LumaCopied(o', w, y, r, c)
    {
      assert LumaPos(w, r, c) < w * h && LumaCopied(o, w, y, r, c);
    }
  }

  /** One more chroma sample written at its position keeps the samples before it. */
  lemma ChromaStep(o: seq<Byte>, o': seq<Byte>, w: nat, h: nat, u: Plane, v: Plane, row: nat, col: nat)
    requires col < w / 2
    requires ChromaDone(o, w, h, u, v, row, col)
    requires ChromaPos(w, h, row, col) + 1 < |o|
    requires Offset(v, row, col) < |v.bytes| && Offset(u, row, col) < |u.bytes|
    requires o' == o[ChromaPos(w, h, row, col) := v.bytes[Offset(v, row, col)]]
                    [ChromaPos(w, h, row, col) + 1 := u.bytes[Offset(u, row, col)]]
    ensures ChromaDone(o', w, h, u, v, row, col + 1)
  {
    forall r: nat, c: nat | r <= row && c < w / 2 && (r < row || c < col + 1)
      ensures ChromaCopied(o', w, h, u, v, r, c)
    {
      if r < row || c < col {
        assert ChromaCopied(o, w, h, u, v, r, c);
        ChromaOrder(w, h, r, c, row, col);
      }
    }
  }

  /**
   * Corrected `yuv420888ToNv21(image, out)`: the luma branch is corrected (see
   * `CopyLumaPadded`). It succeeds exactly when every read and write is in
   * bounds; then every luma sample (row, col) is at row*w + col, every
   * chroma sample below (h/2, w/2) has its V byte at
   * w*h + 2*(row*(w/2) + col) and its U byte right after, and nothing beyond
   * those `Nv21Size(w, h)` bytes is touched.
   */
  method Yuv420888ToNv21(w: nat, h: nat, y: Plane, u: Plane, v: Plane, out: array<Byte>)
    returns (ok: bool)
    modifies out
    ensures ok <==> LumaFits(w, h, y, out.Length) && ChromaFits(w, h, u, v, out.Length)
    ensures ok ==> forall r: nat, c: nat | r < h && c < w :: LumaCopied(out[..], w, y, r, c)
    ensures ok ==> forall r: nat, c: nat | r < h / 2 && c < w / 2 :: ChromaCopied(out[..], w, h, u, v, r, c)
    ensures ok ==> forall k | Nv21Size(w, h) <= k < out.Length :: out[k] == old(out[k])
  {
    var lumaOk := CopyLuma(w, h, y, out);
    if !lumaOk {
      return false;
    }
    ghost var mid := out[..];
    ok := CopyChroma(w, h, u, v, out);
    LumaKept(mid, out[..], w, y, h);
  }

  /**
   * `yuv420888ToNv21(image, out)` as written: the same as
   * `Yuv420888ToNv21` except that padded Y rows are read a whole stride at a
   * time, so it fails on a Y plane that ends right after the last row's
   * samples.
   */
  method Yuv420888ToNv21AsWritten(w: nat, h: nat, y: Plane, u: Plane, v: Plane, out: array<Byte>)
    returns (ok: bool)
    modifies out
    ensures ok <==> LumaFitsAsWritten(w, h, y, out.Length) && ChromaFits(w, h, u, v, out.Length)
    ensures ok ==> forall r: nat, c: nat | r < h && c < w :: LumaCopied(out[..], w, y, r, c)
    ensures ok ==> forall r: nat, c: nat | r < h / 2 && c < w / 2 :: ChromaCopied(out[..], w, h, u, v, r, c)
    ensures ok ==> forall k | Nv21Size(w, h) <= k < out.Length :: out[k] == old(out[k])
  {
    var lumaOk := CopyLumaAsWritten(w, h, y, out);
    if !lumaOk {
      return false;
    }
    ghost var mid := out[..];
    ok := CopyChroma(w, h, u, v, out);
    LumaKept(mid, out[..], w, y, h);
  }

  /** The luma half as written. */
  method CopyLumaAsWritten(w: nat, h: nat, y: Plane, out: array<Byte>)
    returns (ok: bool)
    modifies out
    ensures ok <==> LumaFitsAsWritten(w, h, y, out.Length)
    ensures ok ==> LumaDone(out[..], w, y, h)
    ensures ok ==> forall k | w * h <= k < out.Length :: out[k] == old(out[k])
  {
    if y.rowStride == w {
      ok := CopyLumaPacked(w, h, y, out);
    } else {
      ok := CopyLumaPaddedAsWritten(w, h, y, out);
    }
  }

  /** The luma half of the conversion, corrected. */
  method CopyLuma(w: nat, h: nat, y: Plane, out: array<Byte>)
    returns (ok: bool)
    modifies out
    ensures ok <==> LumaFits(w, h, y, out.Length)
    ensures ok ==> LumaDone(out[..], w, y, h)
    ensures ok ==> forall k | w * h <= k < out.Length :: out[k] == old(out[k])
  {
    if y.rowStride == w {
      ok := CopyLumaPacked(w, h, y, out);
    } else {
      ok := CopyLumaPadded(w, h, y, out);
    }
  }

  /** Rows without padding: one bulk get of w*h bytes. */
  method CopyLumaPacked(w: nat, h: nat, y: Plane, out: array<Byte>)
    returns (ok: bool)
    requires y.rowStride == w
    modifies out
    ensures ok <==> w * h <= |y.bytes| && w * h <= out.Length
    ensures ok ==> LumaDone(out[..], w, y, h)
    ensures ok ==> forall k | w * h <= k < out.Length :: out[k] == old(out[k])
  {
    if w * h > out.Length || w * h > |y.bytes| {
      return false;
    }
    forall i | 0 <= i < w * h {
      out[i] := y.bytes[i];
    }
    forall r: nat, c: nat | r < h && c < w
      ensures LumaPos(w, r, c) < w * h && LumaCopied(out[..], w, y, r, c)
    {
      RowMajorBelow(r, c, w, h);
    }
    return true;
  }

  /**
   * Padded rows, corrected: each row's w bytes are read from its start, so
   * the last row needs only w bytes, not a whole stride.
   */
  method CopyLumaPadded(w: nat, h: nat, y: Plane, out: array<Byte>)
    returns (ok: bool)
    modifies out
    ensures ok <==> PaddedFits(w, h, y, out.Length)
    ensures ok ==> LumaDone(out[..], w, y, h)
    ensures ok ==> forall k | w * h <= k < out.Length :: out[k] == old(out[k])
  {
    ghost var o0 := out[..];
    var pos, outPos, row := 0, 0, 0;
    while row < h
      invariant row <= h
      invariant pos == row * y.rowStride && outPos == row * w
      invariant row > 0 ==> w <= y.rowStride && (row - 1) * y.rowStride + w <= |y.bytes|
      invariant outPos <= out.Length && |o0| == out.Length
      invariant LumaDone(out[..], w, y, row)
      invariant forall k | outPos <= k < out.Length :: out[k] == o0[k]
    {
      if w > y.rowStride || pos + w > |y.bytes| || outPos + w > out.Length {
        MulLe(row, h - 1, y.rowStride);
        MulLe(row + 1, h, w);
        return false;
      }
      ghost var before := out[..];
      forall k | outPos <= k < outPos + w {
        out[k] := y.bytes[pos + (k - outPos)];
      }
      LumaRowStep(before, out[..], w, y, row, outPos, pos);
      pos, outPos, row := pos + y.rowStride, outPos + w, row + 1;
    }
    return true;
  }

  /** The padded branch as written: every row, the last one too, reads a whole stride first. */
  method CopyLumaPaddedAsWritten(w: nat, h: nat, y: Plane, out: array<Byte>)
    returns (ok: bool)
    modifies out
    ensures ok <==> PaddedFitsAsWritten(w, h, y, out.Length)
    ensures ok ==> LumaDone(out[..], w, y, h)
    ensures ok ==> forall k | w * h <= k < out.Length :: out[k] == old(out[k])
  {
    ghost var o0 := out[..];
    var pos, outPos, row := 0, 0, 0;
    while row < h
      invariant row <= h
      invariant pos == row * y.rowStride && outPos == row * w
      invariant row > 0 ==> w <= y.rowStride
      invariant pos <= |y.bytes| && outPos <= out.Length && |o0| == out.Length
      invariant LumaDone(out[..], w, y, row)
      invariant forall k | outPos <= k < out.Length :: out[k] == o0[k]
    {
      if |y.bytes| - pos < y.rowStride {
        MulLe(row + 1, h, y.rowStride);
        return false;
      }
      // the whole stride is consumed; its first w bytes are kept
      if w > y.rowStride || outPos + w > out.Length {
        MulLe(row + 1, h, w);
        return false;
      }
      ghost var before := out[..];
      forall k | outPos <= k < outPos + w {
        out[k] := y.bytes[pos + (k - outPos)];
      }
      LumaRowStep(before, out[..], w, y, row, outPos, pos);
      pos, outPos, row := pos + y.rowStride, outPos + w, row + 1;
    }
    return true;
  }

  /**
   * A 2x2 image whose Y plane has stride 3 and stops right after the last
   * row's two samples, as camera buffers commonly do: the as-written branch
   * rejects it, the corrected one copies it.
   */
  method UnpaddedLastRow() returns (asWritten: bool, corrected: bool)
    ensures !asWritten && corrected
  {
    var y := Plane([1, 2, 0, 3, 4], 3, 1);
    var out := new Byte[6];
    asWritten := CopyLumaPaddedAsWritten(2, 2, y, out);
    corrected := CopyLumaPadded(2, 2, y, out);
  }

  /** The chroma half: for each sample, a V byte and then a U byte, from w*h on. */
  method CopyChroma(w: nat, h: nat, u: Plane, v: Plane, out: array<Byte>)
    returns (ok: bool)
    modifies out
    ensures ok <==> ChromaFits(w, h, u, v, out.Length)
    ensures forall k | 0 <= k < w * h && k < out.Length :: out[k] == old(out[k])
    ensures ok ==> ChromaDone(out[..], w, h, u, v, h / 2, 0)
    ensures ok ==> forall k | Nv21Size(w, h) <= k < out.Length :: out[k] == old(out[k])
  {
    ghost var o0 := out[..];
    var outPos := w * h;
    var row := 0;
    while row < h / 2
      invariant row <= h / 2
      invariant outPos == ChromaPos(w, h, row, 0) && w * h <= outPos
      invariant |o0| == out.Length
      invariant ChromaDone(out[..], w, h, u, v, row, 0)
      invariant forall k | 0 <= k < out.Length && (k < w * h || outPos <= k) :: out[k] == o0[k]
    {
      var col := 0;
      while col < w / 2
        invariant col <= w / 2
        invariant outPos == ChromaPos(w, h, row, col) && w * h <= outPos
        invariant ChromaDone(out[..], w, h, u, v, row, col)
        invariant forall k | 0 <= k < out.Length && (k < w * h || outPos <= k) :: out[k] == o0[k]
      {
        var uIndex := Offset(u, row, col);
        var vIndex := Offset(v, row, col);
        if vIndex >= |v.bytes| || outPos >= out.Length {
          ChromaFailure(w, h, u, v, row, col);
          return false;
        }
        ghost var before := out[..];
        out[outPos] := v.bytes[vIndex];
        if uIndex >= |u.bytes| || outPos + 1 >= out.Length {
          ChromaFailure(w, h, u, v, row, col);
          return false;
        }
        out[outPos + 1] := u.bytes[uIndex];
        ChromaStep(before, out[..], w, h, u, v, row, col);
        outPos, col := outPos + 2, col + 1;
      }
      assert (row + 1) * (w / 2) == row * (w / 2) + w / 2;
      row := row + 1;
    }
    ChromaEnd(w, h);
    if w / 2 > 0 && h / 2 > 0 {
      assert ChromaCopied(out[..], w, h, u, v, h / 2 - 1, w / 2 - 1);
    }
    return true;
  }
}
