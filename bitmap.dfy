/** Monochrome images as two-dimensional boolean arrays indexed [x, y]: the
    operations the program asks of its imaging library (reading a pixel of a
    cropped image, filling a rectangle, cropping a window and pasting it). */
module Bitmap {
  import opened Arith

  /** Pixel (x, y) of img is lit; coordinates outside img read as unlit, as a crop past the edge pads with black. */
  predicate Lit(img: array2<bool>, x: int, y: int)
    reads img
  {
    0 <= x < img.Length0 && 0 <= y < img.Length1 && img[x, y]
  }

  /** Fills the rectangle with inclusive corners (x0, y0) and (x1, y1), cut to the image; an empty range fills nothing. */
  method FillRect(img: array2<bool>, x0: int, y0: int, x1: int, y1: int)
    modifies img
    ensures forall x, y | 0 <= x < img.Length0 && 0 <= y < img.Length1 ::
      img[x, y] == (old(img[x, y]) || (x0 <= x <= x1 && y0 <= y <= y1))
  {
    var xlo, xhi := Max(x0, 0), Min(x1 + 1, img.Length0);
    var ylo, yhi := Max(y0, 0), Min(y1 + 1, img.Length1);
    if xlo < xhi && ylo < yhi {
      for x := xlo to xhi
        invariant forall i, j | 0 <= i < img.Length0 && 0 <= j < img.Length1 ::
          img[i, j] == (old(img[i, j]) || (xlo <= i < x && ylo <= j < yhi))
      {
        for y := ylo to yhi
          invariant forall i, j | 0 <= i < img.Length0 && 0 <= j < img.Length1 ::
            img[i, j] == (old(img[i, j]) || (xlo <= i < x && ylo <= j < yhi) || (i == x && ylo <= j < y))
        {
          img[x, y] := true;
        }
      }
    }
  }

  /** Pastes at (0, 0) of dst the window of src whose top-left corner is (left, top), padding past src's edges with black. */
  method CopyWindow(src: array2<bool>, dst: array2<bool>, left: int, top: int)
    requires src != dst
    modifies dst
    ensures forall i, j | 0 <= i < dst.Length0 && 0 <= j < dst.Length1 :: dst[i, j] == Lit(src, left + i, top + j)
  {
    for i := 0 to dst.Length0
      invariant forall i', j | 0 <= i' < i && 0 <= j < dst.Length1 :: dst[i', j] == Lit(src, left + i', top + j)
    {
      for j := 0 to dst.Length1
        invariant forall i', j' | 0 <= i' < i && 0 <= j' < dst.Length1 :: dst[i', j'] == Lit(src, left + i', top + j')
        invariant forall j' | 0 <= j' < j :: dst[i, j'] == Lit(src, left + i, top + j')
      {
        dst[i, j] := Lit(src, left + i, top + j);
      }
    }
  }
}
