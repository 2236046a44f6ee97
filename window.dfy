// `window2d`: which region of an lx-by-ly image a window of isize_x by isize_y cuts out.
module Window {
  import opened Wrappers
  import opened PyNum

  /** An image region: corner (x, y) and size w by h. */
  datatype Region = Region(x: int, y: int, w: int, h: int)

  /** A window is a copy of the whole image, or a clip of one region of it. */
  datatype Cut = Copy | Clip(reg: Region)

  /**
   * The window for option "l" (corner at (ix, iy)), "c" (centred on the image centre) or
   * "a" (centred on (ix, iy)); an image already of the window's size is copied. Any other
   * option is an error.
   */
  function Window2D(lx: int, ly: int, isizeX: int, isizeY: int, opt: string, ix: int, iy: int): (c: Result<Cut>)
    ensures lx == isizeX && ly == isizeY ==> c == Ok(Copy)
    ensures !(lx == isizeX && ly == isizeY) ==>
      (c.Ok? <==> opt == "l" || opt == "c" || opt == "a") &&
      (c.Ok? ==> c.value.Clip? && c.value.reg.w == isizeX && c.value.reg.h == isizeY)
    ensures c.Ok? && c.value.Clip? && opt == "l" ==> c.value.reg.x == ix && c.value.reg.y == iy
    ensures c.Ok? && c.value.Clip? && opt == "c" ==>
      c.value.reg.x + FloorDiv(isizeX, 2) == FloorDiv(lx, 2) && c.value.reg.y + FloorDiv(isizeY, 2) == FloorDiv(ly, 2)
    ensures c.Ok? && c.value.Clip? && opt == "a" ==>
      c.value.reg.x + FloorDiv(isizeX, 2) == ix && c.value.reg.y + FloorDiv(isizeY, 2) == iy
  {
    if lx == isizeX && ly == isizeY then Ok(Copy)
    else if opt == "l" then Ok(Clip(Region(ix, iy, isizeX, isizeY)))
    else if opt == "c" then
      Ok(Clip(Region(FloorDiv(lx, 2) - FloorDiv(isizeX, 2), FloorDiv(ly, 2) - FloorDiv(isizeY, 2), isizeX, isizeY)))
    else if opt == "a" then
      Ok(Clip(Region(ix - FloorDiv(isizeX, 2), iy - FloorDiv(isizeY, 2), isizeX, isizeY)))
    else Err("Unknown window2d option")
  }

  /** A centred window no larger than the image lies inside it. */
  lemma CentredInside(lx: int, ly: int, isizeX: int, isizeY: int, ix: int, iy: int)
    requires 0 <= isizeX <= lx && 0 <= isizeY <= ly
    ensures var c := Window2D(lx, ly, isizeX, isizeY, "c", ix, iy);
      c.Ok? && (c.value.Clip? ==>
        0 <= c.value.reg.x && c.value.reg.x + isizeX <= lx &&
        0 <= c.value.reg.y && c.value.reg.y + isizeY <= ly)
  {
    HalfInside(isizeX, lx);
    HalfInside(isizeY, ly);
  }

  /** s // 2 <= l // 2 and l // 2 - s // 2 + s <= l for 0 <= s <= l. */
  lemma HalfInside(s: int, l: int)
    requires 0 <= s <= l
    ensures 0 <= FloorDiv(l, 2) - FloorDiv(s, 2) && FloorDiv(l, 2) - FloorDiv(s, 2) + s <= l
  {
  }
}
