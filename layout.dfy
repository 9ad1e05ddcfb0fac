/** Screen geometry: how many bytes one row of the hex view holds, how many
    rows a page has, and how many bytes of the file the page covers. The
    terminal size is queried once at start-up and is constant afterwards. */
module Layout {
  import opened CRuntime

  /** The terminal size: columns and rows. */
  datatype Geometry = Geometry(width: nat, height: nat)

  /** A terminal wide enough for at least one byte per row. */
  predicate Usable(g: Geometry) {
    g.width >= 11
  }

  /** BUF_WIDTH: every byte takes three hex columns and one ASCII column, and
      seven columns go to the offset gutter and the separator. */
  function BufWidth(g: Geometry): (w: int)
    ensures Usable(g) <==> w >= 1
    ensures g.width >= 7 ==> 4 * w + 7 <= g.width < 4 * w + 11
  {
    CDiv(g.width - 7, 4)
  }

  /** BUF_HEIGHT: one row of bytes per terminal row, the last one included,
      although the status bar is drawn on that row too. */
  function BufHeight(g: Geometry): (h: nat)
    ensures h == g.height
  {
    g.height
  }

  /** Bytes on one full page: BUF_WIDTH bytes on each of BUF_HEIGHT rows. On
      a usable terminal a page holds at least one byte per row, and its hex
      and ASCII cells fit in the screen. */
  function PageBytes(g: Geometry): (p: int)
    ensures Usable(g) ==> BufHeight(g) <= p
    ensures Usable(g) ==> 4 * p + 7 * BufHeight(g) <= g.width * BufHeight(g)
  {
    var w, h := BufWidth(g), BufHeight(g);
    PageArithmetic(w, h, g.width);
    w * h
  }

  lemma PageArithmetic(w: int, h: nat, width: int)
    ensures 1 <= w ==> h <= w * h
    ensures 4 * w + 7 <= width ==> 4 * (w * h) + 7 * h <= width * h
  {
    if 4 * w + 7 <= width {
      assert (4 * w + 7) * h <= width * h;
    }
  }

  /** MAXREAD: a full page, or what remains of the file after the page's
      start when that is shorter. */
  function MaxRead(g: Geometry, filesize: int, viewport: int): (n: int)
    ensures n <= PageBytes(g)
    ensures n <= filesize - viewport * BufWidth(g)
    ensures n == PageBytes(g) || n == filesize - viewport * BufWidth(g)
  {
    if PageBytes(g) < filesize - viewport * BufWidth(g) then PageBytes(g)
    else filesize - viewport * BufWidth(g)
  }
}
