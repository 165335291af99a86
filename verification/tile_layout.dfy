/**
 The layout of EDRAM tiles inside the EDRAM store's backing image.

 The guest EDRAM is mirrored into one 1280x2048 image of 32-bit texels.
 A tile is an 80x16 block of texels; 16 tiles sit side by side in every
 16-texel band, and tile t has its top-left texel at
 ((t & 15) * 80, (t >> 4) * 16).
 */
module TileLayout {
  import opened Bits

  /** Width and height of the backing image, in texels. */
  const ImageWidth: nat := 1280
  const ImageHeight: nat := 2048
  /** Size of one texel of the backing image (a 32-bit element), in bytes. */
  const BytesPerTexel: nat := 4
  /** Width and height of one tile, in texels. */
  const TileWidth: nat := 80
  const TileHeight: nat := 16
  /** Tiles per 16-texel band of the image (the `& 15` / `>> 4` split). */
  const TilesPerBand: nat := 16
  /** Number of tiles the backing image holds. */
  const TileCount: nat := 2048

  /** A texel position in the backing image: column x, row y. */
  datatype Texel = Texel(x: nat, y: nat)

  /** Whether a texel position lies inside the 1280x2048 image. */
  predicate InImage(p: Texel) {
    p.x < ImageWidth && p.y < ImageHeight
  }

  /** Top-left texel of tile t, computed with the bit operations of the
      store's layout formula. */
  function TileOrigin(t: nat): (o: Texel)
    ensures o.x == (t % TilesPerBand) * TileWidth
    ensures o.y == (t / TilesPerBand) * TileHeight
  {
    LowNibble(t);
    Texel(And(t, 15) * TileWidth, ShiftRight(t, 4) * TileHeight)
  }

  /** Whether texel p lies in the 80x16 block of tile t. */
  predicate InTile(p: Texel, t: nat) {
    var o := TileOrigin(t);
    o.x <= p.x < o.x + TileWidth && o.y <= p.y < o.y + TileHeight
  }

  /** The tile whose block holds texel p: band p.y / 16, column p.x / 80. */
  function TileOf(p: Texel): (t: nat)
    requires InImage(p)
    ensures t < TileCount
    ensures InTile(p, t)
  {
    var band, column := p.y / TileHeight, p.x / TileWidth;
    assert band < 128 && column < TilesPerBand;
    var t := band * TilesPerBand + column;
    DivModUnique(t, TilesPerBand, band, column);
    t
  }

  /** Every tile below TileCount, block included, fits inside the image. */
  lemma TileBlockInImage(t: nat)
    requires t < TileCount
    ensures TileOrigin(t).x + TileWidth <= ImageWidth
    ensures TileOrigin(t).y + TileHeight <= ImageHeight
    ensures forall p :: InTile(p, t) ==> InImage(p)
  {
    assert t / TilesPerBand < 128;
  }

  /** The x origins within a band are 0, 80, ..., 1200: multiples of the tile
      width, and never more than 1200. */
  lemma TileColumn(t: nat)
    ensures TileOrigin(t).x % TileWidth == 0
    ensures TileOrigin(t).x <= ImageWidth - TileWidth
    ensures TileOrigin(t).x / TileWidth == t % TilesPerBand
  {
    var c := t % TilesPerBand;
    DivModUnique(c * TileWidth, TileWidth, c, 0);
  }

  /** Tiles in the same band (equal t >> 4) share their y origin, and tile
      t + 16 sits exactly one band (16 rows) below tile t, in the same column. */
  lemma TileBands(t: nat, u: nat)
    ensures ShiftRight(t, 4) == ShiftRight(u, 4) ==> TileOrigin(t).y == TileOrigin(u).y
    ensures TileOrigin(t + TilesPerBand) == Texel(TileOrigin(t).x, TileOrigin(t).y + TileHeight)
  {
    LowNibble(t);
    LowNibble(u);
    DivModUnique(t + TilesPerBand, TilesPerBand, t / TilesPerBand + 1, t % TilesPerBand);
  }

  /** Each band holds exactly 16 tiles, 16 * b through 16 * b + 15, one per
      column. */
  lemma BandMembers(b: nat, t: nat)
    ensures TileOrigin(t).y == b * TileHeight <==> b * TilesPerBand <= t < (b + 1) * TilesPerBand
  {
    if b * TilesPerBand <= t < (b + 1) * TilesPerBand {
      DivModUnique(t, TilesPerBand, b, t - b * TilesPerBand);
    }
  }

  /** Distinct tile indices have distinct origins. */
  lemma TileOriginInjective(t: nat, u: nat)
    requires TileOrigin(t) == TileOrigin(u)
    ensures t == u
  {
  }

  /** A texel of the image lies in tile t exactly when t is TileOf(p): the
      tiles cover the image and no two of them overlap. */
  lemma InTileIffTileOf(p: Texel, t: nat)
    requires InImage(p)
    ensures InTile(p, t) <==> t == TileOf(p)
  {
    if InTile(p, t) {
      var band, column := t / TilesPerBand, t % TilesPerBand;
      DivModUnique(p.y, TileHeight, band, p.y - band * TileHeight);
      DivModUnique(p.x, TileWidth, column, p.x - column * TileWidth);
    }
  }

  /** The blocks of two distinct tiles are disjoint: a texel, inside the
      image or not, lies in at most one tile. */
  lemma TileBlocksDisjoint(t: nat, u: nat, p: Texel)
    requires InTile(p, t) && InTile(p, u)
    ensures t == u
  {
    DivModUnique(p.y, TileHeight, t / TilesPerBand, p.y - TileOrigin(t).y);
    DivModUnique(p.y, TileHeight, u / TilesPerBand, p.y - TileOrigin(u).y);
    DivModUnique(p.x, TileWidth, t % TilesPerBand, p.x - TileOrigin(t).x);
    DivModUnique(p.x, TileWidth, u % TilesPerBand, p.x - TileOrigin(u).x);
  }

  /** Of the 2048 tiles, exactly one holds any given texel of the image. */
  lemma ExactlyOneTile(p: Texel)
    requires InImage(p)
    ensures (set t | 0 <= t < TileCount && InTile(p, t)) == {TileOf(p)}
  {
    forall t | 0 <= t < TileCount
      ensures InTile(p, t) <==> t == TileOf(p)
    {
      InTileIffTileOf(p, t);
    }
  }

  /** Tile index to origin and back is the identity on the image's tiles. */
  lemma TileOfOrigin(t: nat)
    requires t < TileCount
    ensures InImage(TileOrigin(t))
    ensures TileOf(TileOrigin(t)) == t
  {
    TileBlockInImage(t);
    InTileIffTileOf(TileOrigin(t), t);
  }

  /** Texel to tile and back gives the top-left corner of the block holding
      the texel. */
  lemma OriginOfTileOf(p: Texel)
    requires InImage(p)
    ensures TileOrigin(TileOf(p)) == Texel(p.x - p.x % TileWidth, p.y - p.y % TileHeight)
  {
  }

  /** Every block corner (80 * c, 16 * b) of the image is the origin of tile
      16 * b + c: the mapping is onto the grid of block corners. */
  lemma OriginOnto(c: nat, b: nat)
    requires c < TilesPerBand && b < ImageHeight / TileHeight
    ensures b * TilesPerBand + c < TileCount
    ensures TileOrigin(b * TilesPerBand + c) == Texel(c * TileWidth, b * TileHeight)
  {
    DivModUnique(b * TilesPerBand + c, TilesPerBand, b, c);
  }

  /** A 1280-texel-wide run of tiles starting at a multiple of 16 occupies
      whole bands: tile row r, column c of it sits at (80 * c, y0 + 16 * r),
      where y0 is the first tile's row, so it is one contiguous rectangle of
      the image. */
  lemma FullWidthRunIsRectangle(base: nat, r: nat, c: nat)
    requires base % TilesPerBand == 0 && c < TilesPerBand
    ensures TileOrigin(base + r * TilesPerBand + c)
         == Texel(c * TileWidth, TileOrigin(base).y + r * TileHeight)
  {
    var b := base / TilesPerBand;
    DivModUnique(base + r * TilesPerBand + c, TilesPerBand, b + r, c);
  }

  /** For every 32-bit tile index, both origin coordinates fit in 32 bits,
      so the layout formula never wraps around in `uint32_t` arithmetic. */
  lemma TileOriginFits32Bits(t: nat)
    requires t < 0x1_0000_0000
    ensures TileOrigin(t).x < 0x1_0000_0000 && TileOrigin(t).y < 0x1_0000_0000
  {
  }

  /** The image is exactly 16 tiles wide and 128 bands tall, holds the 2048
      tiles' texels with none to spare, and occupies 10 MiB. */
  lemma ImageSize()
    ensures ImageWidth == TilesPerBand * TileWidth
    ensures ImageHeight == (TileCount / TilesPerBand) * TileHeight
    ensures TileCount * TileWidth * TileHeight == ImageWidth * ImageHeight
    ensures ImageWidth * ImageHeight * BytesPerTexel == 10 * 1024 * 1024
  {
  }

  /** The corner tiles of the image. */
  lemma CornerTiles()
    ensures TileOrigin(0) == Texel(0, 0)
    ensures TileOrigin(15) == Texel(1200, 0)
    ensures TileOrigin(16) == Texel(0, 16)
    ensures TileOrigin(TileCount - 1) == Texel(1200, 2032)
    ensures TileOrigin(TileCount - 1).x + TileWidth == ImageWidth
    ensures TileOrigin(TileCount - 1).y + TileHeight == ImageHeight
  {
  }
}
