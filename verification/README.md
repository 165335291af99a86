# EDRAM store model

A Dafny model of the pure logic of xenia's Vulkan EDRAM store (`EDRAMStore`).
The store mirrors the Xbox 360 GPU's EDRAM into one 1280×2048 image of 32-bit
texels. It moves guest render-target contents between that image and the
host's render-target images.

The model covers what the store's header states:

- **Tile layout** (`TileLayout`). Tile `t` has its top-left texel at
  `((t & 15) * 80, (t >> 4) * 16)`. The `&` and `>>` operators are defined
  bit by bit in `Bits` and proved equal to `% 16` and `/ 16`. On top of that
  the model proves these facts:
  - every tile below 2048 lies inside the image;
  - bands of 16 tiles share a row, and tile `t + 16` is one band below tile `t`;
  - distinct tiles have distinct origins and disjoint 80×16 blocks;
  - every texel lies in exactly one tile, `(y / 16) * 16 + x / 80`, and the
    two directions of the mapping are inverse;
  - the image is 10 MiB.
- **Format classification** (`Formats`). `IsColorFormat64bpp` over the
  guest's color render-target formats is checked against an independent
  reference: the formats' channel widths. Values of the enumeration's
  underlying type that are none of its named enumerators are an explicit
  `Unrecognized` case, never classified 64 bpp.
- **Modes** (`Modes`). The mode enumeration is a tagged value with an explicit
  `Unsupported` case. Enumerator values and table indices map to modes and
  back. Only the two real modes index the per-mode tables, whose length is
  `k_ModeCount` = 2.
- **Store state** (`EdramStore`). The store's fields hold Vulkan handles
  (null = `None`), the EDRAM image status and the per-mode data table.
  `Initial` is the state of a freshly constructed store. The image status is a
  closed datatype, so it is always one of `Untransitioned`, `Store` and `Load`.
  The push-constant block is laid out as four 32-bit words.

## Model

| member | source | states |
|---|---|---|
| Bits.And | src/xenia/gpu/vulkan/edram_store.h:39-40 | Bitwise AND of non-negative values never exceeds either operand |
| Bits.ShiftRight | src/xenia/gpu/vulkan/edram_store.h:39-40 | A logical right shift never increases its operand |
| Bits.AndLowMask | src/xenia/gpu/vulkan/edram_store.h:39-40 | `a & (2^k - 1)` equals `a % 2^k` for every a and k |
| Bits.ShiftRightIsDiv | src/xenia/gpu/vulkan/edram_store.h:39-40 | `a >> n` equals `a / 2^n` for every a and n |
| Bits.LowNibble | src/xenia/gpu/vulkan/edram_store.h:39-40 | The layout formula's `t & 15` is `t % 16` and its `t >> 4` is `t / 16` |
| TileLayout.TileOrigin | src/xenia/gpu/vulkan/edram_store.h:39-40 | The bit-twiddled origin `((t & 15) * 80, (t >> 4) * 16)` is column `t % 16` times 80 and band `t / 16` times 16 |
| TileLayout.TileOf | src/xenia/gpu/vulkan/edram_store.h:25-40 | For each texel of the 1280×2048 image, `(y / 16) * 16 + x / 80` is a tile below 2048 whose block contains the texel |
| TileLayout.TileBlockInImage | src/xenia/gpu/vulkan/edram_store.h:25-40 | For every tile below 2048, the origin and the whole 80×16 block lie inside the 1280×2048 image |
| TileLayout.TileColumn | src/xenia/gpu/vulkan/edram_store.h:39-40 | A tile's x origin is a multiple of 80, at most 1200, and is column `t % 16` of its band |
| TileLayout.TileBands | src/xenia/gpu/vulkan/edram_store.h:39-40 | Tiles with equal `t >> 4` share a y origin, and tile `t + 16` sits exactly 16 rows below tile `t` in the same column |
| TileLayout.BandMembers | src/xenia/gpu/vulkan/edram_store.h:39-40 | Band b (y origin 16·b) holds exactly the 16 tiles 16·b to 16·b + 15 |
| TileLayout.TileOriginInjective | src/xenia/gpu/vulkan/edram_store.h:39-40 | Tiles with equal origins are the same tile |
| TileLayout.InTileIffTileOf | src/xenia/gpu/vulkan/edram_store.h:25-40 | A texel of the image lies in tile t if and only if t is `(y / 16) * 16 + x / 80` |
| TileLayout.TileBlocksDisjoint | src/xenia/gpu/vulkan/edram_store.h:39-40 | Any texel lies in at most one tile's 80×16 block, so blocks of distinct tiles are disjoint |
| TileLayout.ExactlyOneTile | src/xenia/gpu/vulkan/edram_store.h:25-40 | The set of tiles below 2048 that hold a given image texel is exactly the single tile `TileOf` names |
| TileLayout.TileOfOrigin | src/xenia/gpu/vulkan/edram_store.h:39-40 | Mapping a tile below 2048 to its origin and back yields the same tile |
| TileLayout.OriginOfTileOf | src/xenia/gpu/vulkan/edram_store.h:39-40 | Mapping a texel to its tile and back yields the top-left corner of the block that contains the texel |
| TileLayout.OriginOnto | src/xenia/gpu/vulkan/edram_store.h:39-40 | Every block corner (80·c, 16·b) of the image is the origin of tile 16·b + c, and that tile is below 2048 |
| TileLayout.FullWidthRunIsRectangle | src/xenia/gpu/vulkan/edram_store.h:35-40 | From a 16-aligned tile offset, tiles of a 16-tile pitch fill whole bands: row r, column c sits at (80·c, y0 + 16·r) |
| TileLayout.TileOriginFits32Bits | src/xenia/gpu/vulkan/edram_store.h:39-40 | For every 32-bit tile index, both origin coordinates fit in 32 bits, so the formula cannot wrap around |
| TileLayout.ImageSize | src/xenia/gpu/vulkan/edram_store.h:148-151 | The image is 16 tiles wide and 128 bands tall, the 2048 tiles' texels fill it with none to spare, and at 4 bytes per texel it is 10 MiB |
| TileLayout.CornerTiles | src/xenia/gpu/vulkan/edram_store.h:39-40 | Tiles 0, 15, 16 and 2047 sit at (0,0), (1200,0), (0,16) and (1200,2032), and the last block ends at (1280,2048) |
| Formats.Only64bppFormats | src/xenia/gpu/vulkan/edram_store.h:50-54 | The definitional statement, in set form: `IsColorFormat64bpp` holds for exactly 16_16_16_16, 16_16_16_16_FLOAT and 32_32_FLOAT, and fails for every other value, unrecognized ones included |
| Formats.Is64bppMatchesChannelWidths | src/xenia/gpu/vulkan/edram_store.h:49-54 | A format is classified 64 bpp exactly when its channel widths sum to 64; every other named format's channels sum to 32; an unrecognized value is never 64 bpp |
| Modes.FromEnumValue | src/xenia/gpu/vulkan/edram_store.h:87-98 | An enumerator value denotes a mode exactly when it lies in [-1, k_ModeCount) |
| Modes.EnumValueRoundTrip | src/xenia/gpu/vulkan/edram_store.h:87-98 | Mode to enumerator value and back is the identity, and a value denotes mode m exactly when it is m's value |
| Modes.TableIndex | src/xenia/gpu/vulkan/edram_store.h:87-98 | A mode's table index, when it has one, is its enumerator value and is below k_ModeCount |
| Modes.ModeAt | src/xenia/gpu/vulkan/edram_store.h:87-98 | Every table index below k_ModeCount holds a real mode, never the unsupported sentinel |
| Modes.TableIndexValid | src/xenia/gpu/vulkan/edram_store.h:87-98 | A mode is a valid table index iff its value lies in [0, k_ModeCount), iff it is not k_ModeUnsupported; indices and real modes correspond one to one |
| Modes.RealModeCount | src/xenia/gpu/vulkan/edram_store.h:87-98 | The table indices below k_ModeCount name exactly the two real modes, and k_ModeCount is their number |
| Modes.Lookup | src/xenia/gpu/vulkan/edram_store.h:166-168 | Reading a per-mode table yields entry 0 for k_32bpp, entry 1 for k_64bpp and nothing for k_ModeUnsupported |
| Modes.Update | src/xenia/gpu/vulkan/edram_store.h:166-168 | Replacing a real mode's entry keeps the table's length, changes that mode's entry and no other |
| EdramStore.Initial | src/xenia/gpu/vulkan/edram_store.h:146-168 | A fresh store has image status kUntransitioned, null handles, and a k_ModeCount-long mode-data table whose entries are all null |
| EdramStore.ToWords | src/xenia/gpu/vulkan/edram_store.h:121-125 | The push-constant block occupies 16 bytes |

## Left out

- `GetDimensions`, `GetMaxHeight`, `GetPixelEDRAMSizePower`, `GetColorMode`, `TransitionEDRAMImage`, `GetStoreColorImageViewFormat`, `CopyColor`, `Scavenge`, `Initialize` and `Shutdown`: only their declarations are in `edram_store.h`. Their bodies live in `edram_store.cc`, which is not part of this model, so any model of them would be guesswork. This means the model has no mode resolution from (format, samples), no rectangle clipping, no regime transition and no dispatch.
- `PushConstantsColor` is modelled only as its word layout (`EdramStore.ToWords`): nothing in the header reads the block back.
- Vulkan objects and calls (device memory, image, view, descriptor and pipeline layouts, pipelines, command-buffer recording, barriers): these are opaque handles (`EdramStore.Handle`) or left out.
- `DescriptorPool`, fences and completion tracking: these come from a library outside this model.
- The shader bytecode, sizes and debug names in `ModeInfo`, and the contents of the static `mode_info_` table: those are opaque data defined in `edram_store.cc`. Only the table's shape and indexing are modelled (`Modes.Lookup`).
- The commented-out `k_7e3` mode: it is not part of the enumeration.
- `Formats.ColorRenderTargetFormat`: only three of its members are named in `edram_store.h`. The rest follow the guest format list in `xenos.h`, which is not part of this model, so their numeric values are not modelled either. Any other value of the underlying type is the single `Unrecognized` case, which `IsColorFormat64bpp` classifies as not 64 bpp, like the source. `Formats.ChannelBits` reads each named format's channel widths off its name.
- Integer width: tile indices are unbounded naturals. For non-negative values, `&` and `>>` do not depend on the width. The layout formula cannot overflow 32 bits for any 32-bit tile index (`TileLayout.TileOriginFits32Bits`), so nothing about wrap-around is lost.
