/**
 The state an EDRAM store holds and the value block it passes to its color
 load/store programs.

 Vulkan objects (device memory, the image and its view, layouts, pools,
 shader modules, pipelines) are opaque handles here; a null handle is None.
 */
module EdramStore {
  import opened Wrappers
  import opened Modes

  /** An opaque, non-null Vulkan object handle. */
  type Handle = nat

  /** A 32-bit unsigned value (`uint32_t`). */
  type Uint32 = x: nat | x < 0x1_0000_0000

  /** The access regime the EDRAM image is currently prepared for
      (`EDRAMImageStatus`): never used yet, written by a store, read by a
      load. */
  datatype ImageStatus = Untransitioned | Store | Load

  /** Per-mode compute programs and pipelines (`ModeData`); each starts null
      and is filled when the mode is first used. */
  datatype ModeData = ModeData(
    storeShaderModule: Option<Handle>,
    storePipeline: Option<Handle>,
    loadShaderModule: Option<Handle>,
    loadPipeline: Option<Handle>)

  /** A mode's data before anything has been created for it. */
  const EmptyModeData: ModeData := ModeData(None, None, None, None)

  /** The EDRAM store's own state. */
  datatype State = State(
    edramMemory: Option<Handle>,
    edramImage: Option<Handle>,
    edramImageView: Option<Handle>,
    imageStatus: ImageStatus,
    descriptorSetLayoutColor: Option<Handle>,
    pipelineLayoutColor: Option<Handle>,
    descriptorPool: Option<Handle>,
    modeData: seq<ModeData>)
  {
    /** The per-mode data table has one entry per real mode. */
    predicate Valid() {
      IsModeTable(modeData)
    }
  }

  /** A freshly constructed store: every handle null, the EDRAM image not yet
      transitioned, and no mode's programs or pipelines created. */
  function Initial(): (s: State)
    ensures s.Valid()
    ensures s.imageStatus == Untransitioned
    ensures s.edramMemory == None && s.edramImage == None && s.edramImageView == None
    ensures s.descriptorSetLayoutColor == None && s.pipelineLayoutColor == None
    ensures s.descriptorPool == None
    ensures forall m :: m != Unsupported ==> Lookup(s.modeData, m) == Some(EmptyModeData)
    ensures Lookup(s.modeData, Unsupported) == None
  {
    State(None, None, None, Untransitioned, None, None, None, [EmptyModeData, EmptyModeData])
  }

  /** The value block pushed to the color load/store programs
      (`PushConstantsColor`): tile offset and pitch in the EDRAM, and the
      render target's pixel offset. */
  datatype PushConstantsColor = PushConstantsColor(
    edramOffsetTiles: Uint32,
    edramPitchTiles: Uint32,
    rtOffsetX: Uint32,
    rtOffsetY: Uint32)

  /** Bytes in one 32-bit word. */
  const WordBytes: nat := 4

  /** The block as the 32-bit words it occupies, in declaration order. */
  function ToWords(p: PushConstantsColor): (w: seq<Uint32>)
    ensures |w| * WordBytes == 16
  {
    [p.edramOffsetTiles, p.edramPitchTiles, p.rtOffsetX, p.rtOffsetY]
  }
}
