/** struct CLMarker (driver/ControlListUtil.h) on the 32-bit target: its fields stand
    one behind the other in the order of declaration, each 32-bit field and each
    pointer in four bytes. */
module StructLayout {
  import opened Bytes
  import opened Markers
  import opened CommandBuffers

  const AT_MEM_GUARD := 0
  const AT_NEXT_MARKER_OFFSET := AT_MEM_GUARD + 4
  const AT_SIZE := AT_NEXT_MARKER_OFFSET + 4
  const AT_WRITE_IMAGE := AT_SIZE + 4
  const AT_READ_IMAGE := AT_WRITE_IMAGE + 4
  const AT_WRITE_DEPTH_STENCIL_IMAGE := AT_READ_IMAGE + 4
  const AT_READ_DEPTH_STENCIL_IMAGE := AT_WRITE_DEPTH_STENCIL_IMAGE + 4
  const AT_WRITE_MSAA_IMAGE := AT_READ_DEPTH_STENCIL_IMAGE + 4
  const AT_WRITE_MSAA_DEPTH_STENCIL_IMAGE := AT_WRITE_MSAA_IMAGE + 4
  const AT_WRITE_IMAGE_OFFSET := AT_WRITE_MSAA_DEPTH_STENCIL_IMAGE + 4
  const AT_READ_IMAGE_OFFSET := AT_WRITE_IMAGE_OFFSET + 4
  const AT_WRITE_DEPTH_STENCIL_IMAGE_OFFSET := AT_READ_IMAGE_OFFSET + 4
  const AT_READ_DEPTH_STENCIL_IMAGE_OFFSET := AT_WRITE_DEPTH_STENCIL_IMAGE_OFFSET + 4
  const AT_WRITE_MSAA_IMAGE_OFFSET := AT_READ_DEPTH_STENCIL_IMAGE_OFFSET + 4
  const AT_WRITE_MSAA_DEPTH_STENCIL_IMAGE_OFFSET := AT_WRITE_MSAA_IMAGE_OFFSET + 4
  const AT_FLAGS := AT_WRITE_MSAA_DEPTH_STENCIL_IMAGE_OFFSET + 4
  const AT_PERFORM_RESOLVE := AT_FLAGS + 4
  const AT_READ_MSAA_IMAGE := AT_PERFORM_RESOLVE + 4
  const AT_READ_MSAA_DEPTH_STENCIL_IMAGE := AT_READ_MSAA_IMAGE + 4
  const AT_PERFMON_ID := AT_READ_MSAA_DEPTH_STENCIL_IMAGE + 4
  const AT_CLEAR_COLOR := AT_PERFMON_ID + 4
  const AT_CLEAR_DEPTH := AT_CLEAR_COLOR + 8
  const AT_CLEAR_STENCIL := AT_CLEAR_DEPTH + 4
  const AT_WIDTH := AT_CLEAR_STENCIL + 4
  const AT_HEIGHT := AT_WIDTH + 4
  const AT_MIP_LEVEL := AT_HEIGHT + 4
  const AT_NUM_DRAW_CALLS_SUBMITTED := AT_MIP_LEVEL + 4
  const AT_HANDLES_BUF_OFFSET := AT_NUM_DRAW_CALLS_SUBMITTED + 4
  const AT_HANDLES_SIZE := AT_HANDLES_BUF_OFFSET + 4
  const AT_SHADER_REC_BUF_OFFSET := AT_HANDLES_SIZE + 4
  const AT_SHADER_REC_SIZE := AT_SHADER_REC_BUF_OFFSET + 4
  const AT_SHADER_REC_COUNT := AT_SHADER_REC_SIZE + 4
  const AT_UNIFORMS_BUF_OFFSET := AT_SHADER_REC_COUNT + 4
  const AT_UNIFORMS_SIZE := AT_UNIFORMS_BUF_OFFSET + 4
  const AT_UNIFORM_RELOC_OFFSET := AT_UNIFORMS_SIZE + 4
  const AT_UNIFORM_RELOC_SIZE := AT_UNIFORM_RELOC_OFFSET + 4
  const AT_GEM_RELOC_OFFSET := AT_UNIFORM_RELOC_SIZE + 4
  const AT_GEM_RELOC_SIZE := AT_GEM_RELOC_OFFSET + 4
  const AT_SHADER_REC_RELOC_OFFSET := AT_GEM_RELOC_SIZE + 4
  const AT_SHADER_REC_RELOC_SIZE := AT_SHADER_REC_RELOC_OFFSET + 4
  const BEHIND := AT_SHADER_REC_RELOC_SIZE + 4

  /** The offsets that recording, submission and vkCmdExecuteCommands work with are
      those of the fields they mean. */
  lemma OffsetsAreTheFields()
    ensures MEM_GUARD == AT_MEM_GUARD && NEXT_MARKER == AT_NEXT_MARKER_OFFSET && SIZE == AT_SIZE
    ensures NUM_DRAW_CALLS == AT_NUM_DRAW_CALLS_SUBMITTED
    ensures HANDLES_OFFSET == AT_HANDLES_BUF_OFFSET && HANDLES_SIZE == AT_HANDLES_SIZE
    ensures SHADER_REC_OFFSET == AT_SHADER_REC_BUF_OFFSET && SHADER_REC_SIZE == AT_SHADER_REC_SIZE
    ensures SHADER_REC_COUNT == AT_SHADER_REC_COUNT
    ensures UNIFORMS_OFFSET == AT_UNIFORMS_BUF_OFFSET && UNIFORMS_SIZE == AT_UNIFORMS_SIZE
    ensures UNIFORM_RELOC_OFFSET == AT_UNIFORM_RELOC_OFFSET && UNIFORM_RELOC_SIZE == AT_UNIFORM_RELOC_SIZE
    ensures GEM_RELOC_OFFSET == AT_GEM_RELOC_OFFSET && GEM_RELOC_SIZE == AT_GEM_RELOC_SIZE
    ensures SHADER_REC_RELOC_OFFSET == AT_SHADER_REC_RELOC_OFFSET && SHADER_REC_RELOC_SIZE == AT_SHADER_REC_RELOC_SIZE
    ensures MARKER_SIZE == BEHIND
  {
  }

  /** What a closed secondary says of its lists, word by word. */
  lemma ClosedMeans(s: seq<byte>, n: Lengths)
    requires |s| == MARKER_SIZE
    ensures Closed(s, n) <==>
      && Word(s, 8) + 164 == n.bin && Word(s, 124) == n.shaderRec && Word(s, 136) == n.uniforms
      && Word(s, 144) == n.uniformReloc && Word(s, 152) == n.gemReloc && Word(s, 160) == n.shaderRecReloc
  {
    hide Word;
  }
}
