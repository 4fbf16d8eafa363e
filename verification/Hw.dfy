/** The register map and the limits of the device. */
module Hw {
  const REG_0 := 0x00
  const REG_1 := 0x08
  const REG_2 := 0x10
  const REG_3 := 0x18
  const REG_CNT := 4
  const IRQ_0_RAISE := 0x20
  const IRQ_0_LOWER := 0x28
  const DMA_CFG_TXDESC_SRC := 0x30
  const DMA_CFG_TXDESC_DST := 0x38
  const DMA_CFG_TXDESC_LEN := 0x40
  const DMA_CFG_CMD := 0x48
  const DMA_DOORBELL_RING := 0x50
  const REGBAR_START := REG_0
  const REGBAR_END := 0x800_0000

  const DMA_ADDR_CAPABILITY := 32
  const DMA_AREA_START := 0x10000
  const DMA_AREA_SIZE := 0x1000
  const DIRECTION_TO_DEVICE := 1
  const DIRECTION_FROM_DEVICE := 2

  const IRQ_VECTOR_END := 0
  const IRQ_MSIX_VECTOR_END := 127
  const IRQ_DMA_ENDED_VECTOR := 0

  const SIZEOF_INT := 4
}
