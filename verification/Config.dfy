/**
 Build-time parameters of the collector.  A constant without a right-hand side
 stands for any value of its type, so every theorem of this project holds for
 every admissible configuration.
 */
module Config {

  /** The heap block sizes accepted by the configuration header. */
  type BlockSize = n: nat | n in {512, 1024, 2048, 4096, 8192, 16384} witness 4096

  /** The allocation granules accepted by the configuration header. */
  type GranuleSize = n: nat | n in {8, 16} witness 16

  const HBLKSIZE: BlockSize
  const GRANULE_BYTES: GranuleSize

  /** Mark stack entries in the initial stack, and entries dropped on overflow. */
  const INITIAL_MARK_STACK_SIZE: nat := HBLKSIZE
  const MARK_STACK_DISCARDS: nat := INITIAL_MARK_STACK_SIZE / 8

  /** No heap block holds more objects than it holds granules. */
  const MAX_BLOCK_OBJS: nat := HBLKSIZE / GRANULE_BYTES

  /** Ranges of at least this many words are scanned piecemeal. */
  const SPLIT_RANGE_WORDS: nat := 128

  type WordSize = n: nat | n in {4, 8} witness 8
  const WORD_BYTES: WordSize

  /** Pointers are at addresses that are multiples of this. */
  type Alignment = n: nat | n in {1, 2, 4, 8} && WORD_BYTES % n == 0 witness 1
  const ALIGNMENT: Alignment

  /** Ranges of more bytes than this are shared with other marking threads. */
  const SHARE_BYTES: nat := 2048
}
