/** Identifier and byte types shared by the kernel-side models. Rust's fixed-width integers
    are subset types of `nat`, so every value the model builds is provably in range. */
module Types {

  type byte = x: int | 0 <= x < 0x100
  type u32 = x: nat | x < 0x1_0000_0000
  type u64 = x: nat | x < 0x1_0000_0000_0000_0000

  /** Process identifier. */
  type Pid = u64

  /** Identifier of a message expecting an answer. */
  type MessageId = u64

  /** A 32-byte interface hash (`[u8; 32]`). */
  type InterfaceHash = h: seq<byte> | |h| == 32 witness seq(32, _ => 0)
}
