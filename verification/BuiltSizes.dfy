/** The sizes the program is built with. */
module BuiltSizes {
  import opened RingCounters
  import opened Codec
  import opened Pipeline

  const CAPACITY_BYTES: nat := 4 * 1024 * 1024
  const READ_BUFFER_SIZE: nat := 4096
  const MAX_CLIENT_BUFFER: nat := 64 * 1024
  const PAUSE_INGRESS_BYTES: nat := 3 * 1024 * 1024
  const RESUME_INGRESS_BYTES: nat := 1 * 1024 * 1024
  const IPC_BATCH_BYTES: nat := 4096
  const WRITE_BATCH_BYTES: nat := 64 * 1024

  /** All of them in frames.  One receive completes at most 128: 31 bytes may have been waiting. */
  ghost function Sizes(): Limits<Frame> {
    Limits(CAPACITY_BYTES / FRAME_SIZE, PAUSE_INGRESS_BYTES / FRAME_SIZE, RESUME_INGRESS_BYTES / FRAME_SIZE,
           (FRAME_SIZE - 1 + READ_BUFFER_SIZE) / FRAME_SIZE,
           IPC_BATCH_BYTES / FRAME_SIZE, WRITE_BATCH_BYTES / FRAME_SIZE,
           (f: Frame) => WellFormed(f))
  }

  lemma SizesAreGood()
    ensures Good(Sizes())
    ensures Sizes().cap == 131072 && Sizes().pause == 98304 && Sizes().resume == 32768
    ensures Sizes().recv == Sizes().ipc == 128 && Sizes().stage == 2048
    ensures WORD % Sizes().cap == 0
  {}
}
