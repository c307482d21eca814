/** What an opaque device handle stands for: a loaded module or a buffer of a fixed length. */
module Handles {
  import opened Prelude

  datatype HandleKind = ModuleHandle | BufferHandle(len: u64)
}
