/** Machine words, and where main memory has them. */
module Memory {
  const WORD := 0x1_0000_0000
  const KSEG0 := 0x8000_0000
  const RAM_SIZE := 0x20_0000

  // Offsets of the kernel's pointers to its tables.
  const G_HANDLERS := 0x100
  const G_HANDLERS_SIZE := 0x104
  const G_PROCESS := 0x108
  const G_PROCESS_SIZE := 0x10C
  const G_THREADS := 0x110
  const G_THREADS_SIZE := 0x114
  const G_EVENTS := 0x120
  const G_EVENTS_SIZE := 0x124

  const SIZEOF_PCB := 0x8
  const SIZEOF_TCB := 0xC0
  const SIZEOF_HANDLER := 0x8
  const SIZEOF_EVCB := 0x1C

  type Word = x: int | 0 <= x < WORD

  datatype Option<T> = None | Some(value: T)

  /** PSXM, for an address in main memory or one of its mirrors. */
  function Offset(address: int): nat {
    address % RAM_SIZE
  }

  /** Index of the word there. */
  function WordAt(address: int): nat {
    Offset(address) / 4
  }

  lemma OffsetInRam(x: nat)
    requires x < RAM_SIZE
    ensures Offset(KSEG0 + x) == x && WordAt(KSEG0 + x) == x / 4
  {
  }

  lemma WordInRam(address: int)
    ensures WordAt(address) < RAM_SIZE / 4
  {
  }
}
