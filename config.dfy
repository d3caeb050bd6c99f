/** The fixed Argon2id cost settings used when a new credential is made. */
module AuthConfig {
  import opened Numbers

  /** Number of passes over the memory. */
  const TimeCost: uint32 := 2
  /** Memory cost in KiB: 64 MiB. */
  const MemoryKB: uint32 := 64 * 1024
  /** Degree of parallelism (lanes). */
  const Threads: uint8 := 2
  /** Length of the derived key in bytes. */
  const KeyLen: uint32 := 32
  /** Length of the random salt in bytes. */
  const SaltLen: nat := 16
}
