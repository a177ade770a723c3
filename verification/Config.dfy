/** The kernel's configuration. */
module Config {
  /** configMAX_PRIORITIES. */
  const MAX_PRIORITIES: nat := 10

  /** The number of values of a tick count. */
  const TICKS: nat := 0x1_0000_0000

  /** portMAX_DELAY. */
  const MAX_DELAY: nat := 0xFFFF_FFFF
}
