/** Units of the integer times used by several modules. */
module Durations {

  const NANOS_PER_SECOND := 1_000_000_000
}
