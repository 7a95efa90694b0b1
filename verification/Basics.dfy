/** What several parts share. */
module Basics {
  datatype Option<+T> = None | Some(value: T)

  /** The hash slots of a cluster. */
  const SLOTS: nat := 16384
}
