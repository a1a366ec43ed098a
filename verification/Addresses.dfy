/** Addresses of the records that the intrusive containers link together. */
module Addresses {

  type Ref = nat

  /** The null pointer. */
  const NULL: Ref := 0
}
