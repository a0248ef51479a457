/** On-chain addresses as canonical values: letter case is gone. */
module Addresses {
  type Address = nat
  const ZERO_ADDRESS: Address := 0
}
