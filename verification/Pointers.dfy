/** Addresses of nodes, where a model keeps them in a map from addresses. */
module Pointers {
  type Ptr = nat
  const NULL: Ptr := 0
}
