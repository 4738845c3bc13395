/** Who things belong to. Ids are opaque. */
module Identities {

  type TenantId = nat
  type RoleId = nat
  type UserId = nat

  /** Compared character by character, as the tables do. */
  type Email = string
}
