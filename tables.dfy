/**
 * Identifiers of stored records, and the flat view of a policy class that
 * the member screens query (the class together with its policy's client and
 * whether that policy has a master policy).
 */
module Tables {
  type ClientId = nat
  type MemberId = nat
  type ClassId = nat
  type ProviderId = nat

  datatype PolicyClassRow = PolicyClassRow(
    id: ClassId,
    name: string,
    policyClient: ClientId,
    policyHasMaster: bool)
}
