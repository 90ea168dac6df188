/** Field sizes of Sphinx packets, in bytes. */
module Sizes {
  const MAX_HOPS: nat := 5
  const NODE_ID_SIZE: nat := 16
  const FLAG_SIZE: nat := 1
  const MAC_SIZE: nat := 16
  const SESSION_ID_SIZE: nat := 32
  const EPHEMERAL_KEY_SIZE: nat := 32
  const SLOT_SIZE: nat := NODE_ID_SIZE + FLAG_SIZE + MAC_SIZE
  const ROUTING_INFO_SIZE: nat := MAX_HOPS * SLOT_SIZE
  const BODY_SIZE: nat := 1024
  const BODY_TAG_SIZE: nat := 16
  const WIRE_BODY_SIZE: nat := BODY_SIZE + BODY_TAG_SIZE
  const KEM_CIPHERTEXT_SIZE: nat := 1088
  const KEM_PUBLIC_KEY_SIZE: nat := 1184
  const KEM_BLOCK_SIZE: nat := MAX_HOPS * KEM_CIPHERTEXT_SIZE
}
