/** The resource limits as pure predicates. */
module Limits {
  import opened Common

  const MAX_ALIAS_BYTES: nat := 1024 * 1024 * 32
  const MAX_DEPTH_CEILING: nat := 256

  function EffectiveMaxDepth(maxDepth: nat): nat {
    if maxDepth < MAX_DEPTH_CEILING then maxDepth else MAX_DEPTH_CEILING
  }

  predicate DepthExceeded(depth: nat, maxDepth: nat) { depth > EffectiveMaxDepth(maxDepth) }

  predicate AliasRatioExceeded(aliases: nat, anchors: nat, ratio: real) {
    aliases as real > ratio * Max(anchors, 1) as real
  }

  predicate JumpChargeExceeded(charge: nat, events: nat, factor: nat) {
    charge > SatMul(events, factor)
  }

  predicate AliasBytesExceeded(total: nat, maxDocumentLength: nat) {
    total > maxDocumentLength || total > MAX_ALIAS_BYTES
  }
}
