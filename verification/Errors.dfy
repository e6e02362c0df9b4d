/** The errors of the loaders, one constructor for each refusal. */
module Errors {
  datatype Breach =
    | MaxEvents(limit: nat, observed: nat)
    | MaxNodes(limit: nat, observed: nat)
    | MaxTotalScalarBytes(limit: nat, observed: nat)
    | MaxDocuments(limit: nat, observed: nat)
    | MaxSequenceLength(limit: nat, observed: nat)
    | MaxMappingKeys(limit: nat, observed: nat)
    | MaxMergeKeys(limit: nat, observed: nat)
    | AliasAnchorRatio(ratio: real, anchors: nat, aliases: nat)
    | MaxIncludeSources(limit: nat, observed: nat)
    | MaxIncludeBytes(limit: nat, observed: nat)

  datatype Error =
    | Budget(breach: Breach)
    | RecursionLimitExceeded(depth: nat)
    | RepetitionLimitExceeded
    | DuplicateKey(key: string)
    | UnknownAnchor(anchor: string)
    | NonScalarAliasKey
    | MergeKeyRejected
    | UnexpectedCollectionEnd
    | IncludeSpecNotString
    | IncludeCycle(identity: string)
    | IncludeTooLong(name: string, limit: nat)
    | FragmentNeedsMapping(fragment: string, path: string)
    | FragmentNotFound(fragment: string, path: string)
    | SecondAnchor
    | DecoratedAlias
    | Rejected(message: string)
  {
    /** A resource limit, as opposed to a fault of the document itself. */
    predicate IsLimit() {
      Budget? || RecursionLimitExceeded? || RepetitionLimitExceeded? || IncludeTooLong?
    }
  }
}
