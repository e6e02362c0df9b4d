/** The counters of one parse, charged in one fixed order. */
module Metering {
  import opened Common
  import opened Errors
  import opened Events
  import opened Limits
  import Tree

  datatype DuplicateKeyPolicy = First | LastWins | Refuse

  datatype MergeKeyPolicy = Auto | AsOrdinary | RefuseMerge

  /** What plain-scalar resolution answers; `PlainStr` keeps the text. */
  datatype PlainScalar = PlainNull | PlainBool(b: bool) | PlainNumber(n: Tree.Number) | PlainStr

  /** What a document means, apart from every limit. */
  datatype Rules = Rules(
    duplicateKeys: DuplicateKeyPolicy,
    mergeKeys: MergeKeyPolicy,
    resolvePlain: string -> PlainScalar,
    renderNumber: Tree.Number -> string
  )

  datatype Config = Config(
    maxDepth: usize,
    maxDocumentLength: usize,
    maxAliasExpansions: usize,
    maxMappingKeys: usize,
    maxSequenceLength: usize,
    maxEvents: usize,
    maxNodes: usize,
    maxTotalScalarBytes: usize,
    maxDocuments: usize,
    maxMergeKeys: usize,
    aliasAnchorRatio: Option<real>,
    aliasJumpEventFactor: Option<usize>,
    nodeBytes: usize,
    rules: Rules
  )

  /** What expanding one alias costs, measured once on the anchored node. */
  datatype AliasCost = AliasCost(nodes: nat, text: nat, height: nat, jump: nat) {
    function Bytes(c: Config): usize { SatAdd(SatMul(nodes, c.nodeBytes), text) }
  }

  /** The measure of a tree that the saturating tally arrives at. */
  function Measure(v: Tree.Value): AliasCost {
    AliasCost(Sat(Tree.Nodes(v)), Sat(Tree.Text(v)), Tree.Height(v), Sat(Tree.Nodes(v)))
  }

  datatype Meter = Meter(
    events: nat,
    nodes: nat,
    scalarBytes: nat,
    anchors: nat,
    documents: nat,
    aliases: nat,
    aliasBytes: nat,
    jumpCharge: nat,
    mergeKeys: nat
  )

  const FRESH := Meter(0, 0, 0, 0, 0, 0, 0, 0, 0)

  function ChargeEvent(c: Config, m: Meter, e: Event): Result<Meter, Error> {
    var m1 := m.(events := SatAdd(m.events, 1));
    if m1.events > c.maxEvents then Err(Budget(MaxEvents(c.maxEvents, m1.events)))
    else
      match e
      case Scalar(text, _, name, _) =>
        var m2 :- ChargeNode(c, m1, name.Some?);
        ChargeScalarBytes(c, m2, Utf8Len(text))
      case SequenceStart(name) => ChargeNode(c, m1, name.Some?)
      case MappingStart(name) => ChargeNode(c, m1, name.Some?)
      case DocumentStart => StartDocument(c, m1)
      case _ => Ok(m1)
  }

  function ChargeNode(c: Config, m: Meter, anchored: bool): Result<Meter, Error> {
    var m1 := m.(nodes := SatAdd(m.nodes, 1));
    if m1.nodes > c.maxNodes then Err(Budget(MaxNodes(c.maxNodes, m1.nodes)))
    else Ok(if anchored then m1.(anchors := SatAdd(m1.anchors, 1)) else m1)
  }

  function ChargeScalarBytes(c: Config, m: Meter, len: nat): Result<Meter, Error> {
    var m1 := m.(scalarBytes := SatAdd(m.scalarBytes, len));
    if m1.scalarBytes > c.maxTotalScalarBytes then
      Err(Budget(MaxTotalScalarBytes(c.maxTotalScalarBytes, m1.scalarBytes)))
    else Ok(m1)
  }

  function StartDocument(c: Config, m: Meter): Result<Meter, Error> {
    var m1 := m.(aliases := 0, aliasBytes := 0, documents := SatAdd(m.documents, 1));
    if m1.documents > c.maxDocuments then Err(Budget(MaxDocuments(c.maxDocuments, m1.documents)))
    else Ok(m1)
  }

  /** Charge one alias occurrence; runs before the anchor is looked up. */
  function ChargeAlias(c: Config, m: Meter): Result<Meter, Error> {
    var m1 := m.(aliases := SatAdd(m.aliases, 1));
    if m1.aliases > c.maxAliasExpansions then Err(RepetitionLimitExceeded)
    else if c.aliasAnchorRatio.Some? && AliasRatioExceeded(m1.aliases, m1.anchors, c.aliasAnchorRatio.value) then
      Err(Budget(AliasAnchorRatio(c.aliasAnchorRatio.value, m1.anchors, m1.aliases)))
    else Ok(m1)
  }

  /** Charge what one alias expands to, `depth` collections deep, before anything is copied. */
  function ChargeExpansion(c: Config, m: Meter, cost: AliasCost, depth: nat): Result<Meter, Error> {
    var below := SatAdd(depth, cost.height);
    var m1 := m.(aliasBytes := SatAdd(m.aliasBytes, cost.Bytes(c)));
    if DepthExceeded(below, c.maxDepth) then Err(RecursionLimitExceeded(below))
    else if AliasBytesExceeded(m1.aliasBytes, c.maxDocumentLength) then Err(RepetitionLimitExceeded)
    else if c.aliasJumpEventFactor.None? then Ok(m1)
    else
      var m2 := m1.(jumpCharge := SatAdd(m1.jumpCharge, cost.jump));
      if JumpChargeExceeded(m2.jumpCharge, m2.events, c.aliasJumpEventFactor.value) then Err(RepetitionLimitExceeded)
      else Ok(m2)
  }

  function ChargeMergeKey(c: Config, m: Meter): Result<Meter, Error> {
    var m1 := m.(mergeKeys := SatAdd(m.mergeKeys, 1));
    if m1.mergeKeys > c.maxMergeKeys then Err(Budget(MaxMergeKeys(c.maxMergeKeys, m1.mergeKeys)))
    else Ok(m1)
  }
}
