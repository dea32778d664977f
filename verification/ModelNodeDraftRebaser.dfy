/** Moving a locally edited node onto a newer canonical version of the same node. */
module ModelNodeDraftRebaser {
  import opened Wrappers
  import opened ModelContracts

  datatype RebaseError = DifferentNode | DifferentDefinitionKind

  function Rebase(draft: ModelNode, canonical: ModelNode): Result<ModelNode, RebaseError> {
    if draft.nodeId != canonical.nodeId || draft.kind != canonical.kind then Err(DifferentNode)
    else
      match RebaseDefinition(draft.definition, canonical.definition)
      case Err(error) => Err(error)
      case Ok(definition) =>
        Ok(canonical.(
           name := draft.name,
           shortName := draft.shortName,
           description := draft.description,
           tags := draft.tags,
           group := draft.group,
           definition := definition))
  }

  function RebaseDefinition(draft: NodeDefinition, canonical: NodeDefinition): Result<NodeDefinition, RebaseError> {
    match (draft, canonical)
    case (RawInput(_, _, _, _), RawInput(_, _, _, _)) => Ok(draft)
    case (Evidence(_, _, _, _, _, _, _, _, _, _, _), Evidence(_, _, _, _, _, _, _, _, _, _, _)) =>
      Ok(canonical.(
         recipe := draft.recipe,
         observationMapping := draft.observationMapping,
         observationPolicy := draft.observationPolicy,
         modalityWeights := draft.modalityWeights,
         evidenceHelpText := draft.evidenceHelpText))
    case (Bn(_, _, _, _, _, _, _, _, _), Bn(_, _, _, _, _, _, _, _, _)) =>
      Ok(canonical.(
         role := draft.role,
         documentation := draft.documentation,
         bnStatus := draft.bnStatus,
         reportingMetadata := draft.reportingMetadata,
         bnHelpText := draft.bnHelpText))
    case _ => Err(DifferentDefinitionKind)
  }

  // Agreement on everything a node editor changes.
  predicate SameEdits(a: ModelNode, b: ModelNode) {
    && a.name == b.name && a.shortName == b.shortName && a.description == b.description
    && a.tags == b.tags && a.group == b.group
    && match (a.definition, b.definition)
       case (RawInput(_, _, _, _), RawInput(_, _, _, _)) => a.definition == b.definition
       case (Evidence(_, _, _, _, _, _, _, _, _, _, _), Evidence(_, _, _, _, _, _, _, _, _, _, _)) =>
         && a.definition.recipe == b.definition.recipe
         && a.definition.observationMapping == b.definition.observationMapping
         && a.definition.observationPolicy == b.definition.observationPolicy
         && a.definition.modalityWeights == b.definition.modalityWeights
         && a.definition.evidenceHelpText == b.definition.evidenceHelpText
       case (Bn(_, _, _, _, _, _, _, _, _), Bn(_, _, _, _, _, _, _, _, _)) =>
         && a.definition.role == b.definition.role
         && a.definition.documentation == b.definition.documentation
         && a.definition.bnStatus == b.definition.bnStatus
         && a.definition.reportingMetadata == b.definition.reportingMetadata
         && a.definition.bnHelpText == b.definition.bnHelpText
       case _ => false
  }

  // Agreement on everything else: identity, revisions, hashes, probabilistic structure, provenance.
  predicate SameServerState(a: ModelNode, b: ModelNode) {
    && a.nodeId == b.nodeId && a.kind == b.kind && a.lifecycle == b.lifecycle && a.copiedFrom == b.copiedFrom
    && a.globalLayout == b.globalLayout
    && a.semanticRevision == b.semanticRevision && a.layoutRevision == b.layoutRevision
    && a.technicalStatus == b.technicalStatus && a.contentHash == b.contentHash && a.layoutHash == b.layoutHash
    && match (a.definition, b.definition)
       case (RawInput(_, _, _, _), RawInput(_, _, _, _)) => true
       case (Evidence(_, _, _, _, _, _, _, _, _, _, _), Evidence(_, _, _, _, _, _, _, _, _, _, _)) =>
         && a.definition.dataBindings == b.definition.dataBindings
         && a.definition.observationStates == b.definition.observationStates
         && a.definition.evidenceParents == b.definition.evidenceParents
         && a.definition.evidenceCpt == b.definition.evidenceCpt
         && a.definition.evidenceStatus == b.definition.evidenceStatus
         && a.definition.evidenceProvenance == b.definition.evidenceProvenance
       case (Bn(_, _, _, _, _, _, _, _, _), Bn(_, _, _, _, _, _, _, _, _)) =>
         && a.definition.states == b.definition.states
         && a.definition.bnParents == b.definition.bnParents
         && a.definition.bnCpt == b.definition.bnCpt
         && a.definition.bnProvenance == b.definition.bnProvenance
       case _ => false
  }

  // The rebased node is the only one with the draft's edits and the canonical node's server state.
  lemma RebaseIsTheMerge(draft: ModelNode, canonical: ModelNode, r: ModelNode)
    requires draft.nodeId == canonical.nodeId && draft.kind == canonical.kind
    ensures Rebase(draft, canonical) == Ok(r) <==> SameEdits(r, draft) && SameServerState(r, canonical)
  {
  }

  // A draft that has been through any number of canonical versions is rebased as if straight from the first.
  lemma RebaseAbsorbs(draft: ModelNode, first: ModelNode, second: ModelNode)
    requires Rebase(draft, first).Ok?
    ensures Rebase(Rebase(draft, first).value, second) == Rebase(draft, second)
    ensures Rebase(first, first) == Ok(first)
  {
  }
}
