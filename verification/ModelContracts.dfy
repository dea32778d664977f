/** The model records the desktop client edits and draws.  Structured payloads it never looks into are JSON. */
module ModelContracts {
  import opened Wrappers
  import opened JsonValues

  datatype NodeKind = RawInputKind | EvidenceKind | BnKind

  datatype Lifecycle = Active | Archived

  datatype TechnicalStatus = Executable | Incomplete | Blocked

  datatype RawInputFamily = X | U | I | G | P | PilotCamera

  datatype RawModality = ModalityX | ModalityU | ModalityI | ModalityG | Eeg | Ecg | ModalityPilotCamera

  datatype BnNodeRole = AggregateCompetency | SubSkill | Latent | Derived | Custom

  datatype NodeLayout = NodeLayout(nodeId: string, x: real, y: real)

  datatype SourceDescriptor = SourceDescriptor(
    sourceId: string,
    declaredType: Json,
    rawModality: Option<RawModality>,
    dependencies: seq<string>)

  // ----- Evidence recipes -----

  datatype InputBindingKind = Stream | Semantic | Reference

  datatype RecipeInputBinding = RecipeInputBinding(
    bindingId: string,
    kind: InputBindingKind,
    sourceId: string,
    name: string,
    declaredType: Json,
    selector: seq<Member>)

  datatype NodePortReference = NodePortReference(nodeId: string, portId: string)

  datatype RecipeNode = RecipeNode(
    nodeId: string,
    operatorId: string,
    operatorVersion: string,
    inputBindingId: Option<string>,
    parameters: seq<Member>)

  datatype RecipeEdge = RecipeEdge(
    edgeId: string,
    source: NodePortReference,
    target: NodePortReference,
    targetSlotId: Option<string>)

  datatype RecipeGraph = RecipeGraph(nodes: seq<RecipeNode>, edges: seq<RecipeEdge>)

  datatype RecipeOutputBinding = RecipeOutputBinding(outputId: string, name: string, source: NodePortReference)

  datatype RecipeScoring = RecipeScoring(mode: string, input: Option<NodePortReference>, parameters: Json)

  datatype EvidenceRecipe = EvidenceRecipe(
    recipeId: string,
    inputs: seq<RecipeInputBinding>,
    graph: RecipeGraph,
    outputs: seq<RecipeOutputBinding>,
    scoring: Option<RecipeScoring>,
    documentation: Json)

  // ----- Nodes -----

  datatype NodeDefinition =
    | RawInput(family: Option<RawInputFamily>, source: SourceDescriptor, rawMetadata: Json, rawHelpText: string)
    | Evidence(recipe: EvidenceRecipe, dataBindings: Json, observationStates: Json, observationMapping: Json,
               evidenceParents: Json, evidenceCpt: Json, observationPolicy: Json, modalityWeights: Json,
               evidenceStatus: Json, evidenceProvenance: Json, evidenceHelpText: string)
    | Bn(role: BnNodeRole, states: Json, bnParents: Json, bnCpt: Json, documentation: string,
         bnStatus: Json, reportingMetadata: Json, bnProvenance: Json, bnHelpText: string)

  datatype ModelNode = ModelNode(
    nodeId: string,
    kind: NodeKind,
    name: string,
    shortName: string,
    description: string,
    tags: seq<string>,
    group: Option<string>,
    lifecycle: Lifecycle,
    copiedFrom: Option<string>,
    definition: NodeDefinition,
    globalLayout: NodeLayout,
    semanticRevision: int,
    layoutRevision: int,
    technicalStatus: TechnicalStatus,
    contentHash: string,
    layoutHash: string)

  datatype ModelGraphEdge = ModelGraphEdge(edgeId: string, probabilistic: bool, parentId: string, childId: string)

  datatype TaskScheme = TaskScheme(
    activeClosure: seq<string>,
    outputNodeIds: seq<string>,
    layoutOverrides: seq<NodeLayout>)

  datatype ModelGraphSnapshot = ModelGraphSnapshot(
    scheme: TaskScheme,
    nodes: seq<ModelNode>,
    edges: seq<ModelGraphEdge>)
}
