/** What each recipe edit changes, element by element, and what it leaves alone. */
module RecipeEditEffects {
  import opened Wrappers
  import opened JsonValues
  import opened ModelContracts
  import opened Sequences
  import opened RecipeEdits
  import opened EvidenceRecipeEditorModel
  import opened EvidenceRecipeEdgeEditor

  // b has the elements of a that pass, each as often as a has it, and no others.
  ghost predicate Kept<A(!new)>(p: A -> bool, a: seq<A>, b: seq<A>) {
    forall x :: multiset(b)[x] == if p(x) then multiset(a)[x] else 0
  }

  lemma FilterKeeps<A(!new)>(p: A -> bool, xs: seq<A>)
    ensures Kept(p, xs, Filter(p, xs))
  {
    forall x ensures multiset(Filter(p, xs))[x] == if p(x) then multiset(xs)[x] else 0 {
      FilterCounts(p, xs, x);
    }
  }

  // Only the named node changes, only in its parameters, and it takes the given ones; every node stays in its place.
  lemma ParametersAreSet(r: EvidenceRecipe, nodeId: string, parameters: seq<Member>)
    ensures var s := SetParameters(r, nodeId, parameters);
            && s == r.(graph := r.graph.(nodes := s.graph.nodes)) && |s.graph.nodes| == |r.graph.nodes|
            && forall i :: 0 <= i < |r.graph.nodes| ==>
                 var n, m := r.graph.nodes[i], s.graph.nodes[i];
                 && (n.nodeId != nodeId ==> m == n)
                 && (n.nodeId == nodeId ==> m.parameters == parameters && m.(parameters := n.parameters) == n)
  {
  }

  // A removed operator takes its edges, its outputs and a scoring that reads it along, and nothing else.
  lemma OperatorIsRemoved(r: EvidenceRecipe, nodeId: string)
    ensures var s := RemoveNode(r, nodeId);
            && Kept((n: RecipeNode) => n.nodeId != nodeId, r.graph.nodes, s.graph.nodes)
            && Kept((e: RecipeEdge) => e.source.nodeId != nodeId && e.target.nodeId != nodeId, r.graph.edges,
                    s.graph.edges)
            && Kept((o: RecipeOutputBinding) => o.source.nodeId != nodeId, r.outputs, s.outputs)
            && s.scoring == (match r.scoring
                             case Some(RecipeScoring(_, Some(port), _)) =>
                               if port.nodeId == nodeId then None else r.scoring
                             case _ => r.scoring)
            && s == r.(graph := s.graph, outputs := s.outputs, scoring := s.scoring)
  {
    FilterKeeps(Outside({nodeId}), r.graph.nodes);
    FilterKeeps(EdgeOutside({nodeId}), r.graph.edges);
    FilterKeeps(OutputOutside({nodeId}), r.outputs);
  }

  // A removed edge goes alone.
  lemma EdgeIsRemoved(r: EvidenceRecipe, edgeId: string)
    ensures var s := DropEdge(r, edgeId);
            && Kept((e: RecipeEdge) => e.edgeId != edgeId, r.graph.edges, s.graph.edges)
            && s == r.(graph := r.graph.(edges := s.graph.edges))
  {
    FilterKeeps(OtherEdge(edgeId), r.graph.edges);
  }

  // The node reads the input, or shares its ID with one that does.
  ghost predicate Reads(r: EvidenceRecipe, nodeId: string, bindingId: string) {
    exists n <- r.graph.nodes :: n.nodeId == nodeId && n.inputBindingId == Some(bindingId)
  }

  // A removed raw input takes its readers along, their edges and outputs; a scoring that reads them stays, without
  // its input.
  lemma InputIsRemoved(r: EvidenceRecipe, bindingId: string)
    ensures var s := DropInput(r, bindingId);
            && Kept((b: RecipeInputBinding) => b.bindingId != bindingId, r.inputs, s.inputs)
            && Kept((n: RecipeNode) => !Reads(r, n.nodeId, bindingId), r.graph.nodes, s.graph.nodes)
            && Kept((e: RecipeEdge) => !Reads(r, e.source.nodeId, bindingId) && !Reads(r, e.target.nodeId, bindingId),
                    r.graph.edges, s.graph.edges)
            && Kept((o: RecipeOutputBinding) => !Reads(r, o.source.nodeId, bindingId), r.outputs, s.outputs)
            && s.scoring == (match r.scoring
                             case Some(RecipeScoring(mode, Some(port), parameters)) =>
                               if Reads(r, port.nodeId, bindingId) then Some(RecipeScoring(mode, None, parameters))
                               else r.scoring
                             case _ => r.scoring)
            && s == r.(inputs := s.inputs, graph := s.graph, outputs := s.outputs, scoring := s.scoring)
  {
    var ids := Readers(r, bindingId);
    forall id ensures id in ids <==> Reads(r, id, bindingId) {
    }
    FilterKeeps(OtherInput(bindingId), r.inputs);
    FilterKeeps(Outside(ids), r.graph.nodes);
    FilterKeeps(EdgeOutside(ids), r.graph.edges);
    FilterKeeps(OutputOutside(ids), r.outputs);
  }

  // A raw input drawn onto an evidence node is read as a stream, under its source ID and with its declared type, by one
  // new node; the rest of the recipe stays.
  lemma InputIsDrawn(evidence: ModelNode, raw: ModelNode, suffix: string)
    ensures var drawn := AddRawInput(evidence, raw, suffix);
            && (drawn.Ok? <==> evidence.definition.Evidence? && raw.definition.RawInput?)
            && (drawn == Err(NotEvidence) <==> !evidence.definition.Evidence?)
            && (drawn.Ok? ==>
                  var r, s := evidence.definition.recipe, drawn.value.updatedRecipe;
                  && |s.inputs| == |r.inputs| + 1 && s.inputs[..|r.inputs|] == r.inputs
                  && |s.graph.nodes| == |r.graph.nodes| + 1 && s.graph.nodes[..|r.graph.nodes|] == r.graph.nodes
                  && s == r.(inputs := s.inputs, graph := r.graph.(nodes := s.graph.nodes))
                  && var input, reader := s.inputs[|r.inputs|], s.graph.nodes[|r.graph.nodes|];
                     && input.sourceId == raw.definition.source.sourceId && input.name == raw.shortName
                     && input.declaredType == raw.definition.source.declaredType && input.kind.Stream?
                     && input.selector == []
                     && input.bindingId == drawn.value.recipeInputBindingId == "input.user." + suffix
                     && reader.inputBindingId == Some(input.bindingId)
                     && reader.nodeId == "input-node.user." + suffix && reader.parameters == []
                     && reader.operatorId == "input.binding" && reader.operatorVersion == "0.1.0")
  {
  }

  // Operators are told apart by ID and version, if neither holds the unit separator between them.
  lemma KeysTellApart(a: string, version: string, b: string, version': string)
    requires '\U{001F}' !in a && '\U{001F}' !in b && Key(a, version) == Key(b, version')
    ensures a == b && version == version'
  {
    var key := Key(a, version);
    assert key[|a|] == '\U{001F}' && key[|b|] == '\U{001F}';
    assert key[..|a|] == a && key[..|b|] == b;
    assert key[|a| + 1..] == version && key[|b| + 1..] == version';
  }
}
