/** internal/tracesimulator/blueprint/service/model/task.go: the task a span
    definition converts to, and the domain tree built from it. */
module TaskModel {
  import opened Wrappers
  import opened DomainTask
  import opened Collaborators
  import opened DomainTree

  /** `model.Task`. */
  datatype Task = Task(
    name: string,
    externalId: Option<ExternalId>,
    delay: Delay,
    duration: Duration,
    kind: string,
    attributes: map<string, string>,
    children: seq<Task>,
    childOf: Option<ExternalId>,
    linkedTo: seq<ExternalId>,
    events: seq<Event>,
    conditionalDefinitions: seq<ConditionalDefinition>)

  /** `model.Service`: a named service, its resource and its root tasks. */
  datatype Service = Service(name: string, resource: Resource, tasks: seq<Task>)

  /** The result of `service.NewServiceBlueprint(services)`. */
  datatype ServiceBlueprint = ServiceBlueprint(services: seq<Service>)

  /** The zero value of `model.Service`; Go's nil map and nil slice are the
      empty ones here. */
  const ZeroService: Service := Service("", map[], [])

  /** The definition `task.NewDefinition` is given for `t`: only a root keeps
      the parent reference, and the kind goes through `task.FromString`. */
  function DefinitionOf(t: Task, isRoot: bool, resource: Resource): Definition
  {
    Definition(t.name, isRoot, resource, t.attributes, KindFromString(t.kind), t.externalId,
               t.delay, t.duration, if isRoot then t.childOf else None, t.linkedTo, t.events,
               t.conditionalDefinitions)
  }

  /** The tree the conversion of `t` builds: every child converted in order,
      then handed to `AddChild`; the first error aborts. */
  function Build(t: Task, isRoot: bool, resource: Resource, lib: Library): Result<Tree>
    decreases t
  {
    var d := DefinitionOf(t, isRoot, resource);
    match BuildChildren(d, t.children, resource, lib)
    case Err(e) => Err(e)
    case Ok(cs) => Ok(Tree(d, cs))
  }

  /** The children `ts` of a node holding `parent`, converted and added in order. */
  function BuildChildren(parent: Definition, ts: seq<Task>, resource: Resource, lib: Library): Result<seq<Tree>>
    decreases ts
  {
    if ts == [] then Ok([])
    else
      match Build(ts[0], false, resource, lib)
      case Err(e) => Err(e)
      case Ok(c) =>
        match lib.addChild(parent, c.definition)
        case Fail(e) => Err(e)
        case Pass => Prepend([c], BuildChildren(parent, ts[1..], resource, lib))
  }

  /** `tree` is the image of `t`: each node's definition is the one built
      from the matching task, and the shapes agree. */
  ghost predicate Conforms(tree: Tree, t: Task, isRoot: bool, resource: Resource)
    decreases t
  {
    && tree.definition == DefinitionOf(t, isRoot, resource)
    && |tree.children| == |t.children|
    && forall i :: 0 <= i < |t.children| ==> Conforms(tree.children[i], t.children[i], false, resource)
  }

  /** Every node of `tree` is a non-root node with no parent reference,
      carrying `resource`. */
  ghost predicate Detached(tree: Tree, resource: Resource)
  {
    && !tree.definition.isRoot
    && tree.definition.childOf.None?
    && tree.definition.resource == resource
    && forall i :: 0 <= i < |tree.children| ==> Detached(tree.children[i], resource)
  }

  /** A built tree is the image of its task. */
  lemma {:induction false} BuildConforms(t: Task, isRoot: bool, resource: Resource, lib: Library)
    requires Build(t, isRoot, resource, lib).Ok?
    ensures Conforms(Build(t, isRoot, resource, lib).value, t, isRoot, resource)
    decreases t, 1
  {
    var d := DefinitionOf(t, isRoot, resource);
    BuildChildrenConform(d, t.children, resource, lib);
  }

  lemma {:induction false} BuildChildrenConform(parent: Definition, ts: seq<Task>, resource: Resource, lib: Library)
    requires BuildChildren(parent, ts, resource, lib).Ok?
    ensures var cs := BuildChildren(parent, ts, resource, lib).value;
            |cs| == |ts| && forall i :: 0 <= i < |ts| ==> Conforms(cs[i], ts[i], false, resource)
    decreases ts, 0
  {
    if ts != [] {
      BuildConforms(ts[0], false, resource, lib);
      BuildChildrenConform(parent, ts[1..], resource, lib);
      var cs := BuildChildren(parent, ts, resource, lib).value;
      var rest := BuildChildren(parent, ts[1..], resource, lib).value;
      assert cs == [Build(ts[0], false, resource, lib).value] + rest;
      forall i | 1 <= i < |ts|
        ensures Conforms(cs[i], ts[i], false, resource)
      {
        assert cs[i] == rest[i - 1] && ts[i] == ts[1..][i - 1];
      }
    }
  }

  /** Below the root, every node is a non-root node with no parent reference
      and the service resource. */
  lemma {:induction false} ConformsDetached(tree: Tree, t: Task, resource: Resource)
    requires Conforms(tree, t, false, resource)
    ensures Detached(tree, resource)
    decreases t
  {
    forall i | 0 <= i < |tree.children|
      ensures Detached(tree.children[i], resource)
    {
      ConformsDetached(tree.children[i], t.children[i], resource);
    }
  }

  /** What a successful root conversion promises: the root is flagged root,
      keeps the task's parent reference and carries the resource; every
      descendant is flagged non-root, has no parent reference and carries
      the same resource; the tree has the task's shape and fields. */
  lemma RootTreeShape(t: Task, resource: Resource, lib: Library)
    requires Build(t, true, resource, lib).Ok?
    ensures var tree := Build(t, true, resource, lib).value;
            && tree.definition.isRoot
            && tree.definition.childOf == t.childOf
            && tree.definition.resource == resource
            && Conforms(tree, t, true, resource)
            && forall i :: 0 <= i < |tree.children| ==> Detached(tree.children[i], resource)
  {
    BuildConforms(t, true, resource, lib);
    var tree := Build(t, true, resource, lib).value;
    forall i | 0 <= i < |tree.children|
      ensures Detached(tree.children[i], resource)
    {
      ConformsDetached(tree.children[i], t.children[i], resource);
    }
  }

  /** When the library's `AddChild` check accepts every pair, every task
      converts. */
  lemma {:induction false} BuildTotal(t: Task, isRoot: bool, resource: Resource, lib: Library)
    requires forall p, c :: lib.addChild(p, c).Pass?
    ensures Build(t, isRoot, resource, lib).Ok?
    decreases t, 1
  {
    BuildChildrenTotal(DefinitionOf(t, isRoot, resource), t.children, resource, lib);
  }

  lemma {:induction false} BuildChildrenTotal(parent: Definition, ts: seq<Task>, resource: Resource, lib: Library)
    requires forall p, c :: lib.addChild(p, c).Pass?
    ensures BuildChildren(parent, ts, resource, lib).Ok?
    decreases ts, 0
  {
    if ts != [] {
      BuildTotal(ts[0], false, resource, lib);
      BuildChildrenTotal(parent, ts[1..], resource, lib);
    }
  }

  /** `Task.ToRootNodeWithResource`: a root node and its descendants. */
  method ToRootNodeWithResource(t: Task, resource: Resource, lib: Library) returns (r: Result<TreeNode>)
    ensures r.Ok? ==> r.value.Valid() && fresh(r.value.Repr)
    ensures r.Ok? <==> Build(t, true, resource, lib).Ok?
    ensures r.Ok? ==> r.value.Model == Build(t, true, resource, lib).value
    ensures r.Err? ==> Build(t, true, resource, lib) == Err(r.error)
  {
    var node := new TreeNode(DefinitionOf(t, true, resource));
    var err := AddChildren(node, t.children, resource, lib);
    if err.Fail? {
      return Err(err.error);
    }
    return Ok(node);
  }

  /** `Task.toChildNodeWithResource`: the same with the node flagged
      non-root and its parent reference dropped. */
  method ToChildNodeWithResource(t: Task, resource: Resource, lib: Library) returns (r: Result<TreeNode>)
    ensures r.Ok? ==> r.value.Valid() && fresh(r.value.Repr)
    ensures r.Ok? <==> Build(t, false, resource, lib).Ok?
    ensures r.Ok? ==> r.value.Model == Build(t, false, resource, lib).value
    ensures r.Err? ==> Build(t, false, resource, lib) == Err(r.error)
    decreases t, 1
  {
    var node := new TreeNode(DefinitionOf(t, false, resource));
    var err := AddChildren(node, t.children, resource, lib);
    if err.Fail? {
      return Err(err.error);
    }
    return Ok(node);
  }

  /** The loop both conversions run: convert each child task, then add it. */
  method AddChildren(node: TreeNode, ts: seq<Task>, resource: Resource, lib: Library) returns (err: Outcome)
    requires node.Valid() && node.children == []
    modifies node
    ensures node.Valid() && fresh(node.Repr - old(node.Repr)) && node.definition == old(node.definition)
    ensures match BuildChildren(node.definition, ts, resource, lib)
            case Ok(cs) => err.Pass? && node.Model == Tree(node.definition, cs)
            case Err(e) => err == Fail(e)
    decreases ts, 0
  {
    assert ts[0..] == ts;
    PrependNil(BuildChildren(node.definition, ts, resource, lib));
    for i := 0 to |ts|
      invariant node.Valid() && fresh(node.Repr - old(node.Repr)) && node.definition == old(node.definition)
      invariant BuildChildren(node.definition, ts, resource, lib)
                  == Prepend(node.Model.children, BuildChildren(node.definition, ts[i..], resource, lib))
    {
      assert ts[i..][0] == ts[i] && ts[i..][1..] == ts[i + 1..];
      var c := ToChildNodeWithResource(ts[i], resource, lib);
      if c.Err? {
        return Fail(c.error);
      }
      ghost var acc := node.Model.children;
      var e := node.AddChild(c.value, lib);
      if e.Fail? {
        return e;
      }
      PrependOne(acc, c.value.Model, BuildChildren(node.definition, ts[i + 1..], resource, lib));
    }
    assert ts[|ts|..] == [];
    PrependAll(node.Model.children);
    return Pass;
  }
}
