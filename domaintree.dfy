/** The tree node of the domain task package (`task.NewTreeNode`,
    `TreeNode.AddChild`). Its source is not part of this model: a node holds a
    definition and its children, and `AddChild` either refuses the child with
    the error the library's check gives or appends it. */
module DomainTree {
  import opened Wrappers
  import opened DomainTask
  import opened Collaborators

  /** The value a node and everything below it stand for. */
  datatype Tree = Tree(definition: Definition, children: seq<Tree>)

  class TreeNode {
    var definition: Definition
    var children: seq<TreeNode>
    ghost var Model: Tree
    ghost var Repr: set<object>

    /** The node owns its children's footprints, which are disjoint from it,
        and its model is the tree its fields describe. */
    ghost predicate Valid()
      reads this, Repr
      decreases Repr
    {
      && this in Repr
      && Model.definition == definition
      && |Model.children| == |children|
      && forall i :: 0 <= i < |children| ==>
           && children[i] in Repr
           && children[i].Repr <= Repr
           && this !in children[i].Repr
           && children[i].Valid()
           && children[i].Model == Model.children[i]
    }

    /** `task.NewTreeNode`: a leaf holding `d`. */
    constructor (d: Definition)
      ensures Valid() && fresh(Repr)
      ensures definition == d && Model == Tree(d, [])
    {
      definition := d;
      children := [];
      Model := Tree(d, []);
      Repr := {this};
    }

    /** `TreeNode.AddChild`: the library's check on the two definitions
        decides; on success the child is appended. */
    method AddChild(c: TreeNode, lib: Library) returns (err: Outcome)
      requires Valid() && c.Valid() && this !in c.Repr
      modifies this
      ensures Valid() && definition == old(definition)
      ensures err == lib.addChild(definition, c.definition)
      ensures Repr == old(Repr) + (if err.Pass? then c.Repr else {})
      ensures Model == if err.Pass? then Tree(definition, old(Model.children) + [c.Model]) else old(Model)
    {
      err := lib.addChild(definition, c.definition);
      if err.Fail? {
        return;
      }
      children := children + [c];
      Repr := Repr + c.Repr;
      Model := Tree(definition, Model.children + [c.Model]);
    }
  }
}
