/**
 * Templates: a prototype node and, for an element, an ordered list of child
 * templates. `CreateInstance` stamps out a live tree from a template; it has
 * no modifies clause, so it cannot change the template it reads.
 */
module Templates {
  import opened Host

  /** `HTMLTextNodeTemplate`: holds a prototype text node. */
  class HTMLTextNodeTemplate {
    const node: Node

    /** `new HTMLTextNodeTemplate(text)`: the prototype is `createTextNode(text)`. */
    constructor (text: string)
      ensures fresh(node) && node.Valid() && node.data == TextData(text) && node.children == []
      ensures Shape() == Tree(TextData(text), [])
    {
      node := new Node.Create(TextData(text));
    }

    /** The tree every instance of this template has. */
    ghost function Shape(): Tree
      reads this, node
    {
      Tree(node.data, [])
    }

    /** `createInstance()`: a childless clone of the prototype text node. */
    method CreateInstance() returns (n: Node)
      ensures fresh(n) && n.Valid() && n.Repr == {n}
      ensures n.data == node.data && n.children == [] && n.View() == Shape()
    {
      n := node.CloneNode();
    }
  }

  /** An entry of an element template's `childNodes`. */
  datatype Child = ElementChild(e: HTMLElementTemplate) | TextChild(t: HTMLTextNodeTemplate)
  {
    /** The objects the entry consists of. */
    ghost function Repr(): set<object>
      reads if ElementChild? then {e} else {}
    {
      match this
      case ElementChild(e) => e.Repr
      case TextChild(t) => {t, t.node}
    }

    ghost predicate Valid()
      reads if ElementChild? then {e} + e.Repr else {}
    {
      match this
      case ElementChild(e) => e.Valid()
      case TextChild(_) => true
    }

    /** The tree every instance of the entry has. */
    ghost function Shape(): Tree
      reads if ElementChild? then {e, e.element} else {t, t.node}
    {
      match this
      case ElementChild(e) => e.Shape()
      case TextChild(t) => t.Shape()
    }
  }

  /** `HTMLElementTemplate`: a prototype element and its ordered child templates. */
  class HTMLElementTemplate {
    const element: Node
    var childNodes: seq<Child>
    /** This template, its prototype and everything its child templates consist of. */
    ghost var Repr: set<object>
    /** The shapes of the child templates, in order. */
    ghost var Kids: seq<Tree>

    /** The tree every instance of this template has. */
    ghost function Shape(): Tree
      reads this, element
    {
      Tree(element.data, Kids)
    }

    /** The child templates form a finite acyclic graph; `Kids` are their shapes. */
    ghost predicate Valid()
      reads this, Repr
      ensures Valid() ==> this in Repr && element in Repr
      decreases Repr
    {
      this in Repr && element in Repr &&
      |Kids| == |childNodes| &&
      forall i :: 0 <= i < |childNodes| ==>
        match childNodes[i]
        case ElementChild(e) =>
          e in Repr && e.Repr <= Repr && this !in e.Repr && e.Valid() &&
          e.element in Repr && Kids[i] == e.Shape()
        case TextChild(t) =>
          t in Repr && t.node in Repr && Kids[i] == t.Shape()
    }

    /** `new HTMLElementTemplate(element)`: no child templates yet. */
    constructor (element: Node)
      ensures Valid() && Repr == {this, element}
      ensures this.element == element && childNodes == [] && Kids == []
    {
      this.element := element;
      childNodes := [];
      Repr := {this, element};
      Kids := [];
    }

    /** `childNodes.push(c)`. */
    method Push(c: Child)
      requires Valid() && c.Valid() && this !in c.Repr()
      modifies this
      ensures Valid()
      ensures childNodes == old(childNodes) + [c] && Kids == old(Kids) + [c.Shape()]
      ensures Repr == old(Repr) + c.Repr() + (if c.ElementChild? then {c.e, c.e.element} else {})
    {
      childNodes := childNodes + [c];
      Kids := Kids + [c.Shape()];
      Repr := Repr + c.Repr() + (if c.ElementChild? then {c.e, c.e.element} else {});
    }

    /**
     * `createInstance(properties)`: a fresh shallow clone of the prototype
     * element with one fresh instance per child template appended in order.
     */
    method CreateInstance() returns (n: Node)
      requires Valid()
      ensures n.Valid() && fresh(n.Repr)
      ensures n.View() == Shape()
      ensures n.data == element.data && |n.children| == |childNodes|
      ensures forall i :: 0 <= i < |childNodes| ==> n.children[i].View() == childNodes[i].Shape()
      ensures childNodes == old(childNodes) && Shape() == old(Shape())
      decreases Repr
    {
      n := element.CloneNode();
      var i := 0;
      while i < |childNodes|
        invariant 0 <= i <= |childNodes|
        invariant n.Valid() && fresh(n.Repr)
        invariant n.data == element.data && |n.children| == i && n.Kids == Kids[..i]
        decreases |childNodes| - i
      {
        var c: Node;
        match childNodes[i] {
          case ElementChild(e) =>
            c := e.CreateInstance();
          case TextChild(t) =>
            c := t.CreateInstance();
        }
        n.AppendChild(c);
        i := i + 1;
      }
    }
  }

  /**
   * Instancing one template twice gives two trees of the same shape that
   * share no node.
   */
  method InstantiateTwice(t: HTMLElementTemplate) returns (a: Node, b: Node)
    requires t.Valid()
    ensures a.Valid() && b.Valid()
    ensures a.View() == b.View() == t.Shape()
    ensures a.Repr !! b.Repr
  {
    a := t.CreateInstance();
    b := t.CreateInstance();
  }
}
