/**
 * The host tree the engine builds on, reduced to what the engine uses:
 * creating an element or a text node, a shallow clone, appending a child,
 * and the writes the attribute setters make (a field, an attribute, a style
 * property, the whole style).
 */
module Host {
  import opened Wrappers

  /** A script value, as far as the engine tells values apart. */
  datatype Value =
    | Str(s: string)
    | Number(n: int)
    | Boolean(b: bool)
    | Null
    | Undefined
      /** An object whose class tag is "[object Object]", by its enumerable properties. */
    | PlainObject(props: map<string, Value>)
      /** Any other object (an array, a function, a host object), by identity. */
    | OtherObject(id: nat)

  /**
   * The inline style of an element: the last value assigned to the style as
   * a whole, and the properties written one by one since then.
   */
  datatype Style = Style(cssText: Option<Value>, props: map<string, Value>)

  const EmptyStyle := Style(None, map[])

  /** What a node holds apart from its children. */
  datatype NodeData =
    | ElementData(tag: string, fields: map<string, Value>, attributes: map<string, Value>, style: Style)
    | TextData(text: string)

  /** A node together with its descendants, as a value. */
  datatype Tree = Tree(data: NodeData, children: seq<Tree>)

  /** A live host node. */
  class Node {
    var data: NodeData
    var children: seq<Node>
    /** The node and all its descendants. */
    ghost var Repr: set<object>
    /** The trees of the children, in order. */
    ghost var Kids: seq<Tree>

    /** The subtree rooted here, as a value. */
    ghost function View(): Tree
      reads this
    {
      Tree(data, Kids)
    }

    /** The subtree is a proper tree: no node occurs twice in it. */
    ghost predicate Valid()
      reads this, Repr
      decreases Repr
    {
      this in Repr &&
      |Kids| == |children| &&
      (forall i :: 0 <= i < |children| ==>
        children[i] in Repr && children[i].Repr <= Repr && this !in children[i].Repr &&
        children[i].Valid() && Kids[i] == children[i].View()) &&
      (forall i, j :: 0 <= i < j < |children| ==> children[i].Repr !! children[j].Repr)
    }

    /** A childless node holding `d`. */
    constructor Create(d: NodeData)
      ensures Valid() && Repr == {this}
      ensures data == d && children == [] && View() == Tree(d, [])
    {
      data := d;
      children := [];
      Repr := {this};
      Kids := [];
    }

    /** `cloneNode()` without `deep`: the same data and no children. */
    method CloneNode() returns (c: Node)
      ensures fresh(c) && c.Valid() && c.Repr == {c}
      ensures c.data == data && c.children == [] && c.View() == Tree(data, [])
    {
      c := new Node.Create(data);
    }

    /** `appendChild(c)` for a child that belongs to no other tree. */
    method AppendChild(c: Node)
      requires Valid() && c.Valid() && Repr !! c.Repr
      modifies this
      ensures Valid()
      ensures data == old(data) && children == old(children) + [c]
      ensures Kids == old(Kids) + [c.View()] && Repr == old(Repr) + c.Repr
    {
      children := children + [c];
      Kids := Kids + [c.View()];
      Repr := Repr + c.Repr;
    }

    /** Assigning a field of an element, as in `element.id = value`. */
    method SetField(name: string, value: Value)
      requires data.ElementData? && Valid()
      modifies this
      ensures Valid() && data == old(data).(fields := old(data).fields[name := value])
      ensures children == old(children) && Kids == old(Kids) && Repr == old(Repr)
    {
      data := data.(fields := data.fields[name := value]);
    }

    /** `setAttribute(name, value)` on an element. */
    method SetAttribute(name: string, value: Value)
      requires data.ElementData? && Valid()
      modifies this
      ensures Valid() && data == old(data).(attributes := old(data).attributes[name := value])
      ensures children == old(children) && Kids == old(Kids) && Repr == old(Repr)
    {
      data := data.(attributes := data.attributes[name := value]);
    }

    /** Writing one property of an element's style object, `element.style[name] = value`. */
    method SetStyleProperty(name: string, value: Value)
      requires data.ElementData? && Valid()
      modifies this
      ensures Valid()
      ensures data == old(data).(style := old(data).style.(props := old(data).style.props[name := value]))
      ensures children == old(children) && Kids == old(Kids) && Repr == old(Repr)
    {
      data := data.(style := data.style.(props := data.style.props[name := value]));
    }

    /** Assigning the style as a whole, `element.style = value`; it replaces every property. */
    method AssignStyle(value: Value)
      requires data.ElementData? && Valid()
      modifies this
      ensures Valid() && data == old(data).(style := Style(Some(value), map[]))
      ensures children == old(children) && Kids == old(Kids) && Repr == old(Repr)
    {
      data := data.(style := Style(Some(value), map[]));
    }
  }
}
