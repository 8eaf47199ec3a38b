/**
 * `getDomConstructors(domNameList)`: one element constructor per node name,
 * each the builder with its tag bound to that name.
 */
module Constructors {
  import opened Wrappers
  import opened Templates
  import opened Builder

  /** The argument: an array of names, or any value that is not an array. */
  datatype DomNameList = NameArray(names: seq<string>) | NotAnArray

  /** The `Error` thrown, by its message. */
  datatype ConstructorError = Error(message: string)

  const NotAnArrayMessage := "DOM name list must be an array."
  const InvalidNameMessage := "Invalid DOM name."

  /** `element.bind(name)`: the builder with its tag fixed to `name`. */
  datatype Constructor = Constructor(tag: string)

  /**
   * Fills a prototype-free object name by name; a non-array argument or an
   * empty name throws, and the partly filled object is dropped.
   */
  method GetDomConstructors(list: DomNameList) returns (r: Result<map<string, Constructor>, ConstructorError>)
    ensures list.NotAnArray? ==> r == Failure(Error(NotAnArrayMessage))
    ensures list.NameArray? && "" in list.names ==> r == Failure(Error(InvalidNameMessage))
    ensures r.Success? <==> list.NameArray? && "" !in list.names
    ensures r.Success? ==> r.value.Keys == set n | n in list.names
    ensures r.Success? ==> forall n :: n in r.value ==> r.value[n] == Constructor(n)
  {
    if !list.NameArray? {
      return Failure(Error(NotAnArrayMessage));
    }
    var names := list.names;
    var table: map<string, Constructor> := map[];
    var i := 0;
    while i < |names|
      invariant 0 <= i <= |names|
      invariant "" !in names[..i]
      invariant table.Keys == set n | n in names[..i]
      invariant forall n :: n in table ==> table[n] == Constructor(n)
    {
      var name := names[i];
      if |name| < 1 {
        return Failure(Error(InvalidNameMessage));
      }
      table := table[name := Constructor(name)];
      assert names[..i + 1] == names[..i] + [name];
      i := i + 1;
    }
    assert names[..i] == names;
    return Success(table);
  }

  /** Calling a constructor is calling the builder with the bound name as its tag. */
  method Call(c: Constructor, attributes: Arg, children: Arg) returns (t: HTMLElementTemplate)
    requires attributes.ArgArray? ==> forall i :: 0 <= i < |attributes.items| ==>
      attributes.items[i].TemplateItem? ==> attributes.items[i].e.Valid()
    requires attributes.ArgObject? && children.ArgArray? ==> forall i :: 0 <= i < |children.items| ==>
      children.items[i].TemplateItem? ==> children.items[i].e.Valid()
    ensures fresh(t) && fresh(t.element) && t.Valid()
    ensures t.element.data == AppliedAll(NewElement(c.tag), if attributes.ArgObject? then attributes.props else map[])
    ensures attributes.ArgObject? && children.ArgString? ==> Follows(t.childNodes, t.Kids, [TextItem(children.s)])
    ensures attributes.ArgObject? && children.ArgArray? ==> Follows(t.childNodes, t.Kids, children.items)
    ensures attributes.ArgObject? && !children.ArgString? && !children.ArgArray? ==> t.childNodes == []
    ensures attributes.ArgArray? ==> Follows(t.childNodes, t.Kids, attributes.items)
    ensures attributes.ArgString? ==> Follows(t.childNodes, t.Kids, [TextItem(attributes.s)])
    ensures attributes.ArgOther? ==> t.childNodes == []
    ensures forall i :: 0 <= i < |t.childNodes| && t.childNodes[i].TextChild? ==> fresh(t.childNodes[i].t)
  {
    t := Element(c.tag, attributes, children);
  }
}
