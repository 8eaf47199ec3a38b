/**
 * The builder `element(attributes, children)`: it creates a prototype
 * element, applies an attribute object to it through `attributeManager`,
 * and fills the template's `childNodes` from a string or an array of
 * children.
 */
module Builder {
  import opened Wrappers
  import opened Host
  import opened Templates

  /** The keys `attributeManager` assigns as a same-named field. */
  const FieldNames: set<string> := {"id", "className", "value", "type"}

  /** Every key `attributeManager` has a setter for. */
  const ManagedNames: set<string> := FieldNames + {"style"}

  /** A setter of `attributeManager`. */
  datatype Manager = FieldManager(field: string) | StyleManager

  /** `attributeManager[name]`, looked up among the manager's own keys. */
  function ManagerFor(name: string): (m: Option<Manager>)
    ensures m.None? <==> name !in ManagedNames
    ensures m == Some(StyleManager) <==> name == "style"
    ensures m.Some? && m.value.FieldManager? ==> m.value.field == name && name in FieldNames
  {
    if name == "style" then Some(StyleManager)
    else if name in FieldNames then Some(FieldManager(name))
    else None
  }

  /** The members every object literal inherits from `Object.prototype`. */
  const ObjectPrototypeMembers: set<string> := {
    "constructor", "hasOwnProperty", "isPrototypeOf", "propertyIsEnumerable",
    "toLocaleString", "toString", "valueOf", "__proto__",
    "__defineGetter__", "__defineSetter__", "__lookupGetter__", "__lookupSetter__"
  }

  /** What the property lookup `attributeManager[name]` finds. */
  datatype Lookup = OwnSetter(m: Manager) | InheritedMember(name: string) | NotFound

  /**
   * `attributeManager[name]` as written: a plain property lookup, which also
   * finds the members `attributeManager` inherits from `Object.prototype`.
   * Every one of them is truthy, so `if (manager)` takes the setter branch
   * and `setAttribute` is not called for such a key.
   */
  function ManagerLookupAsWritten(name: string): (r: Lookup)
    ensures r.NotFound? <==> name !in ManagedNames && name !in ObjectPrototypeMembers
    ensures r.OwnSetter? ==> Some(r.m) == ManagerFor(name)
    ensures r.InheritedMember? ==> r.name == name && name in ObjectPrototypeMembers
  {
    match ManagerFor(name)
    case Some(m) => OwnSetter(m)
    case None => if name in ObjectPrototypeMembers then InheritedMember(name) else NotFound
  }

  /**
   * The key `toString` shows the difference: the lookup as written finds the
   * inherited `Object.prototype.toString`, so the key never reaches
   * `setAttribute`; with the lookup restricted to own keys it sets the
   * attribute `toString`.
   */
  lemma InheritedKeyMissesSetAttribute(d: NodeData, v: Value)
    requires d.ElementData?
    ensures ManagerLookupAsWritten("toString") == InheritedMember("toString")
    ensures ManagerFor("toString") == None
    ensures Applied(d, "toString", v).attributes == d.attributes["toString" := v]
  {
  }

  /**
   * The inherited members that return without effect when called as
   * `manager.call(null, element, value)`: `toString` gives "[object Null]"
   * and `Object(element)` gives the element back.
   */
  const HarmlessMembers: set<string> := {"toString", "constructor"}

  /** A script exception that ends the call of `element`. */
  datatype Exception = TypeError

  /**
   * One key applied as written. An own setter or `setAttribute` acts as in
   * `Applied`. An inherited member is called with `this` null: a no-op for
   * `toString` and `constructor`, a TypeError for every other one (each of
   * them starts with `ToObject(this)`, and `__proto__` finds
   * `Object.prototype`, which has no `call`).
   */
  function AppliedAsWritten(d: NodeData, name: string, value: Value): (r: Result<NodeData, Exception>)
    requires d.ElementData?
    ensures r.Failure? <==> name in ObjectPrototypeMembers - HarmlessMembers
    ensures name !in ObjectPrototypeMembers ==> r == Success(Applied(d, name, value))
    ensures name in HarmlessMembers ==> r == Success(d)
  {
    match ManagerLookupAsWritten(name)
    case OwnSetter(FieldManager(f)) => Success(d.(fields := d.fields[f := value]))
    case OwnSetter(StyleManager) => Success(d.(style := StyleAfter(d.style, value)))
    case InheritedMember(m) => if m in HarmlessMembers then Success(d) else Failure(TypeError)
    case NotFound => Success(d.(attributes := d.attributes[name := value]))
  }

  /**
   * On a key not yet set as an attribute, the step as written agrees with the
   * corrected step exactly when `Object.prototype` has no member of that name.
   */
  lemma AsWrittenAgrees(d: NodeData, name: string, value: Value)
    requires d.ElementData? && name !in d.attributes
    ensures AppliedAsWritten(d, name, value) == Success(Applied(d, name, value)) <==> name !in ObjectPrototypeMembers
  {
  }

  /** The attribute loop as written: the keys one at a time, stopping at the first exception. */
  function AppliedInOrderAsWritten(d: NodeData, attrs: map<string, Value>, keys: seq<string>): (r: Result<NodeData, Exception>)
    requires d.ElementData?
    requires forall i :: 0 <= i < |keys| ==> keys[i] in attrs
    ensures r.Success? ==> r.value.ElementData? && r.value.tag == d.tag
  {
    if keys == [] then Success(d)
    else
      var last := keys[|keys| - 1];
      match AppliedInOrderAsWritten(d, attrs, keys[..|keys| - 1])
      case Failure(x) => Failure(x)
      case Success(before) => AppliedAsWritten(before, last, attrs[last])
  }

  /**
   * The loop as written throws exactly when some key is an inherited member
   * other than `toString` and `constructor`, and it agrees with the corrected
   * loop when no key is an inherited member at all.
   */
  lemma {:induction false} AsWrittenInOrder(d: NodeData, attrs: map<string, Value>, keys: seq<string>)
    requires d.ElementData?
    requires forall i :: 0 <= i < |keys| ==> keys[i] in attrs
    ensures AppliedInOrderAsWritten(d, attrs, keys).Failure? <==>
      exists i :: 0 <= i < |keys| && keys[i] in ObjectPrototypeMembers - HarmlessMembers
    ensures (forall i :: 0 <= i < |keys| ==> keys[i] !in ObjectPrototypeMembers) ==>
      AppliedInOrderAsWritten(d, attrs, keys) == Success(AppliedInOrder(d, attrs, keys))
  {
    if keys != [] {
      var front, last := keys[..|keys| - 1], keys[|keys| - 1];
      AsWrittenInOrder(d, attrs, front);
      assert forall i :: 0 <= i < |front| ==> front[i] == keys[i];
      if exists i :: 0 <= i < |front| && front[i] in ObjectPrototypeMembers - HarmlessMembers {
        var i :| 0 <= i < |front| && front[i] in ObjectPrototypeMembers - HarmlessMembers;
        assert keys[i] == front[i];
      }
    }
  }

  /**
   * For an object none of whose keys `Object.prototype` has, every
   * enumeration of the loop as written gives the corrected key-by-key result.
   */
  lemma AsWrittenMatchesCorrected(d: NodeData, attrs: map<string, Value>, keys: seq<string>)
    requires d.ElementData?
    requires forall i :: 0 <= i < |keys| ==> keys[i] in attrs
    requires forall i, j :: 0 <= i < j < |keys| ==> keys[i] != keys[j]
    requires forall k :: k in attrs ==> k in keys
    requires attrs.Keys !! ObjectPrototypeMembers
    ensures AppliedInOrderAsWritten(d, attrs, keys) == Success(AppliedAll(d, attrs))
  {
    AsWrittenInOrder(d, attrs, keys);
    EveryEnumeration(d, attrs, keys);
  }

  /** The style after the `style` setter is given `value`. */
  function StyleAfter(s: Style, value: Value): Style
  {
    if value.PlainObject? then s.(props := s.props + value.props)
    else Style(Some(value), map[])
  }

  /** The element data after one attribute key is applied. */
  function Applied(d: NodeData, name: string, value: Value): NodeData
    requires d.ElementData?
  {
    match ManagerFor(name)
    case Some(FieldManager(f)) => d.(fields := d.fields[f := value])
    case Some(StyleManager) => d.(style := StyleAfter(d.style, value))
    case None => d.(attributes := d.attributes[name := value])
  }

  /** The part of `m` whose keys are in `keys`. */
  function Restrict(m: map<string, Value>, keys: set<string>): (r: map<string, Value>)
    ensures r.Keys == m.Keys * keys
    ensures forall k :: k in r ==> r[k] == m[k]
  {
    map k | k in m && k in keys :: m[k]
  }

  /** The keys of `attrs` that no setter of `attributeManager` handles. */
  function Unmanaged(attrs: map<string, Value>): (r: map<string, Value>)
    ensures r.Keys == attrs.Keys - ManagedNames
    ensures forall k :: k in r ==> r[k] == attrs[k]
  {
    map k | k in attrs && k !in ManagedNames :: attrs[k]
  }

  /**
   * The element data after a whole attribute object is applied, stated key
   * by key: each field key sets its field, `style` sets the style, and every
   * other key sets the attribute of that name.
   */
  function AppliedAll(d: NodeData, attrs: map<string, Value>): NodeData
    requires d.ElementData?
  {
    d.(fields := d.fields + Restrict(attrs, FieldNames),
       attributes := d.attributes + Unmanaged(attrs),
       style := if "style" in attrs then StyleAfter(d.style, attrs["style"]) else d.style)
  }

  /** The element data after the keys are applied one at a time, in the order given. */
  function AppliedInOrder(d: NodeData, attrs: map<string, Value>, keys: seq<string>): (r: NodeData)
    requires d.ElementData?
    requires forall i :: 0 <= i < |keys| ==> keys[i] in attrs
    ensures r.ElementData? && r.tag == d.tag
  {
    if keys == [] then d
    else
      var last := keys[|keys| - 1];
      Applied(AppliedInOrder(d, attrs, keys[..|keys| - 1]), last, attrs[last])
  }

  /** Adding one key to an object changes its field part at most at that key. */
  lemma FieldsStep(base: map<string, Value>, m: map<string, Value>, k: string, v: Value)
    ensures base + Restrict(m[k := v], FieldNames)
         == if k in FieldNames then (base + Restrict(m, FieldNames))[k := v] else base + Restrict(m, FieldNames)
  {
  }

  /** Adding one key to an object changes its attribute part at most at that key. */
  lemma UnmanagedStep(base: map<string, Value>, m: map<string, Value>, k: string, v: Value)
    ensures base + Unmanaged(m[k := v])
         == if k in ManagedNames then base + Unmanaged(m) else (base + Unmanaged(m))[k := v]
  {
  }

  /** Restricting to a superset of the keys changes nothing. */
  lemma RestrictAll(m: map<string, Value>, keys: set<string>)
    requires m.Keys <= keys
    ensures Restrict(m, keys) == m
  {
  }

  /** Applying no key leaves the element data as it was. */
  lemma AppliedNothing(d: NodeData, attrs: map<string, Value>)
    requires d.ElementData?
    ensures AppliedAll(d, Restrict(attrs, {})) == d
  {
  }

  /** Applying one more key to a partly applied object is applying the larger part. */
  lemma AppliedAllStep(d: NodeData, attrs: map<string, Value>, done: set<string>, k: string)
    requires d.ElementData? && k in attrs && k !in done
    ensures AppliedAll(d, Restrict(attrs, done + {k}))
         == Applied(AppliedAll(d, Restrict(attrs, done)), k, attrs[k])
  {
    var before := Restrict(attrs, done);
    assert Restrict(attrs, done + {k}) == before[k := attrs[k]];
    FieldsStep(d.fields, before, k, attrs[k]);
    UnmanagedStep(d.attributes, before, k, attrs[k]);
    assert k !in before;
  }

  /**
   * The order in which `for (const name in attributes)` enumerates the keys
   * does not matter: applying distinct keys one at a time, in any order,
   * gives the key-by-key result for exactly those keys.
   */
  lemma {:induction false} AnyEnumerationOrder(d: NodeData, attrs: map<string, Value>, keys: seq<string>)
    requires d.ElementData?
    requires forall i :: 0 <= i < |keys| ==> keys[i] in attrs
    requires forall i, j :: 0 <= i < j < |keys| ==> keys[i] != keys[j]
    ensures AppliedInOrder(d, attrs, keys) == AppliedAll(d, Restrict(attrs, set k | k in keys))
  {
    if keys == [] {
      assert (set k | k in keys) == {};
      AppliedNothing(d, attrs);
    } else {
      var front, last := keys[..|keys| - 1], keys[|keys| - 1];
      assert keys == front + [last];
      var seen := set k | k in front;
      assert last !in seen by {
        forall j | 0 <= j < |front| ensures front[j] != last {
          assert front[j] == keys[j];
        }
      }
      assert (set k | k in keys) == seen + {last};
      AnyEnumerationOrder(d, attrs, front);
      assert AppliedInOrder(d, attrs, keys) == Applied(AppliedInOrder(d, attrs, front), last, attrs[last]);
      AppliedAllStep(d, attrs, seen, last);
    }
  }

  /** Enumerating every key of the object once gives the key-by-key result. */
  lemma EveryEnumeration(d: NodeData, attrs: map<string, Value>, keys: seq<string>)
    requires d.ElementData?
    requires forall i :: 0 <= i < |keys| ==> keys[i] in attrs
    requires forall i, j :: 0 <= i < j < |keys| ==> keys[i] != keys[j]
    requires forall k :: k in attrs ==> k in keys
    ensures AppliedInOrder(d, attrs, keys) == AppliedAll(d, attrs)
  {
    AnyEnumerationOrder(d, attrs, keys);
    assert Restrict(attrs, set k | k in keys) == attrs;
  }

  /** Adding one more key of `p` to a restricted update of `m`. */
  lemma RestrictGrow(m: map<string, Value>, p: map<string, Value>, done: set<string>, k: string)
    requires k in p
    ensures m + Restrict(p, done + {k}) == (m + Restrict(p, done))[k := p[k]]
  {
  }

  /**
   * The `style` setter: an object value is copied property by property into
   * the element's style, any other value is assigned as the whole style.
   */
  method ApplyStyle(e: Node, value: Value)
    requires e.data.ElementData? && e.Valid()
    modifies e
    ensures e.Valid() && e.data == old(e.data).(style := StyleAfter(old(e.data).style, value))
    ensures e.children == old(e.children) && e.Kids == old(e.Kids) && e.Repr == old(e.Repr)
  {
    if value.PlainObject? {
      ghost var done: set<string> := {};
      var pending := value.props.Keys;
      while pending != {}
        invariant done !! pending && done + pending == value.props.Keys
        invariant e.Valid() && e.children == old(e.children) && e.Kids == old(e.Kids) && e.Repr == old(e.Repr)
        invariant e.data == old(e.data).(style := old(e.data).style.(props :=
          old(e.data).style.props + Restrict(value.props, done)))
        decreases pending
      {
        var name :| name in pending;
        RestrictGrow(old(e.data).style.props, value.props, done, name);
        e.SetStyleProperty(name, value.props[name]);
        pending := pending - {name};
        done := done + {name};
      }
      RestrictAll(value.props, done);
      return;
    }
    e.AssignStyle(value);
  }

  /**
   * One key of the attribute object: a setter of `attributeManager` when it
   * has one for the key, `setAttribute(name, value)` otherwise.
   */
  method ApplyAttribute(e: Node, name: string, value: Value)
    requires e.data.ElementData? && e.Valid()
    modifies e
    ensures e.Valid() && e.data == Applied(old(e.data), name, value)
    ensures e.children == old(e.children) && e.Kids == old(e.Kids) && e.Repr == old(e.Repr)
  {
    match ManagerFor(name) {
      case Some(FieldManager(f)) =>
        e.SetField(f, value);
      case Some(StyleManager) =>
        ApplyStyle(e, value);
      case None =>
        e.SetAttribute(name, value);
    }
  }

  /** An entry of a children array: a string or a template. */
  datatype Item = TextItem(s: string) | TemplateItem(e: HTMLElementTemplate)

  /** The builder's loosely typed arguments, sorted as `element` sorts them. */
  datatype Arg =
    | ArgObject(props: map<string, Value>)  // class tag "[object Object]"
    | ArgArray(items: seq<Item>)            // `Array.isArray`
    | ArgString(s: string)                  // `typeof` "string"
    | ArgOther                              // anything else

  /** The data of a prototype fresh from `createElement(tag)`. */
  function NewElement(tag: string): NodeData
  {
    ElementData(tag, map[], map[], EmptyStyle)
  }

  /**
   * `nodes` holds one entry per item, in order: a text template whose
   * instances are the item's text for a string, the template itself for a
   * template; `kids` are the entries' shapes.
   */
  predicate Follows(nodes: seq<Child>, kids: seq<Tree>, items: seq<Item>)
  {
    |nodes| == |kids| == |items| &&
    forall i :: 0 <= i < |items| ==>
      match items[i]
      case TextItem(s) => nodes[i].TextChild? && kids[i] == Tree(TextData(s), [])
      case TemplateItem(e) => nodes[i] == ElementChild(e)
  }

  /** The attribute loop of `element`: every key of the object, in enumeration order. */
  method ApplyAttributes(e: Node, attrs: map<string, Value>)
    requires e.data.ElementData? && e.Valid()
    modifies e
    ensures e.Valid() && e.data == AppliedAll(old(e.data), attrs)
    ensures e.children == old(e.children) && e.Kids == old(e.Kids) && e.Repr == old(e.Repr)
  {
    ghost var d := e.data;
    ghost var done: set<string> := {};
    var pending := attrs.Keys;
    AppliedNothing(d, attrs);
    while pending != {}
      invariant done !! pending && done + pending == attrs.Keys
      invariant e.Valid() && e.data.ElementData?
      invariant e.data == AppliedAll(d, Restrict(attrs, done))
      invariant e.children == old(e.children) && e.Kids == old(e.Kids) && e.Repr == old(e.Repr)
      decreases pending
    {
      var name :| name in pending;
      AppliedAllStep(d, attrs, done, name);
      ApplyAttribute(e, name, attrs[name]);
      pending := pending - {name};
      done := done + {name};
    }
    RestrictAll(attrs, done);
  }

  /** The child loop of `element`: a text template per string, every other entry pushed as it is. */
  method PushChildren(t: HTMLElementTemplate, items: seq<Item>)
    requires t.Valid() && t.childNodes == []
    requires forall i :: 0 <= i < |items| && items[i].TemplateItem? ==>
      items[i].e.Valid() && t !in items[i].e.Repr
    modifies t
    ensures t.Valid() && Follows(t.childNodes, t.Kids, items)
    ensures forall j :: 0 <= j < |t.childNodes| && t.childNodes[j].TextChild? ==> fresh(t.childNodes[j].t)
  {
    var i := 0;
    while i < |items|
      invariant 0 <= i <= |items|
      invariant t.Valid() && Follows(t.childNodes, t.Kids, items[..i])
      invariant forall j :: 0 <= j < |t.childNodes| && t.childNodes[j].TextChild? ==> fresh(t.childNodes[j].t)
    {
      match items[i] {
        case TextItem(s) =>
          var text := new HTMLTextNodeTemplate(s);
          t.Push(TextChild(text));
        case TemplateItem(e) =>
          t.Push(ElementChild(e));
      }
      i := i + 1;
    }
    assert items[..i] == items;
  }

  /** `element.bind(tag)(attributes, children)`. */
  method Element(tag: string, attributes: Arg, children: Arg) returns (t: HTMLElementTemplate)
    requires attributes.ArgArray? ==> forall i :: 0 <= i < |attributes.items| ==>
      attributes.items[i].TemplateItem? ==> attributes.items[i].e.Valid()
    requires attributes.ArgObject? && children.ArgArray? ==> forall i :: 0 <= i < |children.items| ==>
      children.items[i].TemplateItem? ==> children.items[i].e.Valid()
    ensures fresh(t) && fresh(t.element) && t.Valid()
    ensures t.element.data == AppliedAll(NewElement(tag), if attributes.ArgObject? then attributes.props else map[])
    ensures attributes.ArgObject? && children.ArgString? ==> Follows(t.childNodes, t.Kids, [TextItem(children.s)])
    ensures attributes.ArgObject? && children.ArgArray? ==> Follows(t.childNodes, t.Kids, children.items)
    ensures attributes.ArgObject? && !children.ArgString? && !children.ArgArray? ==> t.childNodes == []
    ensures attributes.ArgArray? ==> Follows(t.childNodes, t.Kids, attributes.items)
    ensures attributes.ArgString? ==> Follows(t.childNodes, t.Kids, [TextItem(attributes.s)])
    ensures attributes.ArgOther? ==> t.childNodes == []
    ensures forall i :: 0 <= i < |t.childNodes| && t.childNodes[i].TextChild? ==> fresh(t.childNodes[i].t)
  {
    var element := new Node.Create(NewElement(tag));
    t := new HTMLElementTemplate(element);
    var args := attributes;

    if attributes.ArgObject? {
      ApplyAttributes(element, attributes.props);

      if children.ArgString? {
        var text := new HTMLTextNodeTemplate(children.s);
        t.Push(TextChild(text));
        return;
      }

      if children.ArgArray? {
        args := children;
      }
    } else {
      assert AppliedAll(NewElement(tag), map[]) == element.data;
    }

    if args.ArgArray? {
      PushChildren(t, args.items);
    }

    if args.ArgString? {
      var text := new HTMLTextNodeTemplate(args.s);
      t.Push(TextChild(text));
      return;
    }
  }
}
