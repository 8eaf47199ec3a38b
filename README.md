# Template instancing in web-component.js

This project models the template part of the WebComponents engine in Dafny.

- **Templates.** An element template holds a prototype element and an ordered `childNodes` list. A text template holds a prototype text node. `createInstance` builds a live tree. It shallow-clones the node's own prototype, instantiates each child template and appends the results in order.
- **The builder `element(attributes, children)`.** It sorts its loosely typed arguments into four cases: an attribute object, an array of children, a string, or anything else. Each attribute key goes to a setter of `attributeManager` (`id`, `className`, `value`, `type`, `style`) or, failing that, to `setAttribute`; the main model uses the own-key lookup, and the lookup as written is modelled beside it. Strings become text templates; templates are pushed unchanged.
- **`getDomConstructors(domNameList)`.** It checks a list of names and returns one constructor per name. Each constructor is the builder with its tag bound to that name.

## Modules

- `Host` (host.dfy) is the host tree, reduced to what the engine uses. `Node` is a class with a `data` value and a `children` sequence. `NodeData` is either `ElementData(tag, fields, attributes, style)` or `TextData(text)`. `cloneNode()` is `CloneNode`: same data, no children. `appendChild` is `AppendChild`. The setters write one field, one attribute, one style property, or the whole style. Ghost `Repr` and `Kids` give each node a value view, `View(): Tree`. `Valid()` says the subtree is a proper tree: no node occurs twice.
- `Templates` (templates.dfy) holds `HTMLElementTemplate` and `HTMLTextNodeTemplate` as classes, since the builder fills `childNodes` in place. `Shape()` is the tree every instance of a template has. For an element template it is given by the ghost `Kids`, and `Valid()` ties `Kids` to the child templates' shapes recursively. `CreateInstance` is proved to return a tree whose `View()` is `Shape()` and whose nodes are all fresh. It has no modifies clause, so it cannot change the template.
- `Builder` (builder.dfy) holds `attributeManager` and `element`. A script object whose class tag is `[object Object]` is a `map` from keys to values. `for (const name in attributes)` visits the keys in an order the model leaves open: the loop picks any pending key. `AnyEnumerationOrder` proves that every order gives the same element. `AppliedAll` states the result key by key. `Element` says, case by case, which children the template gets.
- `Constructors` (constructors.dfy) holds `getDomConstructors` with its two thrown errors, modelled as `Result` failures that carry the source's messages.
- `Wrappers` (wrappers.dfy) holds `Option` and `Result`.

## Behaviour of the source worth knowing

- `getDomConstructors` applies no naming convention. Every name in the list becomes a key of the result as it is.
- `attributeManager` has its own setters for `id`, `className`, `style`, `value` and `type` only. A key that is none of these and no member of `Object.prototype` goes to `setAttribute`, event keys such as `onClick` included. A key that is a member of `Object.prototype` skips `setAttribute` (see "## Findings").
- `createInstance` passes its `properties` argument down to its children, and nothing reads it.

## Model

| member | source | states |
|---|---|---|
| Templates.HTMLElementTemplate.CreateInstance | src/web-component.js:10-18 | The result is a valid tree made only of fresh nodes. Its root holds the prototype's data. It has exactly one child per entry of `childNodes`, and the i-th child's tree is the i-th child template's shape. The template's `childNodes` and shape are unchanged. |
| Templates.HTMLTextNodeTemplate.CreateInstance | src/web-component.js:24-26 | The result is a fresh, childless node with the prototype text node's data. |
| Templates.HTMLTextNodeTemplate.constructor | src/web-component.js:20-22 | The prototype is a fresh, childless text node whose text is the given string. |
| Templates.HTMLElementTemplate.constructor | src/web-component.js:5-8 | The template holds the given element and an empty `childNodes`. |
| Templates.HTMLElementTemplate.Push | src/web-component.js:85-92 | `childNodes` gains exactly the given entry at its end, and the template stays valid. |
| Templates.InstantiateTwice | src/web-component.js:11-17 | Two instances of one template have the same tree, equal to the template's shape, and share no node. |
| Host.Node.Create | src/web-component.js:61 | `createElement(tag)`, and `createTextNode(text)` at line 21: a fresh, childless, valid node holding the given data. |
| Host.Node.CloneNode | src/web-component.js:12 | A shallow clone: a fresh node with the same data and no children. |
| Host.Node.AppendChild | src/web-component.js:15 | The child goes at the end of `children`. The node's data is unchanged, and the tree stays a proper tree. |
| Host.Node.SetField | src/web-component.js:34-39 | Only the named field changes, to the given value. |
| Host.Node.SetAttribute | src/web-component.js:72 | Only the named attribute changes, to the given value. |
| Host.Node.SetStyleProperty | src/web-component.js:45 | Only the named style property changes, to the given value. |
| Host.Node.AssignStyle | src/web-component.js:50 | The style becomes the assigned value as a whole, with no separate properties. |
| Builder.ManagerFor | src/web-component.js:33-58 | A setter exists exactly for `id`, `className`, `style`, `value` and `type`. The style setter is the one for `style`. Each field setter assigns the field of its own name. |
| Builder.ApplyStyle | src/web-component.js:40-51 | An object value is copied property by property into the style, keeping the other properties. Any other value replaces the style whole. |
| Builder.ApplyAttribute | src/web-component.js:67-72 | With the own-key lookup, one key goes to its `attributeManager` setter if one exists, and to `setAttribute(name, value)` otherwise. |
| Builder.ApplyAttributes | src/web-component.js:66-73 | With the own-key lookup, after the loop each key of the object has been applied exactly once: field keys set their field, `style` sets the style, every other key sets its attribute, and nothing else changes. |
| Builder.AppliedAllStep | src/web-component.js:66-73 | Applying one more key to a partly applied object gives the result for the larger part. |
| Builder.AnyEnumerationOrder | src/web-component.js:66-73 | Applying distinct keys one at a time, in any order, gives the key-by-key result for exactly those keys. |
| Builder.EveryEnumeration | src/web-component.js:66-73 | Any enumeration of all the object's keys gives the same element data. |
| Builder.PushChildren | src/web-component.js:85-92 | `childNodes` follows the array in order: a text template of the same string for each string, the template itself for each template. |
| Builder.Element | src/web-component.js:60-101 | The prototype is a fresh element with the bound tag, and every attribute key is applied to it with the own-key lookup. Children by case: an object with a string gives one text child; an object with an array follows the array; an object with anything else gives no children; an array follows the array; a bare string gives one text child; anything else gives no children. |
| Builder.ManagerLookupAsWritten | src/web-component.js:67-69 | As written, the lookup finds nothing only when the key is neither one of the five setters nor a member of `Object.prototype`. |
| Builder.AppliedAsWritten | src/web-component.js:67-72 | One key as written: it throws exactly for the inherited members other than `toString` and `constructor`, leaves the data unchanged for those two, and acts as the corrected step for every key `Object.prototype` lacks. |
| Builder.AsWrittenAgrees | src/web-component.js:67-72 | On a key not yet set as an attribute, the step as written equals the corrected step exactly when the key is no member of `Object.prototype`. |
| Builder.AsWrittenInOrder | src/web-component.js:66-73 | The loop as written throws exactly when some key is a throwing inherited member, and equals the corrected loop when no key is an inherited member. |
| Builder.AsWrittenMatchesCorrected | src/web-component.js:66-73 | For an object without keys that `Object.prototype` has, every enumeration of the loop as written gives the corrected key-by-key result. |
| Builder.InheritedKeyMissesSetAttribute | src/web-component.js:67-72 | The key `toString` finds an inherited member as written and so skips `setAttribute`. The corrected lookup sets the attribute `toString`. |
| Constructors.GetDomConstructors | src/web-component.js:103-117 | A non-array argument fails with "DOM name list must be an array.". A list containing an empty name fails with "Invalid DOM name.". Otherwise the result has exactly one key per distinct name, each bound to its own name, and no other key. |
| Constructors.Call | src/web-component.js:113 | Calling the constructor bound to a name is calling the builder with that name as its tag: the same prototype data and the same children, case by case, as `Builder.Element`. |

## Findings

| source | as written | input that shows it | evidently intended | confidence | as-written member | corrected member |
|---|---|---|---|---|---|---|
| src/web-component.js:67-72 | `attributeManager[name]` is a plain property lookup on an object literal, so it also finds the members inherited from `Object.prototype`. These are truthy, so the setter branch runs and `setAttribute` is skipped. | `div({ toString: "x" })`: no attribute `toString` is set. For `valueOf` or `hasOwnProperty`, calling the inherited member with `this` null throws a TypeError instead. | Only the five own keys of `attributeManager` select a setter; every other key goes to `setAttribute`. | medium, not executed | Builder.ManagerLookupAsWritten | Builder.ManagerFor |

## Left out

- The `properties` argument of `createInstance`: it is passed to the children and read nowhere, so the model drops it.
- Host semantics: tag-name validity (`createElement` throwing on an invalid name), the reflection between `className` and the `class` attribute, string coercion of values assigned to fields, and the parsing of a style string into properties. The model records the writes as they are made.
- Host.Node.CloneNode: copies every field. A host shallow clone copies only state backed by attributes, so a `value` or `type` assigned on an element without such a property (`div({ value: "x" })`) is a plain script property that clones do not have.
- Host.Node.AppendChild: requires a child that belongs to no other tree. The host's move-on-append behaviour is not modelled, because the engine only appends fresh instances.
- Array entries that are neither strings nor element templates: array entries are taken to be strings or element templates. The source pushes any other entry unchanged, such as a text template taken from a template's public `childNodes` (`div([p("x").childNodes[0]])`), which instantiates fine, or an arbitrary object, on which `createInstance` fails or does whatever that object does.
- Builder.ApplyAttribute: dispatches with the own-key lookup `ManagerFor`, so `Builder.ApplyAttributes`, `Builder.Element` and `Constructors.Call` describe the corrected program. The lookup as written is carried to the element data only as values (`Builder.AppliedAsWritten`, `Builder.AppliedInOrderAsWritten`); for a key that `Object.prototype` has, the source sets no attribute or throws a TypeError.
- Builder.Element: requires the element templates passed in to be valid, which holds for every template the builder returns.
- Values are abstract (`Host.Value`). Numbers are integers, with no floating point. A template passed as the attribute object counts as a plain object with its enumerable properties, as `toString` would classify it.
- `getDomConstructors` with a list holding a non-string entry: `name.length` is then undefined, or throws for `null`. The model takes the list as strings.
- The global registration `this.WebComponent = new WebComponent()` (src/web-component.js:119-123): a thin wrapper around `getDomConstructors`.
- testing/script.js: a benchmark that builds cards through the DOM directly, `innerHTML` and `DOMParser`. It also calls `getTemplateConstructors` and `toDOM`, which src/web-component.js does not define. Its reuse of one template for two instances is what `Templates.InstantiateTwice` states.
- Reactive bindings, the property store, event listeners and the component registry: src/web-component.js has none of them.
