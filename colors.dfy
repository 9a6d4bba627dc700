/**
 * The category-to-colour table of the markers (script.js:89-92).
 *
 * `MarkerColor` is the table with its "gray" fallback for every category it
 * does not list; it is the one the markers use. `MarkerColorAsWritten`
 * models the JavaScript expression `colors[category] || "gray"` literally:
 * property access on an object literal also finds the members that every
 * object inherits from `Object.prototype`, so a category spelled like one of
 * them does not fall back to "gray".
 */
module Colors {

  /** The five categories the table lists. */
  const KnownCategories: set<string> := {"transit", "road", "park", "building", "resilience"}

  /** Marker colour of a category; any category outside the table is drawn gray. */
  function MarkerColor(category: string): (color: string)
    ensures color == "gray" <==> category !in KnownCategories
  {
    if category == "transit" then "blue"
    else if category == "road" then "red"
    else if category == "park" then "green"
    else if category == "building" then "purple"
    else if category == "resilience" then "orange"
    else "gray"
  }

  /** The five listed categories get five different colours. */
  lemma KnownCategoriesAreDistinguished(a: string, b: string)
    requires a in KnownCategories && b in KnownCategories && a != b
    ensures MarkerColor(a) != MarkerColor(b)
    ensures MarkerColor(a) in {"blue", "red", "green", "purple", "orange"}
  {
  }

  // ---- The lookup as the script writes it ----

  /** A JavaScript value, as far as the colour lookup can meet one. */
  datatype JsValue = Undefined | Str(s: string) | Function(name: string) | PrototypeObject

  /** The methods every plain object inherits from `Object.prototype`. */
  const ObjectPrototypeMethods: set<string> := {
    "constructor", "hasOwnProperty", "isPrototypeOf", "propertyIsEnumerable",
    "toLocaleString", "toString", "valueOf",
    "__defineGetter__", "__defineSetter__", "__lookupGetter__", "__lookupSetter__"
  }

  /** `colors[key]`: an own property of the literal first, then the prototype chain. */
  function ColorsProperty(key: string): JsValue
  {
    if key == "transit" then Str("blue")
    else if key == "road" then Str("red")
    else if key == "park" then Str("green")
    else if key == "building" then Str("purple")
    else if key == "resilience" then Str("orange")
    else if key in ObjectPrototypeMethods then Function(key)
    else if key == "__proto__" then PrototypeObject
    else Undefined
  }

  /** JavaScript truthiness of the values above. */
  predicate Truthy(v: JsValue)
  {
    match v
    case Undefined => false
    case Str(s) => s != ""
    case Function(_) => true
    case PrototypeObject => true
  }

  /** `colors[category] || "gray"`. */
  function MarkerColorAsWritten(category: string): JsValue
  {
    var own := ColorsProperty(category);
    if Truthy(own) then own else Str("gray")
  }

  /** Away from the inherited member names, the script's lookup is the table. */
  lemma AsWrittenAgreesOffPrototype(category: string)
    requires category !in ObjectPrototypeMethods && category != "__proto__"
    ensures MarkerColorAsWritten(category) == Str(MarkerColor(category))
  {
  }

  /**
   * A category named "toString" is not in the table, yet the script's lookup
   * returns the inherited method instead of the "gray" fallback.
   */
  lemma AsWrittenMissesFallback()
    ensures "toString" !in KnownCategories
    ensures MarkerColor("toString") == "gray"
    ensures MarkerColorAsWritten("toString") == Function("toString")
  {
  }
}
