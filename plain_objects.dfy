/**
 * The dictionaries of `getTagList` and `getCategoryList` as written: plain
 * JavaScript objects (`{}`), which inherit the members of `Object.prototype`.
 * Reading `countMap[tag]` for a tag named like one of those members finds
 * the inherited value instead of `undefined`, and writing a number or a
 * string to `__proto__` does nothing at all: no key is added.
 *
 * `Taxonomy` counts with a `map`, the behaviour the code evidently intends;
 * the lemmas here show where the objects as written part from it, and that
 * they agree with it for every other name.
 */
module PlainObjects {
  import opened Collections

  /** The values a dictionary entry can hold along the way. */
  datatype JsValue =
    | Undefined
    | Number(n: int)
    | NaN
    | Function(name: string)   // an inherited method
    | Prototype                // `Object.prototype`, what `o.__proto__` reads
    | Text(s: string)

  /** The methods every plain object inherits from `Object.prototype`. */
  const InheritedMethods: set<string> := {
    "constructor", "hasOwnProperty", "isPrototypeOf", "propertyIsEnumerable",
    "toLocaleString", "toString", "valueOf",
    "__defineGetter__", "__defineSetter__", "__lookupGetter__", "__lookupSetter__"
  }

  /** The accessor that reads and sets an object's prototype. */
  const ProtoKey: string := "__proto__"

  /** A name that a fresh `{}` already answers for. */
  predicate Inherited(k: string) {
    k in InheritedMethods || k == ProtoKey
  }

  /** A dictionary object: its own properties and their keys in insertion order. */
  datatype JsObject = JsObject(own: map<string, JsValue>, keys: seq<string>)

  const Empty: JsObject := JsObject(map[], [])

  /**
   * `o` holds what counting `seen` into a `map` holds: the same keys in
   * the same order, each with its count as a number.
   */
  ghost predicate Agrees(o: JsObject, seen: seq<string>) {
    && o.keys == FirstSeen(seen)
    && (forall k :: k in o.own <==> k in Counts(seen))
    && (forall k :: k in o.own ==> o.own[k] == Number(Counts(seen)[k]))
  }

  /** `o[k]`: an own property, else what `Object.prototype` supplies, else `undefined`. */
  function Get(o: JsObject, k: string): (v: JsValue)
    ensures k !in o.own && !Inherited(k) ==> v == Undefined
    ensures k in o.own ==> v == o.own[k]
  {
    if k in o.own then o.own[k]
    else if k == ProtoKey then Prototype
    else if k in InheritedMethods then Function(if k == "constructor" then "Object" else k)
    else Undefined
  }

  /**
   * `o[k] = v`: a new or updated own property, except that assigning a
   * number or a string to `__proto__` is ignored.
   */
  function Put(o: JsObject, k: string, v: JsValue): (r: JsObject)
    ensures k != ProtoKey ==> k in r.own && r.own[k] == v
    ensures k == ProtoKey ==> r == o
    ensures forall j :: j != k ==> (j in r.own <==> j in o.own)
    ensures forall j :: j != k && j in o.own ==> r.own[j] == o.own[j]
    ensures k != ProtoKey ==> r.keys == if k in o.own then o.keys else o.keys + [k]
  {
    if k == ProtoKey then o
    else JsObject(o.own[k := v], if k in o.own then o.keys else o.keys + [k])
  }

  /** Truthiness: `undefined`, 0, `NaN` and the empty string are false. */
  predicate Truthy(v: JsValue) {
    match v
    case Undefined => false
    case Number(n) => n != 0
    case NaN => false
    case Function(_) => true
    case Prototype => true
    case Text(s) => s != ""
  }

  /** `v++` on the stored value: only a number counts on; anything else becomes `NaN`. */
  function Increment(v: JsValue): (r: JsValue)
    ensures v.Number? ==> r == Number(v.n + 1)
  {
    if v.Number? then Number(v.n + 1) else NaN
  }

  /** How V8 prints a built-in function. */
  function FunctionText(name: string): string {
    "function " + name + "() { [native code] }"
  }

  /** `v + 1`: a number adds, a function, an object or a string is converted to text and gets "1" appended. */
  function PlusOne(v: JsValue): (r: JsValue)
    ensures v.Number? ==> r == Number(v.n + 1)
  {
    match v
    case Number(n) => Number(n + 1)
    case Function(name) => Text(FunctionText(name) + "1")
    case Prototype => Text("[object Object]1")
    case Text(s) => Text(s + "1")
    case _ => NaN
  }

  // ---------------------------------------------------------------------
  // Tags
  // ---------------------------------------------------------------------

  /** `if (!countMap[tag]) countMap[tag] = 0; countMap[tag]++;` */
  function CountTagAsWritten(o: JsObject, tag: string): JsObject {
    var o1 := if !Truthy(Get(o, tag)) then Put(o, tag, Number(0)) else o;
    Put(o1, tag, Increment(Get(o1, tag)))
  }

  /** The tag dictionary as written, after counting the tags in order. */
  function TagCountsAsWritten(tags: seq<string>): JsObject {
    if tags == [] then Empty
    else CountTagAsWritten(TagCountsAsWritten(tags[..|tags| - 1]), tags[|tags| - 1])
  }

  /** A tag named `constructor` used once is listed with count `NaN`, not 1. */
  lemma ConstructorTagCountsNaN()
    ensures "constructor" in TagCountsAsWritten(["constructor"]).keys
    ensures Get(TagCountsAsWritten(["constructor"]), "constructor") == NaN
  {
    assert ["constructor"][..0] == [];
    assert "constructor" != ProtoKey;
  }

  /** Used twice, it is listed with count 1: the `NaN` resets to 0 on the second use. */
  lemma ConstructorTagUndercounted()
    ensures Get(TagCountsAsWritten(["constructor", "constructor"]), "constructor") == Number(1)
  {
    var s := ["constructor", "constructor"];
    assert s[..1] == ["constructor"];
    assert ["constructor"][..0] == [];
    assert "constructor" != ProtoKey;
  }

  /** A tag named `__proto__` is never listed. */
  lemma ProtoTagDropped()
    ensures TagCountsAsWritten([ProtoKey]) == Empty
  {
    assert [ProtoKey][..0] == [];
  }

  /** One tag with an ordinary name is counted as a `map` would count it. */
  lemma CountTagStep(o: JsObject, seen: seq<string>, tag: string)
    requires Agrees(o, seen) && !Inherited(tag)
    ensures Agrees(CountTagAsWritten(o, tag), seen + [tag])
  {
    CountsStep(seen, tag);
    CountsPositive(seen);
    if tag in o.own {
      assert Truthy(Get(o, tag));
      assert CountTagAsWritten(o, tag) == JsObject(o.own[tag := Number(Counts(seen)[tag] + 1)], o.keys);
    } else {
      assert Get(o, tag) == Undefined;
      var o1 := JsObject(o.own[tag := Number(0)], o.keys + [tag]);
      assert Put(o, tag, Number(0)) == o1;
      assert Get(o1, tag) == Number(0);
      assert o1.own[tag := Number(1)] == o.own[tag := Number(1)];
      assert CountTagAsWritten(o, tag) == JsObject(o.own[tag := Number(1)], o.keys + [tag]);
    }
  }

  /**
   * For tags none of which is named like a member of `Object.prototype`,
   * the object as written holds what the `map` of `Taxonomy` holds.
   */
  lemma {:induction false} TagCountsAgree(tags: seq<string>)
    requires forall t :: t in tags ==> !Inherited(t)
    ensures Agrees(TagCountsAsWritten(tags), tags)
  {
    if tags != [] {
      var init := tags[..|tags| - 1];
      assert tags == init + [tags[|tags| - 1]];
      assert forall t :: t in init ==> t in tags;
      TagCountsAgree(init);
      CountTagStep(TagCountsAsWritten(init), init, tags[|tags| - 1]);
    }
  }

  // ---------------------------------------------------------------------
  // Categories
  // ---------------------------------------------------------------------

  /** `count[key] = count[key] ? count[key] + 1 : 1;` */
  function CountCategoryAsWritten(o: JsObject, key: string): JsObject {
    Put(o, key, if Truthy(Get(o, key)) then PlusOne(Get(o, key)) else Number(1))
  }

  /** The category dictionary as written, after counting the keys in order. */
  function CategoryCountsAsWritten(keys: seq<string>): JsObject {
    if keys == [] then Empty
    else CountCategoryAsWritten(CategoryCountsAsWritten(keys[..|keys| - 1]), keys[|keys| - 1])
  }

  /**
   * A category named `toString` is listed with a text, not a number, as
   * its count: the inherited function converted to text with "1" appended.
   */
  lemma ToStringCategoryCountIsText()
    ensures "toString" in CategoryCountsAsWritten(["toString"]).keys
    ensures Get(CategoryCountsAsWritten(["toString"]), "toString") == Text(FunctionText("toString") + "1")
  {
    assert ["toString"][..0] == [];
    assert CategoryCountsAsWritten(["toString"]) == CountCategoryAsWritten(Empty, "toString");
    assert "toString" != ProtoKey && "toString" != "constructor";
    assert Get(Empty, "toString") == Function("toString");
  }

  /** A category named `__proto__` is never listed. */
  lemma ProtoCategoryDropped()
    ensures CategoryCountsAsWritten([ProtoKey]) == Empty
  {
    assert [ProtoKey][..0] == [];
  }

  /** One category with an ordinary name is counted as a `map` would count it. */
  lemma CountCategoryStep(o: JsObject, seen: seq<string>, key: string)
    requires Agrees(o, seen) && !Inherited(key)
    ensures Agrees(CountCategoryAsWritten(o, key), seen + [key])
  {
    CountsStep(seen, key);
    CountsPositive(seen);
    if key in o.own {
      assert CountCategoryAsWritten(o, key) == Put(o, key, Number(Counts(seen)[key] + 1));
    } else {
      assert CountCategoryAsWritten(o, key) == Put(o, key, Number(1));
    }
  }

  /** For ordinary names the category object as written holds what the `map` holds. */
  lemma {:induction false} CategoryCountsAgree(keys: seq<string>)
    requires forall k :: k in keys ==> !Inherited(k)
    ensures Agrees(CategoryCountsAsWritten(keys), keys)
  {
    if keys != [] {
      var init := keys[..|keys| - 1];
      assert keys == init + [keys[|keys| - 1]];
      assert forall t :: t in init ==> t in keys;
      CategoryCountsAgree(init);
      CountCategoryStep(CategoryCountsAsWritten(init), init, keys[|keys| - 1]);
    }
  }
}
