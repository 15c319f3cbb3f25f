/**
 The JavaScript values the expire transform handles: the persisted state (an
 Immutable.js Map built by `fromJS`, with nested Maps and Lists), scalars, Date
 objects and JavaScript numbers.  Only what index.js observes is modelled:
 truthiness, `||`, `Map.get` and plain-object property reads.  Dafny's `==`
 on these values stands for JavaScript's `===` only where index.js uses it, a
 comparison with the string "undefined"; on objects `===` compares references
 and NaN is not `===` to itself, neither of which the model needs.
 */
module JsValues {

  /** The largest magnitude of an ECMAScript time value, in milliseconds
      (one hundred million days either side of the epoch). */
  const MaxTimeMs: int := 8_640_000_000_000_000

  /** A time value that a valid `Date` can hold. */
  type TimeValue = t: int | -MaxTimeMs <= t <= MaxTimeMs

  /** What `getTime()` of a `Date` yields: NaN for an Invalid Date, otherwise
      whole milliseconds since the epoch. */
  datatype JsDate = InvalidDate | DateAt(ms: TimeValue)

  /** The JavaScript numbers that occur here: NaN or an integer.  The sign of
      zero is not kept, since `<` and `===` do not distinguish -0 from +0. */
  datatype Number = NaN | Whole(v: int)

  /** JavaScript `<` on two numbers: false as soon as either side is NaN. */
  predicate Less(a: Number, b: Number)
    ensures Less(a, b) ==> a.Whole? && b.Whole?
  {
    a.Whole? && b.Whole? && a.v < b.v
  }

  datatype Value =
    | Undefined
    | Null
    | Bool(b: bool)
    | Num(n: Number)
    | Str(s: string)
    | Date(time: JsDate)
    | Map(entries: map<string, Value>)
    | List(items: seq<Value>)

  /** Immutable.js `Map()`: the empty map. */
  const EmptyMap: Value := Map(map[])

  /** JavaScript ToBoolean: undefined, null, false, 0, NaN and "" are falsy;
      every object (a Date, even an invalid one, a Map, a List) is truthy. */
  predicate Truthy(v: Value)
    ensures !Truthy(v) <==> v in {Undefined, Null, Bool(false), Num(NaN), Num(Whole(0)), Str("")}
  {
    match v
    case Undefined => false
    case Null => false
    case Bool(b) => b
    case Num(n) => n.Whole? && n.v != 0
    case Str(s) => s != ""
    case Date(_) => true
    case Map(_) => true
    case List(_) => true
  }

  /** JavaScript `a || b`: the first operand when it is truthy, else the
      second. */
  function Or(a: Value, b: Value): (r: Value)
    ensures r == a || r == b
    ensures Truthy(r) <==> Truthy(a) || Truthy(b)
    ensures Truthy(a) ==> r == a
  {
    if Truthy(a) then a else b
  }

  /** Immutable.js `Map.prototype.get(key)` without a not-set value.  Keys of
      maps built from JSON are strings, and `get` compares keys by value, so a
      key that is not a string is never found. */
  function Get(state: Value, key: Value): (r: Value)
    requires state.Map?
    ensures r != Undefined ==> key.Str? && key.s in state.entries && r == state.entries[key.s]
    ensures !key.Str? ==> r == Undefined
    ensures key.Str? && key.s in state.entries ==> r == state.entries[key.s]
  {
    if key.Str? && key.s in state.entries then state.entries[key.s] else Undefined
  }

  /** Reading property `name` of a plain JavaScript object: undefined when the
      object has no such property. */
  function Property(props: map<string, Value>, name: string): (r: Value)
    ensures name !in props ==> r == Undefined
    ensures name in props ==> r == props[name]
  {
    if name in props then props[name] else Undefined
  }
}
