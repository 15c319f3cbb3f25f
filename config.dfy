/**
 The configuration handling of the factory exported by index.js.  The caller's
 configuration object is a plain JavaScript object, modelled as a class whose
 one field is its property map; the factory fills in `expireKey` and
 `defaultState` on that very object.  The `outbound` closure reads
 `expireKey` on every call and `defaultState` when a marker has expired.  Wrapping the closures with
 `createTransform` belongs to redux-persist and is not part of this model.
 */
module Config {
  import opened JsValues
  import opened Expire

  /** PERSIST_EXPIRE_DEFAULT_KEY. */
  const DefaultExpireKey: string := "persistExpiresAt"

  /** `config.expireKey || PERSIST_EXPIRE_DEFAULT_KEY`: a truthy key is kept,
      any falsy one (missing, "", null, ...) gives way to the default key. */
  function NormalizedExpireKey(supplied: Value): (key: Value)
    ensures Truthy(key)
    ensures key == supplied <==> Truthy(supplied)
    ensures key != supplied ==> key == Str(DefaultExpireKey)
  {
    Or(supplied, Str(DefaultExpireKey))
  }

  /** `config.defaultState || config.deleteOnExpire ? null : Map()`, which
      JavaScript parses as `(defaultState || deleteOnExpire) ? null : Map()`.
      The outcome is null or the empty Map, never a default state the caller
      supplied: a truthy one chooses null. */
  function NormalizedDefaultState(supplied: Value, deleteOnExpire: Value): (d: Value)
    ensures d == Null || d == EmptyMap
    ensures d == Null <==> Truthy(supplied) || Truthy(deleteOnExpire)
    ensures Truthy(supplied) ==> d != supplied
  {
    if Truthy(Or(supplied, deleteOnExpire)) then Null else EmptyMap
  }

  /** The property map after index.js:13-14 has run on it: the two
      properties are set from the values supplied, and every other property,
      `deleteOnExpire` included, is what it was. */
  function NormalizedProps(props: map<string, Value>): (p: map<string, Value>)
    ensures p.Keys == props.Keys + {"expireKey", "defaultState"}
    ensures p["expireKey"] == NormalizedExpireKey(Property(props, "expireKey"))
    ensures p["defaultState"]
         == NormalizedDefaultState(Property(props, "defaultState"), Property(props, "deleteOnExpire"))
    ensures forall name :: (name in props && name != "expireKey" && name != "defaultState")
                             ==> p[name] == props[name]
  {
    var withKey := props["expireKey" := NormalizedExpireKey(Property(props, "expireKey"))];
    withKey["defaultState" :=
      NormalizedDefaultState(Property(withKey, "defaultState"), Property(withKey, "deleteOnExpire"))]
  }

  /** The caller's configuration object. */
  class ConfigObject {
    var props: map<string, Value>

    constructor (props: map<string, Value>)
      ensures this.props == props
    {
      this.props := props;
    }

    /** index.js:13-14, assigning the two properties in place, one after the
        other. */
    method Normalize()
      modifies this
      ensures props == NormalizedProps(old(props))
    {
      props := props["expireKey" := Or(Property(props, "expireKey"), Str(DefaultExpireKey))];
      props := props["defaultState" :=
        if Truthy(Or(Property(props, "defaultState"), Property(props, "deleteOnExpire"))) then Null
        else EmptyMap];
    }
  }

  /** The factory up to the call of `createTransform`: `config || {}` (a
      missing or null configuration, modelled as `null`, becomes a new empty
      object), then the normalisation.  The object returned is the one the
      closures read; when the caller supplied it, it is the caller's own
      object, changed in place. */
  method CreateExpireTransform(config: ConfigObject?) returns (c: ConfigObject)
    modifies config
    ensures config != null ==> c == config && c.props == NormalizedProps(old(config.props))
    ensures config == null ==> fresh(c) && c.props == NormalizedProps(map[])
  {
    if config == null {
      c := new ConfigObject(map[]);
    } else {
      c := config;
    }
    c.Normalize();
  }

  /** What outbound can return once the factory has run: the state itself,
      undefined, null or the empty Map, and never a truthy default state the
      caller supplied (unless that happens to be the state itself). */
  lemma OutboundAfterFactory(props: map<string, Value>, state: Value,
                             parseDate: Value -> JsDate, nowMs: TimeValue)
    requires Truthy(state) ==> state.Map?
    ensures
      var p := NormalizedProps(props);
      var r := Outbound(p["expireKey"], p["defaultState"], state, parseDate, nowMs);
      && (r == state || r == Undefined || r == Null || r == EmptyMap)
      && ((Truthy(Property(props, "defaultState")) && Property(props, "defaultState") != state)
          ==> r != Property(props, "defaultState"))
  {
  }

  /** Passing one configuration object to the factory twice keeps its
      expireKey, but without deleteOnExpire the default state flips: the
      empty Map chosen the first time is truthy, so the second time chooses
      null, and the other way round. */
  lemma FactoryTwiceOnSameConfig(props: map<string, Value>)
    requires !Truthy(Property(props, "deleteOnExpire"))
    ensures NormalizedProps(NormalizedProps(props))["expireKey"] == NormalizedProps(props)["expireKey"]
    ensures NormalizedProps(NormalizedProps(props))["defaultState"]
         == (if NormalizedProps(props)["defaultState"] == Null then EmptyMap else Null)
  {
  }
}
