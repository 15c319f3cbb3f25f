/**
 The two functions index.js hands to redux-persist, and the date comparison
 they rest on.  redux-persist applies `inbound` to state on its way from the
 store into storage, and `outbound` to stored state as it is rehydrated, so
 the expiry check runs on load.  `outbound` looks at one field of the
 top-level state, the expire marker, and either keeps the state, drops it
 (returns undefined) or replaces it with the configured default state.  It
 never looks inside the state any deeper.

 The wall clock (`new Date()`) is the parameter `nowMs`, and the conversion of
 the stored marker to a date (`new Date(marker)`) is the parameter
 `parseDate`; both are outside the transform.  `outbound` reads the
 configuration field `expireKey` on every call and `defaultState` on the
 expired branch only; `inbound` reads no configuration.
 */
module Expire {
  import opened JsValues
  import opened Decimal

  // ---------------------------------------------------------------------
  // dateToUnix
  // ---------------------------------------------------------------------

  /** Whole seconds `s` is `ms` milliseconds rounded to the nearest second,
      a half second rounded away from zero. */
  predicate NearestSecond(ms: int, s: int)
  {
    && -500 <= 1000 * s - ms <= 500
    && (1000 * s - ms == 500 ==> ms > 0)
    && (1000 * s - ms == -500 ==> ms < 0)
  }

  /** Rounding on integers: the reference the string round trip of
      `dateToUnix` is measured against. */
  function RoundHalfAway(ms: int): (s: int)
    ensures NearestSecond(ms, s)
  {
    if ms >= 0 then (ms + 500) / 1000 else -((-ms + 500) / 1000)
  }

  /** There is only one nearest second, so the predicate pins the result. */
  lemma NearestSecondIsUnique(ms: int, s: int, t: int)
    requires NearestSecond(ms, s) && NearestSecond(ms, t)
    ensures s == t
  {
  }

  /** `(date.getTime() / 1000).toFixed(0)`: "NaN" for an Invalid Date;
      otherwise a minus sign for a negative quotient and the digits of the
      integer nearest to its magnitude, the larger one on a tie.  On valid
      time values the quotient is below 1e21, so the exponential form of
      toFixed is never reached, and a double quotient never crosses a half
      second boundary, so rounding the exact quotient gives the same digits. */
  function ToFixed0(date: JsDate): (s: string)
    ensures date.InvalidDate? ==> s == "NaN"
    ensures date.DateAt? ==> |s| >= 1 && (s[0] == '-' <==> date.ms < 0)
    ensures date.DateAt? ==> Canonical(if s[0] == '-' then s[1..] else s)
  {
    match date
    case InvalidDate => "NaN"
    case DateAt(ms) =>
      if ms < 0 then "-" + DecimalDigits((-ms + 500) / 1000)
      else DecimalDigits((ms + 500) / 1000)
  }

  /** Unary `+` reads the string `ToFixed0` writes back as NaN for an Invalid
      Date and as the integer rounding of the quotient otherwise. */
  lemma ToFixed0RoundTrip(date: JsDate)
    ensures date.InvalidDate? ==> StringToNumber(ToFixed0(date)) == NaN
    ensures date.DateAt? ==> StringToNumber(ToFixed0(date)) == Whole(RoundHalfAway(date.ms))
  {
    match date
    case InvalidDate =>
    case DateAt(ms) =>
      if ms < 0 {
        StringToNumberOfNumeral((-ms + 500) / 1000);
      } else {
        StringToNumberOfNumeral((ms + 500) / 1000);
      }
  }

  /** `dateToUnix(date)`: unary `+` applied to the toFixed string.  The
      result is NaN exactly for an Invalid Date, and otherwise the nearest
      whole second, half seconds rounded away from zero. */
  function DateToUnix(date: JsDate): (n: Number)
    ensures n.NaN? <==> date.InvalidDate?
    ensures date.DateAt? ==> n == Whole(RoundHalfAway(date.ms))
  {
    ToFixed0RoundTrip(date);
    StringToNumber(ToFixed0(date))
  }

  /** Rounding to seconds never reverses the order of two instants. */
  lemma RoundHalfAwayMonotone(a: int, b: int)
    requires a <= b
    ensures RoundHalfAway(a) <= RoundHalfAway(b)
  {
  }

  // ---------------------------------------------------------------------
  // The expiry test of outbound
  // ---------------------------------------------------------------------

  /** The marker date has expired: it is a valid date and its rounded second
      comes before the rounded second of now. */
  predicate Expired(date: JsDate, nowMs: TimeValue)
    ensures Expired(date, nowMs) ==> date.DateAt? && date.ms < nowMs
  {
    date.DateAt? && RoundHalfAway(date.ms) < RoundHalfAway(nowMs)
  }

  /** The first millisecond that rounds to second `s`. */
  function SecondStart(s: int): (ms: int)
    ensures RoundHalfAway(ms) == s && RoundHalfAway(ms - 1) == s - 1
  {
    if s > 0 then 1000 * s - 500 else 1000 * s - 499
  }

  /** A marker has expired exactly when it lies before the first millisecond
      of the second that now rounds to. */
  lemma ExpiredIffBeforeSecondStart(ms: TimeValue, nowMs: TimeValue)
    ensures Expired(DateAt(ms), nowMs) <==> ms < SecondStart(RoundHalfAway(nowMs))
  {
  }

  /** A marker a full second or more in the past has always expired. */
  lemma SecondOldMarkerExpires(ms: TimeValue, nowMs: TimeValue)
    requires nowMs - ms >= 1000
    ensures Expired(DateAt(ms), nowMs)
  {
  }

  /** A marker that is not in the past, or that falls into the same rounded
      second as now, has not expired; neither has an Invalid Date. */
  lemma UnexpiredMarkers(ms: TimeValue, nowMs: TimeValue)
    ensures ms >= nowMs ==> !Expired(DateAt(ms), nowMs)
    ensures RoundHalfAway(ms) == RoundHalfAway(nowMs) ==> !Expired(DateAt(ms), nowMs)
    ensures !Expired(InvalidDate, nowMs)
  {
  }

  // ---------------------------------------------------------------------
  // inbound and outbound
  // ---------------------------------------------------------------------

  /** `inbound(state)`: both of its returns give back the state itself. */
  function Inbound(state: Value): (r: Value)
    ensures r == state
  {
    if !Truthy(state) then state else state
  }

  /** The marker counts as absent: the literal string "undefined" or a falsy
      value (a missing key reads as undefined). */
  predicate MarkerAbsent(marker: Value)
    ensures marker == Undefined ==> MarkerAbsent(marker)
    ensures !MarkerAbsent(marker) ==> Truthy(marker) && marker != Str("undefined")
  {
    marker == Str("undefined") || !Truthy(marker)
  }

  /** `outbound(state)`.  A truthy state must be a Map, since index.js calls
      `state.get` on it.  The decision is made on the top-level marker alone:
      a falsy state comes back as it is, an absent marker drops the state, an
      expired marker yields the default state and any other marker (a later
      or equal second, or a date that does not parse) keeps the state. */
  function Outbound(expireKey: Value, defaultState: Value, state: Value,
                    parseDate: Value -> JsDate, nowMs: TimeValue): (r: Value)
    requires Truthy(state) ==> state.Map?
    ensures r == state || r == Undefined || r == defaultState
    ensures !Truthy(state) ==> r == state
    ensures Truthy(state) && MarkerAbsent(Get(state, expireKey)) ==> r == Undefined
    ensures (Truthy(state) && !MarkerAbsent(Get(state, expireKey))
             && Expired(parseDate(Get(state, expireKey)), nowMs)) ==> r == defaultState
    ensures (Truthy(state) && !MarkerAbsent(Get(state, expireKey))
             && !Expired(parseDate(Get(state, expireKey)), nowMs)) ==> r == state
  {
    if !Truthy(state) then state
    else if Get(state, expireKey) == Str("undefined") then Undefined
    else
      var expireDate := Get(state, expireKey);
      if !Truthy(expireDate) then Undefined
      else if Less(DateToUnix(parseDate(expireDate)), DateToUnix(DateAt(nowMs))) then defaultState
      else state
  }

  // ---------------------------------------------------------------------
  // Consequences for callers, and where the tests expect otherwise
  // ---------------------------------------------------------------------

  /** A top-level marker that parses to a date at least a second before now
      always replaces the whole state by the default state. */
  lemma OutboundExpiresOldMarker(expireKey: Value, defaultState: Value,
                                 entries: map<string, Value>,
                                 parseDate: Value -> JsDate,
                                 ms: TimeValue, nowMs: TimeValue)
    requires expireKey.Str? && expireKey.s in entries
    requires !MarkerAbsent(entries[expireKey.s]) && parseDate(entries[expireKey.s]) == DateAt(ms)
    requires nowMs - ms >= 1000
    ensures Outbound(expireKey, defaultState, Map(entries), parseDate, nowMs) == defaultState
  {
  }

  /** A top-level marker that parses to now or later, or that does not parse
      at all, keeps the whole state unchanged. */
  lemma OutboundKeepsUnexpiredMarker(expireKey: Value, defaultState: Value,
                                     entries: map<string, Value>,
                                     parseDate: Value -> JsDate,
                                     nowMs: TimeValue)
    requires expireKey.Str? && expireKey.s in entries
    requires !MarkerAbsent(entries[expireKey.s])
    requires parseDate(entries[expireKey.s]).DateAt? ==> parseDate(entries[expireKey.s]).ms >= nowMs
    ensures Outbound(expireKey, defaultState, Map(entries), parseDate, nowMs) == Map(entries)
  {
  }

  /** A state with no top-level marker is dropped, whatever markers its
      children carry, the empty Map included. */
  lemma OutboundDropsUnmarkedState(expireKey: Value, defaultState: Value,
                                   entries: map<string, Value>,
                                   parseDate: Value -> JsDate, nowMs: TimeValue)
    requires !(expireKey.Str? && expireKey.s in entries)
    ensures Outbound(expireKey, defaultState, Map(entries), parseDate, nowMs) == Undefined
  {
  }

  /** Every state test/expire-tests.js hands to outbound is the empty Map or
      a Map whose one top-level key is "app", with any marker below it.  With
      the marker key "persistExpiresAt" or "myExpireKey" and any default
      state, all of them come out as undefined, whatever the tests expect. */
  lemma OutboundOnTestStates(app: Value, defaultState: Value, parseDate: Value -> JsDate, nowMs: TimeValue)
    ensures Outbound(Str("persistExpiresAt"), defaultState, EmptyMap, parseDate, nowMs) == Undefined
    ensures Outbound(Str("persistExpiresAt"), defaultState, Map(map["app" := app]), parseDate, nowMs) == Undefined
    ensures Outbound(Str("myExpireKey"), defaultState, Map(map["app" := app]), parseDate, nowMs) == Undefined
  {
  }

  /** The tree of test/expire-tests.js:64-93, with an expired marker two
      levels down, is not pruned inside: outbound drops it altogether. */
  lemma NestedExpiredMarkerIsNotPruned(parseDate: Value -> JsDate, nowMs: TimeValue)
    requires nowMs >= -MaxTimeMs + 3_600_000
    ensures
      var data := Map(map["values" := List([Num(Whole(1)), Num(Whole(2))]),
                           "persistExpiresAt" := Date(DateAt(nowMs - 3_600_000))]);
      var state := Map(map["app" := Map(map["reducer" := Map(map["data" := data])])]);
      Outbound(Str("persistExpiresAt"), EmptyMap, state, parseDate, nowMs) == Undefined
  {
  }
}
