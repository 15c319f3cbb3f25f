# redux-persist-transform-expire, modelled in Dafny

The package exports a factory. The factory takes a configuration object and
builds a redux-persist transform from two functions. redux-persist applies
`inbound` to state on its way from the store into storage, and `outbound` to
stored state as it is rehydrated, so the expiry check runs on load.

- `inbound` returns the state unchanged.
- `outbound` reads one
  marker field (`expireKey`, by default `persistExpiresAt`) at the top level
  of the state, which is an Immutable.js Map. A falsy state is returned as it
  is. A marker that is missing, falsy or the string `"undefined"` makes it
  return `undefined`. A marker whose date, rounded to whole seconds, lies before
  the current second makes it return the configured `defaultState`. Any other
  marker keeps the state.

The model has four modules:

- `JsValues` (`js_values.dfy`): the JavaScript values involved, with
  truthiness, `||`, `Map.get` and property reads. It also has `Date` time
  values (NaN, or an integer within ECMAScript's range of plus or minus
  8.64e15 ms) and numbers (NaN or an integer).
- `Decimal` (`decimal.dfy`): the decimal strings that `toFixed(0)` writes
  and unary `+` reads back, with round-trip lemmas in both directions.
- `Expire` (`expire.dfy`): `dateToUnix`, the expiry comparison, `inbound`
  and `outbound`.
- `Config` (`config.dfy`): the caller's configuration object as a class,
  and the factory's normalisation of it, done in place by a method.

`dateToUnix` is modelled as the string round trip it performs. Its result is
proved equal to the integer rounding of `ms/1000`, half away from zero. For
valid time values this integer model is exact: the quotient stays below
1e21, so toFixed never switches to exponential form. A quotient that is not
a tie lies at least 1 ms (0.001 in the quotient) from the nearest half-second
boundary, while its rounding error as a double stays below half of that, even
near 8.64e15 ms. A tie k + 0.5 is representable exactly. So rounding the double
gives the same integer as rounding the exact quotient.

Outside inputs become parameters. `new Date()` is `nowMs`. `new Date(marker)`
is the function `parseDate`, where `InvalidDate` stands for an Invalid Date.
`outbound` reads `config.expireKey` each time it runs, and
`config.defaultState` only when the marker has expired; `inbound` reads no
configuration. `Outbound` takes those two values as arguments.

Where the code and its tests disagree, the model follows the code:

- `outbound` never recurses, and reads the marker at the top level only.
  Every state that test/expire-tests.js passes to `transform.out` is the
  empty Map or a Map whose one top-level key is `app`, with any marker
  further down. So every one of its nine outbound expectations disagrees
  with index.js, which returns `undefined` for each of them
  (`Expire.OutboundOnTestStates`, `Expire.OutboundDropsUnmarkedState`,
  `Expire.NestedExpiredMarkerIsNotPruned`):
  - 10-39: no marker at all; the state is expected back.
  - 41-62: an unexpired marker at `app.reducer.data`; the state is expected back.
  - 64-132: expired markers inside a Map and inside a List; the subtrees
    that carry them are expected to be emptied.
  - 134-153: an expired marker on `app`; `{app: {}}` is expected.
  - 155-174: the marker `'invalid-date'` on `app`; the state is expected
    back. This is not the branch where a date that does not parse keeps
    the state, since that branch needs the marker at the top level.
  - 176-209: an expired marker under the custom key `myExpireKey`, nested;
    pruning is expected.
  - 211-246: an expired nested marker with a supplied default state; the
    default is expected in place of the subtree.
- index.js:14 parses as `(defaultState || deleteOnExpire) ? null : Map()`. A
  default state supplied by the caller therefore selects `null`, and
  `outbound` never returns it. The test at test/expire-tests.js:211-246
  expects it to be used, so that test would fail even with its marker at
  the top level (`Config.NormalizedDefaultState`,
  `Config.OutboundAfterFactory`).

A further consequence of line 14: when `deleteOnExpire` is falsy, passing one
configuration object to the factory twice flips its `defaultState` between
the empty Map and `null`, because the first call stores a value whose
truthiness decides the second (`Config.FactoryTwiceOnSameConfig`).

## Model

| member | source | states |
|---|---|---|
| `JsValues.Less` | index.js:35 | JavaScript `<` on numbers: true only when both sides are numbers other than NaN |
| `JsValues.Truthy` | index.js:17 | ToBoolean: the falsy values are exactly undefined, null, false, NaN, 0 and the empty string; every object, an invalid Date included, is truthy |
| `JsValues.Or` | index.js:12-14 | the or-operator returns one of its operands, the first when it is truthy, and is truthy exactly when either operand is |
| `JsValues.Get` | index.js:25 | `state.get(key)` gives undefined unless the key is a string present in the Map, and then the value stored under it |
| `JsValues.Property` | index.js:13-14 | reading a property of the configuration object gives the value stored under it, and undefined when the object does not have it |
| `Decimal.DecimalDigits` | index.js:8 | the numeral toFixed writes for a whole number: at least one digit, only digits, and a leading zero only for the number zero |
| `Decimal.DigitsValueOfDecimalDigits` | index.js:8 | reading back the numeral written for n gives n |
| `Decimal.DecimalDigitsOfDigitsValue` | index.js:8 | every canonical numeral is the one written for its own value, so writing and reading are inverse on canonical numerals |
| `Decimal.StringToNumber` | index.js:8 | unary `+` on a string gives a number only for the empty string, a digit string or a minus sign and digits; a digit string gives a non-negative number; "NaN" gives NaN |
| `Decimal.StringToNumberOfNumeral` | index.js:8 | unary `+` reads a written numeral as the integer it was written for, and a minus sign in front as its negation |
| `Expire.RoundHalfAway` | index.js:8 | the whole second nearest to ms milliseconds, with a half second rounded away from zero |
| `Expire.NearestSecondIsUnique` | index.js:7-9 | there is only one nearest second, so the rounding result is fully determined |
| `Expire.ToFixed0` | index.js:8 | toFixed(0) of the quotient writes "NaN" for an Invalid Date; otherwise a minus sign exactly for a negative time, followed by a canonical numeral |
| `Expire.ToFixed0RoundTrip` | index.js:8 | unary `+` of the toFixed(0) string is NaN for an Invalid Date and the rounded second otherwise |
| `Expire.DateToUnix` | index.js:7-9 | dateToUnix is NaN exactly for an Invalid Date, and otherwise equals ms/1000 rounded half away from zero |
| `Expire.RoundHalfAwayMonotone` | index.js:7-9 | rounding to seconds is monotone: a later instant never gets an earlier second |
| `Expire.Expired` | index.js:35 | the `<` test of the rounded seconds holds only for a valid marker date strictly before now |
| `Expire.SecondStart` | index.js:35 | the first millisecond that rounds to a given second: it rounds to that second, and the millisecond before it to the previous one |
| `Expire.ExpiredIffBeforeSecondStart` | index.js:35 | a marker date counts as expired if and only if it lies before the first millisecond of the second that now rounds to |
| `Expire.SecondOldMarkerExpires` | index.js:35 | a marker one second or more before now has always expired |
| `Expire.UnexpiredMarkers` | index.js:35 | a marker at or after now, a marker in the same rounded second as now, and an Invalid Date never count as expired |
| `Expire.Inbound` | index.js:16-20 | inbound returns its argument unchanged on both paths, falsy states included |
| `Expire.MarkerAbsent` | index.js:25-33 | the two early returns: a missing marker counts as absent, and a marker that is not absent is truthy and not the string "undefined" |
| `Expire.Outbound` | index.js:22-40 | the result is always the state, undefined or the default state; a falsy state comes back unchanged; a marker that is "undefined" or falsy gives undefined; an expired marker gives the default state; any other marker, an unparseable date included, gives the state |
| `Expire.OutboundExpiresOldMarker` | index.js:35-36 | a top-level marker dated a second or more before now replaces the whole state by the default state |
| `Expire.OutboundKeepsUnexpiredMarker` | index.js:35-39 | a truthy top-level marker other than the string "undefined", dated now or later, or one that does not parse, keeps the state unchanged |
| `Expire.OutboundDropsUnmarkedState` | index.js:25-33 | a Map without the top-level marker key, the empty Map included, comes out as undefined whatever its children carry |
| `Expire.OutboundOnTestStates` | index.js:25-33 | the empty Map, and any Map whose only top-level key is `app`, come out as undefined under the marker keys persistExpiresAt and myExpireKey, whatever the default state |
| `Expire.NestedExpiredMarkerIsNotPruned` | index.js:22-40 | the state of test/expire-tests.js:64-93, whose expired marker is two levels down, comes out as undefined instead of being pruned inside |
| `Config.NormalizedExpireKey` | index.js:13 | the stored expireKey is always truthy; it is the supplied key exactly when that key is truthy, and otherwise persistExpiresAt |
| `Config.NormalizedDefaultState` | index.js:14 | the stored defaultState is null or the empty Map; it is null exactly when the supplied defaultState or deleteOnExpire is truthy; a truthy supplied defaultState is never kept |
| `Config.NormalizedProps` | index.js:13-14 | after normalisation both properties exist, hold the normalised values computed from what was supplied, and every other property is unchanged |
| `Config.ConfigObject.Normalize` | index.js:13-14 | changes only the object's property map, to the normalised map of its old contents |
| `Config.CreateExpireTransform` | index.js:11-14 | a supplied object is normalised in place and is the object returned; a missing configuration gives a fresh object that holds the normalised empty map |
| `Config.OutboundAfterFactory` | index.js:14 | once the factory has run, outbound returns the state, undefined, null or the empty Map, and never a truthy defaultState the caller supplied unless it is the state itself |
| `Config.FactoryTwiceOnSameConfig` | index.js:12-14 | normalising the same object twice keeps expireKey, but without deleteOnExpire it swaps defaultState between null and the empty Map |

## Left out

- `reduxPersist.createTransform` (index.js:42) belongs to redux-persist, which is not part of this model. `CreateExpireTransform` returns the normalised configuration object the two closures read.
- `traverse` (index.js:2) is imported but never called, so the model has no tree walk.
- Parsing a marker into a `Date` and reading the wall clock (index.js:35) are foreign and depend on the environment. They are the parameters `parseDate` and `nowMs`.
- Floating-point division and `toFixed` on doubles (index.js:8) are not modelled. The integer rounding that replaces them is exact for every valid time value.
- Decimal.StringToNumber: reads only the string shapes `toFixed(0)` can write (the empty string, digits, a minus sign and digits, `"NaN"`). Other literals, such as `"+5"`, `"1e3"`, `"0x1f"`, `"Infinity"` or digits with surrounding white space, come out as NaN here.
- Non-integer numbers and Infinity are not values of the model. The sign of zero is dropped, since neither `<` nor `===` can see it.
- Expire.Outbound: requires a truthy state to be a Map. On a truthy string, number, boolean or Date, index.js throws a TypeError when it calls `.get`. On a top-level List, Immutable.js's index lookup would run; neither case is modelled.
- Immutable.js Maps are modelled with string keys only. That is what `fromJS` builds, and a non-string `expireKey` is then never found.
- Config.CreateExpireTransform: every falsy configuration is modelled as `null`; `config || {}` treats them all alike. A truthy configuration that is not an object, such as a string, is not modelled.
- test/expire-tests.js is a test harness; where it disagrees with index.js, the lemmas above state what index.js does.
