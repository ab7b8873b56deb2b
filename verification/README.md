# anon-loc core, modelled in Dafny

anon-loc lets a user prove that their GPS position lies inside an
administrator's polygon without revealing the position. The browser turns
degrees into integer points, builds a zero-knowledge proof, flattens that
proof into the `felt252[]` argument of a Starknet `RegionVerifier`
contract, and reads the contract's verdict. This project models the
front-end logic around that pipeline, one module per source file:

- `Types` (`types.dfy`): `NoirPoint`, `NoirRegion`, `LatLng`, the empty
  vertex `{x: 0, y: 0}`, and `Option`/`Result`.
- `JsText` (`js_text.dfy`): the two JavaScript text conversions the
  flattener relies on. `toString(base)` writes an integer; `BigInt(string)`
  reads one or throws a SyntaxError. The second covers trimming, signs and
  the `0x`/`0o`/`0b` prefixes.
- `VerifyProof` (`verify_proof.dfy`): `convertProofToFelt252Array`,
  imperatively, proved equal to a recursive specification `Flatten`, plus
  the verdict rule and the unpacking of `get_vertices`.
- `MapSelector` (`map_selector.dfy`): the polygon editor on the map. A
  class holds the vertex list; click, drag and reset update it. The
  conversions between map positions and points, the marker filter, and
  the first-empty-slot search are modelled too.
- `AdminPage` (`admin_page.dfy`): the administrator's four-vertex form,
  with its `vertices` and `saved` state.
- `NoLoc` (`no_loc.dfy`): the "Prove Location" button. It converts the
  reading and the region at scale 10^6 with `Math.floor`, makes the
  request to the prover, and moves the `loading`/`error` flags.

The map editor and the button use different conventions, and the model
follows the code in each:

- The map editor scales by 100 and rounds with `Math.round`, which rounds
  a half toward +∞.
- The button scales by 10^6 and rounds with `Math.floor`.

The two conventions give different points for the same position. The lemmas `MapSelector.LatLngQuantisation` (error within
±0.005°) and `NoLoc.FixedQuantisation` (error one-sided, below 10^-6°)
state what the code does.

Two properties proved about the code as written are worth knowing:

- A negative number or bigint in a proof object becomes the felt
  `"0x-…"`, which is not a hexadecimal literal (`VerifyProof.NegativeFeltUnreadable`).
- Dragging a marker onto (0, 0) empties its slot. When a filled slot
  follows the dragged one, the list then has an empty slot in front of a
  filled one (`MapSelector.DragKeepsPacked` needs a non-empty target). From
  then on, marker indices and vertex indices no longer agree (see Findings).

## Model

| member | source | states |
|---|---|---|
| JsText.Digits | src/scripts/verifyProof.ts:66 | `toString(base)` of a natural number writes at least one digit, every one a digit of that base, with no leading zero: the text starts with "0" only when it is exactly "0", for zero |
| JsText.DigitsLowerCase | src/scripts/verifyProof.ts:66 | every character `toString(base)` writes is `0`-`9` or a lower-case `a`-`f` |
| JsText.TrimStartDropsWhitespace | src/scripts/verifyProof.ts:66 | before reading a string, `BigInt` removes leading white space and nothing else: the string is that white space followed by the trimmed text |
| JsText.TrimEndDropsWhitespace | src/scripts/verifyProof.ts:66 | likewise `BigInt` removes trailing white space and nothing else: the string is the trimmed text followed by that white space |
| JsText.IntegerText | src/scripts/verifyProof.ts:66 | `n.toString(base)` starts with `-` exactly when `n < 0`, and the rest is a non-empty run of digits of the base |
| JsText.StringToBigInt | src/scripts/verifyProof.ts:66 | `BigInt(s)` succeeds exactly when `s`, once trimmed, is empty, a `0x`/`0o`/`0b` literal, or a decimal literal with an optional sign; a negative result comes only from a leading `-` |
| JsText.DigitsRoundTrip | src/scripts/verifyProof.ts:66 | reading the digits written for `n` in base 2, 8, 10 or 16 gives back exactly `n` |
| JsText.DecimalReadBack | src/scripts/verifyProof.ts:72 | `BigInt(String(n))` is `n` for every integer, negative ones included |
| JsText.HexReadBack | src/scripts/verifyProof.ts:66 | `BigInt("0x" + n.toString(16))` is `n` for every `n >= 0` |
| JsText.NegativeHexUnreadable | src/scripts/verifyProof.ts:66 | for `n < 0`, `"0x" + n.toString(16)` makes `BigInt` throw |
| JsText.BooleanTextRejected | src/scripts/verifyProof.ts:72 | `BigInt("true")` and `BigInt("false")` throw |
| VerifyProof.BigIntOf | src/scripts/verifyProof.ts:65-66 | `BigInt(x.toString())`: a string converts exactly when it is an integer literal once trimmed; a bigint and a number up to 2^53 in magnitude give their own value; a number from 1e21 up and a boolean throw |
| VerifyProof.ScalarFelts | src/scripts/verifyProof.ts:63-73 | null gives no felt, a `0x` string itself; any other successful scalar gives one felt starting with `0x`; it throws, with that scalar, exactly when `BigInt` rejects it |
| VerifyProof.Flatten | src/scripts/verifyProof.ts:49-81 | a string proof gives exactly one felt and never throws; an object with no fields gives none |
| VerifyProof.PushScalar | src/scripts/verifyProof.ts:63-73 | one scalar: a `0x` string is pushed as is, null pushes nothing, anything else pushes `"0x"` + hex of `BigInt(x.toString())` or throws; equals the specification step |
| VerifyProof.PushItems | src/scripts/verifyProof.ts:61-68 | the inner `forEach` over an array field appends the items' felts in order or throws the first item's error |
| VerifyProof.ConvertProofToFelt252Array | src/scripts/verifyProof.ts:49-81 | the loop over the fields returns exactly `Flatten(proof)`: the felts of the fields in order, or the first SyntaxError |
| VerifyProof.FieldsErrPrefix | src/scripts/verifyProof.ts:60-74 | once a prefix of the fields throws, the whole conversion throws that same error |
| VerifyProof.ItemsErrPrefix | src/scripts/verifyProof.ts:62-68 | once a prefix of an array's items throws, the array throws that same error |
| VerifyProof.WholeProofSingleFelt | src/scripts/verifyProof.ts:75-78 | a string proof yields one felt: itself if it starts with `0x`, otherwise `"0x"` before it |
| VerifyProof.EmptyObjectNoFelts | src/scripts/verifyProof.ts:54-60 | an object with no fields yields the empty array |
| VerifyProof.ItemsConcat | src/scripts/verifyProof.ts:62-68 | items are converted in order: the felts of `a + b` are those of `a` then those of `b`, and the first error wins |
| VerifyProof.FieldsConcat | src/scripts/verifyProof.ts:60-74 | fields are converted in enumeration order with arrays expanded in place; the first error wins |
| VerifyProof.FieldsCons | src/scripts/verifyProof.ts:60 | the first field's felts precede those of the remaining fields |
| VerifyProof.ScalarFeltsPrefixed | src/scripts/verifyProof.ts:63-73 | every felt produced for a scalar starts with `0x` |
| VerifyProof.FlattenPrefixed | src/scripts/verifyProof.ts:49-81 | every felt of a successful conversion starts with `0x` |
| VerifyProof.ItemsFeltsLength | src/scripts/verifyProof.ts:62-68 | a converted array contributes one felt per non-null item |
| VerifyProof.FieldsFeltsLength | src/scripts/verifyProof.ts:60-74 | the number of felts is the number of non-null scalars, array items counted one by one |
| VerifyProof.ItemsOkIff | src/scripts/verifyProof.ts:62-68 | an array converts if and only if each of its items converts |
| VerifyProof.FieldsOkIff | src/scripts/verifyProof.ts:60-74 | an object proof converts if and only if each field converts; otherwise the conversion throws |
| VerifyProof.PrefixedStringPassesThrough | src/scripts/verifyProof.ts:63-70 | a `0x` string is emitted unchanged, as a field and as an array item |
| VerifyProof.ConvertedFeltDecodes | src/scripts/verifyProof.ts:65-72 | a scalar with value `v >= 0` becomes `"0x"` + the hex digits of `v`, which `BigInt` reads back as `v` |
| VerifyProof.NegativeFeltUnreadable | src/scripts/verifyProof.ts:65-72 | a scalar with a negative value becomes `"0x-…"`, which `BigInt` cannot read |
| VerifyProof.IntegersConvert | src/scripts/verifyProof.ts:71-72 | integer numbers up to 2^53 in magnitude, bigints and decimal strings convert to their own value |
| VerifyProof.SameValueSameFelt | src/scripts/verifyProof.ts:65-72 | for every `n` up to 2^53 in magnitude, the number `n`, the bigint `n` and the string of `n` give the same felt, `"0x"` + `n.toString(16)` |
| VerifyProof.BooleanThrows | src/scripts/verifyProof.ts:65-72 | a boolean field or array item makes the whole conversion throw |
| VerifyProof.NonLiteralTextThrows | src/scripts/verifyProof.ts:63-72 | a string throws, with itself as the culprit, if and only if it neither starts with `0x` nor is an integer literal once trimmed |
| VerifyProof.NonNumericTextThrows | src/scripts/verifyProof.ts:71-72 | the string `"abc"` throws |
| VerifyProof.Verdict | src/scripts/verifyProof.ts:118 | a valid verdict needs an array result; for an array result it is valid exactly when the array is non-empty |
| VerifyProof.EmptyResultNeverValid | src/scripts/verifyProof.ts:118 | an empty array or a non-array call result is never a valid verdict |
| VerifyProof.VerifyWith | src/scripts/verifyProof.ts:89-123 | a missing wallet throws "Wallet not found or connection rejected" and a failed connection throws its own reason; once connected, a conversion error is rethrown before the contract is asked, and a rejected contract call is rethrown with its reason; the result is a verdict exactly when all three steps succeed, and it is `true` if and only if the contract returned a non-empty array |
| VerifyProof.GetVertices | src/scripts/verifyProof.ts:130-160 | a rejected `get_vertices` call is rethrown with its reason; otherwise, with at least two entries, entries 0 and 1 are returned; the first is missing exactly for an empty result, and the second is present only when the first is |
| VerifyProof.GetVerticesOfPair | src/scripts/verifyProof.ts:151-154 | the contract's pair comes back as `[vertices_x, vertices_y]` in that order |
| MapSelector.JsRound | src/components/MapSelector.tsx:37-38 | `Math.round` gives the integer `k` with `k - 0.5 <= v < k + 0.5` |
| MapSelector.LatLngToNoirPoint | src/components/MapSelector.tsx:32-40 | x is the longitude and y the latitude, each times 100, rounded to the nearest integer |
| MapSelector.NoirPointToLatLng | src/components/MapSelector.tsx:43-45 | latitude is y / 100 and longitude is x / 100, exactly |
| MapSelector.PointRoundTrip | src/components/MapSelector.tsx:32-45 | point to map position and back is the identity |
| MapSelector.LatLngQuantisation | src/components/MapSelector.tsx:32-45 | map position to point and back moves each coordinate by at most 0.005 degrees |
| MapSelector.Filled | src/components/MapSelector.tsx:98-99 | the filter keeps exactly the non-empty vertices and is no longer than its input |
| MapSelector.Markers | src/components/MapSelector.tsx:97-101 | one marker per filled vertex, in order; marker `i` converts back to the `i`-th filled vertex |
| MapSelector.ResetVertices | src/components/MapSelector.tsx:112-116 | `maxVertices` slots, every one empty |
| MapSelector.FirstEmptyIndex | src/components/MapSelector.tsx:61 | the index of the first empty slot, or -1 exactly when there is none |
| MapSelector.FindEmptySlot | src/components/MapSelector.tsx:61 | the `findIndex` loop returns the first empty slot, or -1 exactly when there is none |
| MapSelector.Clicked | src/components/MapSelector.tsx:55-67 | with `maxVertices` slots filled nothing changes; otherwise the list keeps its length or, below `maxVertices`, gets the point appended; the only slot that can change is the first empty one, and it gets the point |
| MapSelector.ClickWhenFull | src/components/MapSelector.tsx:55 | a click changes nothing once `maxVertices` vertices are filled |
| MapSelector.ClickFillsFirstEmpty | src/components/MapSelector.tsx:59-64 | while fewer than `maxVertices` slots are filled, a click writes the point into the first empty slot and leaves length and every other slot unchanged |
| MapSelector.ClickAppends | src/components/MapSelector.tsx:63-67 | with no empty slot, a click appends only while the list is shorter than `maxVertices` |
| MapSelector.ClickBounded | src/components/MapSelector.tsx:55-67 | a list no longer than `maxVertices` never shrinks and never grows past it |
| MapSelector.ClickKeepsPacked | src/components/MapSelector.tsx:55-67 | clicks keep the filled slots in front of the empty ones |
| MapSelector.ClickAllKeepsPacked | src/components/MapSelector.tsx:55-69 | any sequence of clicks on a packed list of `maxVertices` slots keeps it packed and of that length |
| MapSelector.ClicksFromReset | src/components/MapSelector.tsx:112-116 | after a reset, any sequence of clicks leaves exactly `maxVertices` slots, filled ones first |
| MapSelector.FilledConcat | src/components/MapSelector.tsx:98-99 | the filter keeps the order: the filled slots of `a + b` are those of `a` then those of `b` |
| MapSelector.PackedFilledPrefix | src/components/MapSelector.tsx:98-99 | in a packed list the filled slots are exactly a prefix, and all later slots are empty |
| MapSelector.MarkerIndexIsVertexIndex | src/components/MapSelector.tsx:145-153 | in a packed list marker `i` is drawn for vertex `i` |
| MapSelector.DragKeepsPacked | src/components/MapSelector.tsx:105-109 | dragging a marker to a point other than (0, 0) keeps the list packed |
| MapSelector.FilledIndex | src/components/MapSelector.tsx:98-100 | the slot behind marker `i` holds the `i`-th filled vertex |
| MapSelector.MarkerDragged | src/components/MapSelector.tsx:105-109 | a marker-aware drag keeps the list's length |
| MapSelector.MarkerDragMovesMarker | src/components/MapSelector.tsx:105-109 | a marker-aware drag to a point other than (0, 0) replaces filled entry `i` and keeps every other filled entry |
| MapSelector.MarkerDragMovesOneMarker | src/components/MapSelector.tsx:145-153 | after a marker-aware drag to a point other than (0, 0), marker `i` is at the new position and every other marker is where it was |
| MapSelector.PackedMarkerIndex | src/components/MapSelector.tsx:105-109 | on a packed list the drag as written equals the marker-aware drag |
| MapSelector.DragByMarkerIndexAddsMarker | src/components/MapSelector.tsx:145-153 | on the vertices `[(0,0), (5,5)]`, dragging the only marker to (0.07, 0.07) as written gives `[(7,7), (5,5)]`, two markers, while the marker-aware drag gives the one marker (7,7) |
| MapSelector.MapSelector.constructor | src/components/MapSelector.tsx:77-81 | the editor starts with the caller's vertices and `maxVertices`, 4 unless given |
| MapSelector.MapSelector.Click | src/components/MapSelector.tsx:53-70 | the new vertex list is the clicked list of the old one at the rounded point |
| MapSelector.MapSelector.Drag | src/components/MapSelector.tsx:105-109 | slot `index` gets the rounded point; every other slot is unchanged |
| MapSelector.MapSelector.Reset | src/components/MapSelector.tsx:112-116 | the vertex list becomes `maxVertices` empty slots |
| AdminPage.WithCoordinate | src/components/AdminPage.tsx:22 | the chosen coordinate gets the value and the other one is kept |
| AdminPage.UpdateVertex | src/components/AdminPage.tsx:20-23 | same length; the vertex at `index` gets the value on the chosen axis and keeps the other axis; every other vertex is unchanged |
| AdminPage.UpdateOutOfRange | src/components/AdminPage.tsx:21-23 | an index outside the list leaves it unchanged |
| AdminPage.UpdateSameValue | src/components/AdminPage.tsx:20-23 | typing the value a coordinate already has changes nothing |
| AdminPage.UpdateLastWins | src/components/AdminPage.tsx:20-24 | of two edits to the same coordinate, the later wins |
| AdminPage.UpdateAxesCommute | src/components/AdminPage.tsx:20-24 | edits to the x and y of a vertex commute |
| AdminPage.AdminPage.constructor | src/components/AdminPage.tsx:5-14 | the form starts with four empty vertices, not saved |
| AdminPage.AdminPage.HandleVertexChange | src/components/AdminPage.tsx:20-26 | the vertices become the updated list and `saved` becomes false |
| AdminPage.AdminPage.HandleSave | src/components/AdminPage.tsx:28-32 | `saved` becomes true and the vertices stay as they were |
| NoLoc.ToFixed | src/components/NoLoc.tsx:23-24 | `Math.floor(v * 1e6)` is the integer `k` with `k <= v * 10^6 < k + 1` |
| NoLoc.PositionToNoirPoint | src/components/NoLoc.tsx:22-25 | x is the floor of the longitude times 10^6 and y the floor of the latitude times 10^6 |
| NoLoc.CornerToNoirPoint | src/components/NoLoc.tsx:27-30 | a `[lat, lon]` corner gives x = floor(lon × 10^6) and y = floor(lat × 10^6) |
| NoLoc.FormatRegion | src/components/NoLoc.tsx:27-30 | one point per corner, in the same order, each the floor of the corner's longitude and latitude times 10^6 |
| NoLoc.FloorTowardNegativeInfinity | src/components/NoLoc.tsx:23-24 | -0.0000005 degrees converts to -1, not 0; +0.0000005 converts to 0 |
| NoLoc.FixedQuantisation | src/components/NoLoc.tsx:23-30 | read back at 10^6, a converted coordinate is at most 10^-6 below the original and never above it |
| NoLoc.ToFixedMonotone | src/components/NoLoc.tsx:23-30 | the conversion never reverses the order of two coordinates |
| NoLoc.ReadingAtCornerMatchesCorner | src/components/NoLoc.tsx:22-30 | a reading equal to a region corner gives the same point as that corner |
| NoLoc.AnonLocButton.constructor | src/components/NoLoc.tsx:11-13 | the button starts not loading and without an error |
| NoLoc.AnonLocButton.HandleClick | src/components/NoLoc.tsx:16-41 | while pending: loading and no error; with a reading, the prover gets the formatted region and point; afterwards not loading, and the error is "Failed to generate proof." exactly when the reading or the proof failed |

## Findings

| source | as written | input that shows it | evidently intended | confidence | as-written member | corrected member |
|---|---|---|---|---|---|---|
| src/components/MapSelector.tsx:105-109 | `handleMarkerDrag(idx, …)` receives the index of a marker among the filled vertices and writes it as an index into the full vertex list | vertices `[(0,0), (5,5)]`: the only marker shows (5,5); dragging it to (0.07, 0.07) gives `[(7,7), (5,5)]`, two markers | the dragged marker moves to the new position and no marker is added | medium, not executed | MapSelector.DragByMarkerIndexAddsMarker | MapSelector.MarkerDragMovesMarker |

The bug needs an empty slot before a filled one. The lists that `Reset`
and `Click` produce never have one (`MapSelector.ClicksFromReset`), and on
such lists the two drags agree (`MapSelector.PackedMarkerIndex`). A caller's
initial list, or a drag onto (0, 0), can create one. The class keeps the
drag as written. The corrected drag is `MapSelector.MarkerDragged`.

## Left out

- Wallet connection, `RpcProvider`, and the contract calls `verify_proof`
  and `get_vertices` are network I/O. How the connection ends is the
  parameter `connection` of `VerifyProof.VerifyWith`; the contract call is
  its parameter `call`, which returns a result or a rejection reason. The
  outcome of the `get_vertices` call is the input of
  `VerifyProof.GetVertices`. The RPC node URL and the contract address are
  not modelled.
- Logging (`console.log`, `console.error`) is left out. The `catch` that
  rethrows in `verifyProof` and `getVertices` appears as the `Err` result,
  carrying the error of whichever step threw first.
- Proof generation (`generateProof`, the Noir circuit, the proving backend)
  and the location hook are external. `NoLoc.AnonLocButton.HandleClick`
  takes their outcomes as parameters: the reading or its failure, and
  whether proving and the `onProofGenerated` callback completed.
- `NoLoc.AnonLocButton.HandleClick`: the `pending` flags are a ghost
  out-parameter that records the state React would render while the
  attempt awaits. The button's `disabled={loading}` is not modelled.
- Numbers are real numbers or integers, not IEEE doubles. `v * 1e6`,
  `v * 100` and `y / 100` are exact here. Rounding error in the double
  product, NaN and infinities are not modelled.
- `VerifyProof.Scalar`: a JavaScript number in a proof is an integer.
  `Number.toString` of a fraction (`"1.5"`) would make `BigInt` throw, like
  integers from 1e21 up, which use exponent notation. The model treats the
  latter as throwing and does not represent fractions.
- `VerifyProof.BigIntOf`: between 2^53 and 1e21 in magnitude,
  `Number.toString` writes the shortest digits that round back to the same
  double (`(2**60).toString()` is `"1152921504606847000"`), so the felt is
  the hex of that rounded value. The model reads such a number as its exact
  integer, and its contract, `VerifyProof.IntegersConvert` and
  `VerifyProof.SameValueSameFelt` promise the number's own value only up to
  2^53.
- `VerifyProof.Proof`: the order of `Object.values` is taken as the given
  sequence of field values. Objects, `undefined`, and arrays nested deeper
  than the proof type allows are not modelled. `undefined` is treated like
  `null`.
- `AdminPage.AdminPage.HandleVertexChange`: the text of the input goes
  through `Number(value)`. The model takes the resulting integer, so
  non-numeric text (`NaN`) and fractions are not modelled.
- `AdminPage.AdminPage.HandleSave`: `e.preventDefault()` and the log of
  the vertices are left out. The wallet connect/disconnect buttons and the
  rendering of the form are not part of this model.
- `MapSelector.MapSelector.Drag` requires `index < |vertices|`. The marker
  index is always below the number of markers, which is at most the number
  of vertices. Writing past the end of a JavaScript array, which creates
  holes, is not modelled.
- `MapSelector.MapSelector`: `onChange` is modelled as the editor's own
  update of `vertices`. The parent re-rendering with the new list, the
  `markers` state refreshed by an effect, Leaflet rendering, icon set-up and
  the map's initial centre are left out.
- Integer width: coordinates are unbounded integers; felt252 and
  fixed-width integer limits are not modelled.
- The deploy scripts, `App.tsx`, `GpsPage.tsx`, `src/zk/generateProof.ts`
  and `useLocation.ts` are not part of this model.
