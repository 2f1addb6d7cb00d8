# Argo wizard value converters

This project models the value converters of the Argo CD application wizard
(`wizards/Argo/ArgoWizard.tsx`). The wizard binds each input to a path of the
`Application` document it builds. A pair of converters translates between
the value an input shows and the data stored at that path:

- the repository type tiles (`'Git'` / `'Helm'`) against the `source` object;
- the sync option checkboxes (`PruneLast`, `Replace`, `ApplyOutOfSyncOnly`,
  `CreateNamespace`, `Validate`) against `Key=true|false` entries of
  `spec.syncPolicy.syncOptions`;
- the prune propagation checkbox and select against the
  `PrunePropagationPolicy=<policy>` entry of the same list.

`js_values.dfy` (module `JsValues`) models the JavaScript side:

- `Value` is what the converters receive as `unknown`.
- An array is `Arr(ref)`, a reference to a `JsArray` object. It has identity, as in JavaScript.
- `JsArray` holds its entries in `elems`.
- Its methods model the array operations the writers use: `push`, index assignment, `splice(i, 1)` and `findIndex` with the prefix callback.

`argo_wizard.dfy` (module `ArgoWizard`) models the converters:

- The readers are functions. They read the stored array through `reads Footprint(stored)`.
- The list writers are methods. They change the caller's array in place and return that same object, or return a fresh one when the path holds no array.
- Each writer's postcondition gives the new entries as a function of the old ones (`SetOrAppend`, `PolicyToggled`).
- Lemmas about those functions state the properties. These are the round trips through the readers, idempotence, "only the first prefixed entry is touched", and the count of prefixed entries.

The curried `booleanToSyncOptions(key)` and `syncOptionsToBoolean(key)` take
`key` as an ordinary first parameter.

## Model

| member | source | states |
|---|---|---|
| `JsValues.FirstWithPrefix` | wizards/Argo/ArgoWizard.tsx:403 | `findIndex` with the prefix callback gives -1 exactly when no string entry starts with the prefix. Otherwise it gives an index whose entry starts with it and before which none does. |
| `JsValues.JsArray.FindIndexWithPrefix` | wizards/Argo/ArgoWizard.tsx:403 | The front-to-back scan returns the first index of a string entry starting with the prefix, or -1. |
| `JsValues.JsArray.constructor` | wizards/Argo/ArgoWizard.tsx:401 | A writer whose path holds no array starts from a new empty array. |
| `JsValues.JsArray.SetAt` | wizards/Argo/ArgoWizard.tsx:406 | Index assignment replaces that one entry and keeps the others. |
| `JsValues.JsArray.Push` | wizards/Argo/ArgoWizard.tsx:408 | `push` appends one entry at the end. |
| `JsValues.JsArray.SpliceOne` | wizards/Argo/ArgoWizard.tsx:437 | `splice(i, 1)` removes entry `i` and keeps the rest in order. |
| `ArgoWizard.RepositoryTypeToSource` | wizards/Argo/ArgoWizard.tsx:366-382 | 'Git' and 'Helm' become a source object with `repoURL` and `targetRevision`, all fields empty strings. Every other input is returned unchanged. |
| `ArgoWizard.SourceToRepositoryType` | wizards/Argo/ArgoWizard.tsx:384-393 | The result is 'Git', 'Helm' or undefined. It is undefined for anything that is not a plain object, including null and arrays. A tile is selected only if `repoURL` and `targetRevision` are present. |
| `ArgoWizard.RepositoryTypeRoundTrip` | wizards/Argo/ArgoWizard.tsx:366-393 | Reading back the source written for 'Git' or 'Helm' gives that same type. |
| `ArgoWizard.RepositoryTypeDependsOnKeysOnly` | wizards/Argo/ArgoWizard.tsx:384-393 | Two sources with the same keys get the same tile, so editing the field values does not change the tile. |
| `ArgoWizard.Elements` | wizards/Argo/ArgoWizard.tsx:397-402 | A writer starts from the stored array's entries, or from no entries when the path holds a non-array. |
| `ArgoWizard.ArrayToEdit` | wizards/Argo/ArgoWizard.tsx:397-402 | Each writer edits the caller's own array object, which is aliased, not copied. A path holding anything else gets a fresh array. In both cases the entries are `Elements` of the stored value. |
| `ArgoWizard.SetOrAppendEdits` | wizards/Argo/ArgoWizard.tsx:403-411 | Writing `Key=value` keeps the length exactly when some string entry starts with `Key=`, and otherwise grows it by one. Afterwards the first `Key=` entry is the new entry, at the old first index or at the end. Every other entry is unchanged. |
| `ArgoWizard.SetOrAppendCount` | wizards/Argo/ArgoWizard.tsx:403-411 | The writer keeps the number of `Key=` entries, or makes it one if it was zero. So "at most one such entry" is preserved. |
| `ArgoWizard.SyncOptionEntry` | wizards/Argo/ArgoWizard.tsx:406-408 | The written entry `Key=true` or `Key=false` starts with `Key=`. |
| `ArgoWizard.BooleanToSyncOptions` | wizards/Argo/ArgoWizard.tsx:395-413 | A boolean sets or appends the `Key=` entry in the caller's own array, and a non-array path gets a fresh array. A non-boolean leaves the entries alone. Afterwards, writing `true` reads back as checked. |
| `ArgoWizard.SyncOptionsToBoolean` | wizards/Argo/ArgoWizard.tsx:415-420 | Checked only if the value is an array with a `Key=` entry, so a non-array reads as unchecked. |
| `ArgoWizard.BooleanReadBack` | wizards/Argo/ArgoWizard.tsx:395-420 | Writing `true` always reads back `true`. Writing `false` reads back `false` when the list had at most one `Key=` entry. |
| `ArgoWizard.OnlyEntryIsFalse` | wizards/Argo/ArgoWizard.tsx:415-418 | If the only `Key=` entry of a list is `Key=false`, the list holds no `Key=true` entry for `includes` to find. |
| `ArgoWizard.BooleanFalseHiddenByLaterTrue` | wizards/Argo/ArgoWizard.tsx:403-418 | Writing `false` over `[Replace=false, Replace=true]` still reads `true`, so the condition on the false case is needed. |
| `ArgoWizard.CheckboxPrunePropagationPolicyToSyncOptions` | wizards/Argo/ArgoWizard.tsx:422-442 | A boolean toggles the `PrunePropagationPolicy=` entry in the caller's own array. A non-boolean leaves it alone. Setting the box reads back as checked. |
| `ArgoWizard.FindWithPrefix` | wizards/Argo/ArgoWizard.tsx:447 | `find` gives undefined exactly when no string entry starts with the prefix. Otherwise it gives the first entry that does. |
| `ArgoWizard.CheckboxSyncOptionsToPrunePropagationPolicy` | wizards/Argo/ArgoWizard.tsx:444-449 | Checked if and only if the value is an array with a string entry starting with `PrunePropagationPolicy=`. |
| `ArgoWizard.PolicyToggleOnIdempotent` | wizards/Argo/ArgoWizard.tsx:429-434 | Setting the checkbox twice gives the same list as setting it once. |
| `ArgoWizard.PolicyToggleOnAdds` | wizards/Argo/ArgoWizard.tsx:429-434 | Setting the checkbox changes nothing if and only if a prefixed entry exists. Otherwise it appends `PrunePropagationPolicy=background`. |
| `ArgoWizard.PolicyToggleOnCount` | wizards/Argo/ArgoWizard.tsx:429-434 | After setting the checkbox there is at least one prefixed entry. There is exactly one if there was at most one before. |
| `ArgoWizard.PolicyToggleOffRemovesFirst` | wizards/Argo/ArgoWizard.tsx:435-440 | Clearing the checkbox removes exactly the first prefixed entry and keeps the rest in order. With no prefixed entry the list is unchanged. |
| `ArgoWizard.PolicyToggleOffCount` | wizards/Argo/ArgoWizard.tsx:435-440 | Clearing the checkbox leaves one prefixed entry fewer, or none if there were none. |
| `ArgoWizard.PolicyToggleOffMultiset` | wizards/Argo/ArgoWizard.tsx:435-440 | Clearing the checkbox takes exactly the removed entry out of the multiset of entries. |
| `ArgoWizard.CheckboxReadBack` | wizards/Argo/ArgoWizard.tsx:422-449 | The checkbox reads back what was written: always when set, and when cleared if there was at most one prefixed entry. |
| `ArgoWizard.PrunePropagationPolicyToSyncOptions` | wizards/Argo/ArgoWizard.tsx:451-467 | A string sets or appends `PrunePropagationPolicy=<value>` in the caller's own array. A non-string leaves it alone. Afterwards the select reads back that string. |
| `ArgoWizard.SyncOptionsToPrunePropagationPolicy` | wizards/Argo/ArgoWizard.tsx:469-481 | The result is 'background' for a non-array or a list without a prefixed entry. Otherwise the first prefixed entry is exactly the prefix followed by the result. |
| `ArgoWizard.PolicyReadBack` | wizards/Argo/ArgoWizard.tsx:451-481 | For every string `v`, the select reads back `v` after writing it, and the checkbox then reads as checked. |
| `ArgoWizard.CheckboxOnShowsDefaultPolicy` | wizards/Argo/ArgoWizard.tsx:429-481 | Setting the checkbox on a list with no prefixed entry makes the select show 'background'. Otherwise it keeps showing the existing policy. |
| `ArgoWizard.CheckboxOffShowsDefaultPolicy` | wizards/Argo/ArgoWizard.tsx:435-481 | Clearing the checkbox on a list with at most one prefixed entry makes the select show 'background'. |
| `ArgoWizard.CheckboxOffKeepsLaterPolicy` | wizards/Argo/ArgoWizard.tsx:435-481 | Clearing the checkbox on `[PrunePropagationPolicy=foreground, PrunePropagationPolicy=orphan]` leaves the second entry, so the select shows 'orphan'. The at-most-one condition is therefore needed. |

## Left out

- The React components in `wizards/Argo/ArgoWizard.tsx` (`ArgoWizard`, `DeploymentWindow`, `TimeWindow`, `ExternalLinkButton`) are left out. They are declarative markup and configuration with no logic of their own.
- `src/FormWizard.tsx` (page chrome, template rendering, YAML conversion, `localStorage`, step list), `src/contexts/ShowValidationProvider.tsx` and the example files are not part of this model. They hold no converter logic.
- `ArgoWizard.SourceToRepositoryType`: the `in` operator also sees inherited properties and properties attached to arrays. Sources are modelled as own-key maps. The model assumes no stored source is an array with a `repoURL` property, because the wizard never stores one.
- `ArgoWizard.RepositoryTypeToSource`: a JavaScript object keeps its key order, which decides the order of the emitted YAML. A Dafny `map` has no order, so that order is not modelled.
- Strings are sequences of characters. JavaScript's UTF-16 code units are not distinguished from characters, which does not affect the ASCII prefixes used here.
- `JsValues.JsArray`: sparse arrays, holes and out-of-range index assignment are not modelled. The writers only assign at an index `findIndex` returned, or push.
- Numbers, functions and other values none of the converters inspects are a single `Other` constructor.
