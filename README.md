# Browser watermark overlay, modelled in Dafny

The repository draws a tiled text watermark over a web page as two full-page
`div` layers: a visible mask and a faint "shadow" layer that carries a hash of
the text. It then keeps both layers in place against removal and tampering.
This project models both variants of that machinery:

- `src/main.js`, the bundled build:
  - random layer ids and a canvas cache;
  - an integrity check that re-parents, restores or recreates a layer;
  - a MutationObserver filter feeding a debounced repair;
  - a 1500 ms interval;
  - visibility listeners;
  - the `set` / `remove` / `getConfig` lifecycle.
- `index.js`, the older variant:
  - fixed layer ids and fixed drawing settings;
  - an observer whose callback redraws a layer only when no element bears its id.

The page is a sequence of elements in tree order (`Dom.Elem`). Consequences:

- `getElementById` finds the first element bearing an id;
- `removeNode` removes only that one;
- duplicate ids are possible, as in a real page;
- an element's identity is its `serial`.

Computed style is already decoded into fields of the element (display,
visibility, opacity, z-index, parent is body). A flag records whether the
style lock of `createWatermarkElement` took effect.

The host's answers are parameters of the methods. They are:

- the data URI a canvas yields (`''` on failure);
- whether `document.body.appendChild` succeeds;
- the random part of a generated id;
- the mutation records an observer receives;
- the current time.

Observer deliveries, debounce timers, interval ticks and the page becoming
visible are explicit method calls.

Files:

- `dom.dfy`: the document and `getElementById` / `removeNode`.
- `hex.dfy`: `toString(16)` and its inverse.
- `djb2.dfy`: the hash of `src/main.js`.
- `times33.dfy`: the hash of `index.js`.
- `debounce.dfy`: the debounce.
- `layer_config.dfy`: the render config of `src/main.js`.
- `mutation_filter.dfy`: the observer filter of `src/main.js`.
- `overlay.dfy`: the session of `src/main.js`.
- `legacy_overlay.dfy`: the session of `index.js`.
- `wrappers.dfy`: `Option`.

## Model

| member | source | states |
|---|---|---|
| JsHex.ToHex | src/main.js:55-57 | `toString(16)` of a non-negative integer is a lowercase digit string without leading zeros, starting with '0' exactly for zero |
| JsHex.ParseToHex | src/main.js:55-57 | reading the printed digits back gives the number |
| JsHex.ToHexParse | index.js:22-24 | printing the value of any canonical digit string gives that string back |
| JsHex.ToHexInjective | src/main.js:55-57 | distinct numbers print differently |
| JsHex.ToHexLength | src/main.js:55-57 | a number below 16^k prints with at most k digits |
| Djb2.Int32 | src/main.js:50 | ToInt32 yields the signed 32-bit value congruent to its argument modulo 2^32 |
| Djb2.AccumulatorMod | src/main.js:47-53 | the unreduced JavaScript accumulator `(h << 5) + h + c` is congruent modulo 2^32 to the DJB2 fold `h := (33h + c) mod 2^32` from 5381 |
| Djb2.AccumulatorBound | src/main.js:47-53 | each character moves the accumulator by a bounded amount |
| Djb2.AccumulatorExact | src/main.js:47-53 | for strings of up to 2^21 characters the accumulator stays below 2^53 in magnitude, so every double in the loop is exact |
| Djb2.HashCode | src/main.js:47-53 | the loop followed by `>>> 0` returns the DJB2 fold, a value in [0, 2^32) |
| Djb2.HashShort | src/main.js:55-57 | the short hash is 1 to 8 lowercase hex digits without leading zeros |
| Djb2.HashShortParses | src/main.js:55-57 | the short hash reads back as the hash value |
| Djb2.HashShortEmpty | src/main.js:47-57 | the empty string hashes to the seed 5381, printed "1505" |
| Djb2.Djb2Split | src/main.js:49-51 | the fold runs left to right: the hash of a + b continues the fold of a over b |
| Times33.Times33Split | index.js:17-19 | the fold runs from the last character to the first: the hash of a + b continues the fold of b over a |
| Times33.HashCode | index.js:14-21 | the `while (index)` loop with `--index` computes `h := (33h mod 2^32) xor c` from 5381 over the string reversed, returned unsigned, below 2^32 |
| Times33.HashShort | index.js:22-24 | the short hash is 1 to 8 lowercase hex digits without leading zeros |
| Times33.HashShortParses | index.js:22-24 | the short hash reads back as the hash value |
| Times33.HashShortEmpty | index.js:14-24 | the empty string maps to 5381, printed "1505" |
| Debounce.RunSplit | src/main.js:26-32 | running two event sequences one after the other is running their concatenation |
| Debounce.BurstDefers | src/main.js:26-32 | within a burst the function never runs and the pending deadline is `wait` after the latest call |
| Debounce.BurstRunsOnce | src/main.js:26-32 | a call, a burst, then a timer at t: the function ran exactly once if t is at least `wait` after the last call, else not at all and still pending, whatever was pending before |
| LayerConfig.ShadowIgnoresCaller | src/main.js:154-165 | two option sets that agree on title and subtitle derive the same shadow config |
| LayerConfig.ShadowLayer | src/main.js:154-165 | the shadow config: 120x120, angle 30, '22px', z-index 10001, opacity 1, lines `hashShort(title)` and `hashShort(subtitle)` of 1 to 8 digits |
| LayerConfig.ShadowWithoutTitle | src/main.js:146-157 | without title and subtitle the shadow layer draws "1505" twice |
| LayerConfig.VisibleLayer | src/main.js:146-176 | the visible config: title followed by " 哉", empty second line, width, height, angle, font size and alpha passed through with defaults 240 / 180 / -20 / '22px' / 0.2, z-index 10000, opacity 0.5 |
| LayerConfig.ZIndexSelectsLayer | src/main.js:154-176 | the derived z-index is 10001 for the shadow layer and 10000 for the mask, the shadow above |
| LayerConfig.RestoreMatchesCreation | src/main.js:218 | without a caller opacity (or with 0) the restore writes the opacity the layer was created with |
| LayerConfig.RestoreStillHidden | src/main.js:214-218 | the restored opacity is below 0.01 exactly when the caller passed a non-zero opacity below 0.01 |
| MutationFilter.CountTriggers | src/main.js:257-276 | the count of triggering records is zero exactly when no record triggers |
| MutationFilter.ScanRecords | src/main.js:257-276 | the observer loops call the debounced repair once per triggering record, and at least once exactly when some record removes the target or a node containing it, or changes `style`, `id` or `class` while the target resolves |
| Dom.Find | src/main.js:196 | the result is the first element bearing the id, and none is found only when no element bears it |
| Dom.GetElementById | src/main.js:196 | as `Find`, and the empty id never matches |
| Dom.RemoveByIdFound | src/main.js:35-44 | `removeNode` takes out exactly the element `getElementById` finds, and nothing when none is found |
| Dom.RemoveByIdCount | src/main.js:35-44 | `removeNode` lowers the count of elements bearing the id by one when there is one, and leaves it at zero otherwise |
| Dom.RemoveByIdOthers | index.js:7-12 | on the flat page, where an element has no children, `removeNode` leaves the number of elements bearing another id unchanged |
| Dom.RemoveByIdKeepsLast | src/main.js:362-364 | removing an id that a trailing element does not bear keeps that element last |
| Dom.ReplaceLeavesOne | index.js:26-72 | remove-then-append leaves exactly one element bearing the layer's id when there was at most one before |
| Dom.FindUnique | src/main.js:196 | with at most one element bearing the id, `getElementById` finds that element |
| Dom.MoveToEndCount | src/main.js:204-210 | moving an element back under body keeps the count of every id |
| Dom.UpdateCount | src/main.js:216-225 | style writes keep the count of every id |
| Overlay.IdsDiffer | src/main.js:350-351 | whatever the random parts, `generateId('wm')` and `generateId('_wm')` differ |
| Overlay.CacheHit | src/main.js:60-94 | after a call that yields a data URI, an equal config returns that URI whatever the host would render; a call that yields '' leaves the cache unchanged |
| Overlay.CheckIntactIsNoop | src/main.js:195-229 | an element under body, not hidden and at its z-index passes the check and is left as it is |
| Overlay.CheckIdempotent | src/main.js:195-229 | with a unique id, a check that passes leaves a document on which a second check passes and changes nothing |
| Overlay.ReparentKeepsElement | src/main.js:203-210 | a visible element outside body is moved back to the end of body, keeping its identity, and the check passes |
| Overlay.RestoreHealsButFails | src/main.js:212-220 | a hidden element that the restore heals still makes the check return false, though a second check would pass |
| Overlay.LockedStaysHidden | src/main.js:121-140 | the restore's writes are swallowed by a locked element, which stays hidden |
| Overlay.ReleaseReleased | src/main.js:326-341 | disconnecting an already disconnected observer (clearing a cleared interval) changes nothing |
| Overlay.LayersCacheServesRepairs | src/main.js:60-94 | after a `set` that made both layers, each watcher's rebuild config is cached with the URI its layer was drawn with, so a later rebuild obtains that URI whatever the host renders |
| Overlay.RebuildPasses | src/main.js:146-229 | with at most one element bearing the id, removing it and appending the newly built element leaves that element as the one `getElementById` finds, and the next check passes and changes nothing |
| Overlay.Session.constructor | src/main.js:15-23 | at load no ids, config, cache, observers, intervals or listeners |
| Overlay.Session.RemoveNode | src/main.js:35-44 | removes the first element bearing the id, if any |
| Overlay.Session.CreateWatermarkCanvas | src/main.js:60-94 | a cached config returns the cached URI; otherwise the host's render is returned and cached only when non-empty |
| Overlay.Session.SetWatermark | src/main.js:146-192 | a null layer id: null, nothing changed. Otherwise both of: (1) the element bearing the id is removed and the cache updated; (2) a new element with the derived config is appended and returned exactly when a URI is obtained and the append succeeds. One serial is used exactly when a URI is obtained, appended or not |
| Overlay.Session.CheckWatermarkIntegrity | src/main.js:195-229 | false for a missing element or a failed re-parent; a hidden element is restored and still reported false; otherwise the z-index is corrected and the result is true |
| Overlay.Session.WatchNode | src/main.js:232-323 | a detached element gets nothing; an attached one gets a new watcher whose observer is connected and whose interval runs |
| Overlay.Session.Rewatch | src/main.js:241-253 | the old observer is disconnected and its interval cleared, and the new watcher goes into the matching layer's observer and interval slots, the other layer's slots untouched |
| Overlay.Session.Rebuild | src/main.js:240-253 | `setWatermark` with the watcher's config and layer flag under the layer's current id, through the cache: cache and serials as `SetWatermark`; when it yields an element, the old watcher stops and a new one of that element takes the layer's slots; otherwise the layer's element is gone and the watcher bookkeeping unchanged (`RebuildFrom`) |
| Overlay.Session.RepairPass | src/main.js:237-255 | check with the user config; a passing check changes the checked element and nothing else; a failing one is followed by `Rebuild` from the state the check left (`RepairedFrom`) |
| Overlay.Session.DeliverMutations | src/main.js:257-277 | a connected observer reschedules its debounced repair 50 ms from now exactly when some record triggers; a disconnected one does nothing |
| Overlay.Session.DebounceElapsed | src/main.js:237-255 | exactly when the pending deadline has passed, the timeout is cleared and the whole repair pass follows (`RepairedFrom`), also for a watcher already disconnected; otherwise nothing changes |
| Overlay.Session.IntervalTick | src/main.js:292-310 | a cleared interval changes nothing; a running one has the whole effect of the repair pass (`RepairedFrom`) |
| Overlay.Session.Cleanup | src/main.js:326-341 | disconnects the slot observers and clears and nulls the interval slots |
| Overlay.Session.Remove | src/main.js:393-405 | cleanup, both layers' elements removed, ids, config and cache cleared; called again it changes nothing |
| Overlay.Session.GetConfig | src/main.js:408-410 | the stored copy of the last `set` argument, or null |
| Overlay.Session.CreateLayers | src/main.js:356-367 | the visible layer, then the shadow layer only when the first succeeded; serials, the resulting document, and the cache and serial counter both calls leave (`LayersCached`) |
| Overlay.Session.WatchMask | src/main.js:370-371 | a visible layer still attached gets a new connected, running watcher held in the mask's observer and interval slots |
| Overlay.Session.WatchShadow | src/main.js:373-375 | a shadow layer still attached gets a new connected, running watcher of the config with `invisible: true`, held in the shadow's observer and interval slots |
| Overlay.Session.WatchLayers | src/main.js:369-375 | when the two new layers are the last two elements, both are watched and each watcher is held in its layer's slots (`WatchedFrom`) |
| Overlay.Session.Abandon | src/main.js:386-389 | after a failed `setWatermark`, `cleanup()` leaves no new watcher or listener and null interval slots (`Unwatched`) |
| Overlay.Session.Install | src/main.js:356-389 | the document, cache and serial counter both `setWatermark` calls leave; on a failure only cleanup runs: no watcher, no listener, null interval slots (`Unwatched`); on success both layers are watched (`WatchedFrom`) and one listener registered; together `InstalledFrom` |
| Overlay.Session.Set | src/main.js:344-390 | removes the old session, draws fresh distinct ids, stores the config, then the whole outcome of `Install`, the cache starting empty |
| Overlay.Session.SetAbsent | src/main.js:344-390 | `set()` with no, an undefined or a null argument: the old session removed, fresh ids, `{}` stored as the config, the destructuring in `setWatermark` throws before any URI is requested, and the catch's `cleanup()` leaves no new watcher or listener and both intervals null |
| Overlay.Session.VisibilityRegained | src/main.js:377-385 | every registered listener checks both layers, in order, with its own captured config |
| LegacyOverlay.LayerSetup | index.js:26-44 | visible: 148, -30, z-index 10000, '24px Arial', grey 0.1, `str1` and `hashShort(str2)`; shadow: 120, 30, z-index 10001, '22px Arial', light grey 0.05, `hashShort(str1)` of 1 to 8 digits and an empty line |
| LegacyOverlay.RepairedRestores | index.js:122-128 | after a repair callback an element bears the layer's id |
| LegacyOverlay.RepairedKeepsPresent | index.js:122-135 | a callback whose layer is present changes nothing |
| LegacyOverlay.QuietNodes | index.js:89-95 | removed nodes none of which bears the target's id change nothing |
| LegacyOverlay.NodesRestore | index.js:89-95 | a removed node bearing the target's id leaves the layer present |
| LegacyOverlay.QuietRecord | index.js:87-104 | a record that does not fire changes nothing |
| LegacyOverlay.RecordRestores | index.js:87-104 | a record that fires leaves the layer present, including an `id` or `style` change that first removes the element bearing the node's current id |
| LegacyOverlay.BatchRestores | index.js:86-106 | a batch in which some record fires ends with the layer present; one in which none fires changes nothing |
| LegacyOverlay.RepairedReconnects | index.js:108-110 | a callback disconnects nothing and connects at most the slot's observer; a redraw connects it again, even after `remove` disconnected it |
| LegacyOverlay.NodesConnect | index.js:89-95 | the removed-node loop disconnects nothing and connects at most the slot's observer |
| LegacyOverlay.BatchConnects | index.js:86-106 | a batch disconnects nothing and connects at most the slot's observer |
| LegacyOverlay.NoDescendantCheck | index.js:89-95 | removing a node that holds the target without bearing its id does not fire here, while the filter of src/main.js fires on it |
| LegacyOverlay.SetThenRemove | index.js:119-143 | from at most one element per layer id, `set` leaves exactly one per layer id and a following `remove` leaves none |
| LegacyOverlay.Session.constructor | index.js:1-5 | fixed ids, null observer slots |
| LegacyOverlay.Session.RemoveNode | index.js:7-12 | removes the first element bearing the id, if any |
| LegacyOverlay.Session.SetWatermark | index.js:26-72 | removes the element bearing the layer's fixed id, then appends a new layer element at the layer's z-index and returns it |
| LegacyOverlay.Session.WatchNode | index.js:74-117 | a detached element gets nothing; an attached one gets a connected observer watching the element |
| LegacyOverlay.Session.Set | index.js:119-136 | both layers replaced, mask first, and each watched by a new observer stored in its slot; `str2` defaults to '' |
| LegacyOverlay.Session.Remove | index.js:138-143 | both layers' elements removed; before any `set` reading the null slot throws, otherwise both slot observers are disconnected |
| LegacyOverlay.Session.Callback | index.js:122-135 | the layer is redrawn only when no element bears its id; the new element is then watched through the layer's current slot, whose observer is connected again |
| LegacyOverlay.Session.Deliver | index.js:86-106 | a disconnected observer does nothing; a connected one handles the records in order, one callback per removed node bearing the target id and per `id` / `style` change, as `AfterRecords`, observers the callbacks reconnect included |
| Dom.RemoveById | src/main.js:35-44 | definition: the document without the first element bearing the id |
| Debounce.Step | src/main.js:26-32 | definition: a call re-arms the timeout `wait` after it; a due timer clears it and runs the function |
| Djb2.JsAccumulator | src/main.js:47-53 | definition: the loop's accumulator as JavaScript computes it, `(h << 5)` through ToInt32 |
| Djb2.Djb2 | src/main.js:47-53 | definition: the reference DJB2 fold, `h := (33h + c) mod 2^32` from 5381 |
| Times33.Times33 | index.js:14-21 | definition: the reference fold `h := (33h mod 2^32) xor c` over the string read from its last character |
| LayerConfig.ZIndexFor | src/main.js:163-174 | definition: 10001 for the shadow layer, 10000 for the mask |
| LayerConfig.InvisibleFlag | src/main.js:146-147 | definition: the layer flag, `invisible` defaulting to false |
| LayerConfig.ShadowConfig | src/main.js:154-165 | definition: the shadow layer's render config |
| LayerConfig.VisibleConfig | src/main.js:166-176 | definition: the visible layer's render config, with the destructuring defaults |
| LayerConfig.DeriveConfig | src/main.js:146-176 | definition: the config `setWatermark` renders, chosen by the layer flag |
| LayerConfig.RestoreOpacity | src/main.js:218 | definition: `config.opacity || (isInvisible ? 1 : 0.5)` |
| MutationFilter.NodeMatches | src/main.js:262-264 | definition: a removed node bears the target id or holds an element bearing it |
| MutationFilter.WatchedAttribute | src/main.js:271 | definition: `style`, `id` or `class` |
| MutationFilter.RecordTriggers | src/main.js:259-274 | definition: when one record makes the observer call the debounced repair |
| Overlay.GenerateId | src/main.js:10-13 | definition: prefix, '_' and the host's random and clock parts |
| Overlay.IdText | src/main.js:381-382 | definition: the id looked up for a nulled slot is "null" |
| Overlay.NewElement | src/main.js:97-143 | definition: the div `createWatermarkElement` builds, under body, visible, with `config.opacity || 0.5` |
| Overlay.Hidden | src/main.js:213-214 | definition: display none, visibility hidden or opacity below 0.01 |
| Overlay.Restored | src/main.js:216-218 | definition: the three restore writes, swallowed by a locked element |
| Overlay.IntegrityHolds | src/main.js:195-229 | definition: the result of `checkWatermarkIntegrity` |
| Overlay.CheckedDoc | src/main.js:195-229 | definition: the document `checkWatermarkIntegrity` leaves |
| Overlay.Release | src/main.js:326-341 | definition: `disconnect` / `clearInterval` on the watcher a slot holds |
| Overlay.RemoveSlot | src/main.js:395-402 | definition: `removeNode` of an id slot that may be null |
| Overlay.LayersDoc | src/main.js:356-367 | definition: the document `set`'s two `setWatermark` calls leave |
| Overlay.ListenerChecks | src/main.js:377-385 | definition: every listener's two checks, in registration order |
| Overlay.RepairOptions | src/main.js:240 | definition: `{...config, invisible: isInvisible}` |
| Overlay.CachedUrl | src/main.js:60-94 | definition: the data URI `createWatermarkCanvas` returns |
| Overlay.CacheAfter | src/main.js:60-94 | definition: the cache after `createWatermarkCanvas` |
| Overlay.SerialsUsed | src/main.js:178-183 | definition: an element is created once a data URI is obtained |
| Overlay.LayersCache | src/main.js:356-367 | definition: the cache after `set`'s two `setWatermark` calls |
| Overlay.LayersSerials | src/main.js:356-367 | definition: the elements those two calls create |
| Overlay.Session.LayerId | src/main.js:147 | definition: the id the layer's slot holds now |
| Overlay.Session.Removed | src/main.js:393-405 | definition: the state `remove` leaves |
| Overlay.Session.RebuildMakes | src/main.js:240-241 | definition: the rebuild yields a new element |
| Overlay.Session.RebuildFrom | src/main.js:240-253 | definition: the state the rebuild leaves |
| Overlay.Session.RepairedFrom | src/main.js:237-255 | definition: the state a repair pass leaves |
| Overlay.Session.LayersCached | src/main.js:356-367 | definition: the cache and serial counter after `set`'s two `setWatermark` calls |
| Overlay.Session.WatchedFrom | src/main.js:369-375 | definition: the bookkeeping both `watchNode` calls of `set` leave |
| Overlay.Session.Unwatched | src/main.js:386-389 | definition: the bookkeeping a failed `set` leaves |
| Overlay.Session.InstalledFrom | src/main.js:356-389 | definition: the outcome of building, watching and registering, or of the failure |
| LegacyOverlay.LayerId | index.js:1-2 | definition: the fixed id of each layer |
| LegacyOverlay.LayerElement | index.js:60-71 | definition: the div `setWatermark` appends |
| LegacyOverlay.NodeFires | index.js:91 | definition: a removed node bearing the target id |
| LegacyOverlay.RecordFires | index.js:87-104 | definition: when a record makes the observer run the callback |
| LegacyOverlay.Observe | index.js:108-110 | definition: `watch` registers the slot's observer on the new element |
| LegacyOverlay.Repaired | index.js:122-135 | definition: the repair callback's effect on the page |
| LegacyOverlay.AfterNodes | index.js:90-94 | definition: the loop over a record's removed nodes |
| LegacyOverlay.AfterRecord | index.js:88-104 | definition: one record as the observer's `switch` handles it |
| LegacyOverlay.AfterRecords | index.js:86-106 | definition: the observer callback on a batch |
| LegacyOverlay.SetDoc | index.js:119-121 | definition: the document `set` leaves |
| LegacyOverlay.Session.Slot | index.js:126-133 | definition: the slot a layer's callback re-watches through |

## Left out

- Canvas drawing (`getContext`, `rotate`, `fillText`, `toDataURL`) is a browser API; its data URI is a parameter. In `src/main.js` a missing 2D context gives ''. In `index.js` the drawing settings are computed (`LegacyOverlay.LayerSetup`), but the URI is a parameter, and the failures of `getContext` and `appendChild` (which throw there) are not modelled.
- `Object.defineProperty` style locking is reduced to a flag: a locked element ignores writes to display, visibility and opacity. The getters it installs are not modelled.
- `generateId`'s `Math.random` and `Date.now` are a string parameter; only its shape and the prefixes are kept.
- MutationObserver, `setTimeout`, `setInterval` and `visibilitychange` are host machinery. Their effects are explicit method calls.
- The 100 ms delay of the visibility check is not timed; the check runs when the call is made.
- A listener is added on every successful `set` and never removed; all of them run.
- `getComputedStyle`, `parseFloat` and `parseInt` are already decoded into the element's fields.
- Overlay.Session.CheckWatermarkIntegrity: the decoded style fields do not change when the element is moved under body. Computed `visibility` is inherited, so an element hidden only by a `visibility: hidden` ancestor reads visible after the move in a browser and passes; the model keeps it hidden, restores it and returns false (`Overlay.CheckedDoc` likewise).
- The `rgba(...)` colour text and its alpha are opaque strings.
- `JSON.stringify(config)` as the cache key is taken as injective on configs: the cache is keyed by the config itself.
- Options are values, not references. In `src/main.js` the mask watcher and every visibility listener keep the caller's own options object, and each repair re-reads it (`{...config, invisible}` and `config.opacity`), while `getConfig` and the shadow layer hold copies. So a caller who mutates the object passed to `set` afterwards changes later rebuilds, restores and listener checks of the mask, but not `getConfig` or the shadow layer. The model does not capture this aliasing.
- Dom.RemoveByIdOthers: the page is a flat sequence of elements without children. In a browser `removeChild` and `appendChild` take the whole subtree, so removing an element that holds another layer's element (after a script re-parents one into the other) removes that one too. The model leaves descendants in place on every removal and move, including the re-parent of `Overlay.CheckedDoc`, and a mutation record's `descendantIds` need not correspond to any element of the page.
- Widths, heights and angles are integers, and options hold no null values.
- Characters are single UTF-16 code units: a character outside the Basic Multilingual Plane, two units in JavaScript, is one `char` here.
- Djb2.HashCode: exact for strings of up to 2^21 characters (`Djb2.AccumulatorExact`). Beyond that, JavaScript's doubles may round, and the model does not follow them.
- `watchNode`'s returned `watch` function of `src/main.js` is never called by the source, so it is not modelled.
- Console logging is left out.
- Overlay.Session.Set: takes an options object; `set()`, `set(undefined)` and `set(null)` are `Overlay.Session.SetAbsent`, and arguments that are not objects (numbers, strings) are not modelled. The full outcome is stated only for options without `invisible: true`. For those, the first `setWatermark` builds the mask; with `invisible: true` both calls target the shadow id and only the ids, the config, the cache, the serial counter and the invariants are stated.
- Overlay.Session.Install: the same restriction as `Set`.
- Overlay.Session.CreateLayers: the same restriction as `Set`; the serials and the cache are stated for all options.
- Freshness of serials against the page's elements is not an invariant; serials only count up from the page's largest.
- LegacyOverlay.Session.Deliver: which records a connected observer receives is the host's input and is not tied to its registrations. After a disconnect and a re-watch, a browser delivers only attribute records of the re-watched element, since the childList registration on body is not restored.
- LegacyOverlay.Session.Remove: when `maskObserver` is null the TypeError ends `remove` after both removals; the exception itself is the `threw` result.
