/**
 * The overlay session of src/main.js: the module-level state behind
 * `watermark.set`, `watermark.remove` and `watermark.getConfig`, the two
 * watched layers, and the repairs their observers and intervals run.
 *
 * Host events are explicit method calls: a batch of mutation records
 * delivered to an observer (`DeliverMutations`), a debounce timer coming
 * due (`DebounceElapsed`), an interval tick (`IntervalTick`) and the page
 * becoming visible again (`VisibilityRegained`).  What the host answers
 * (the canvas data URI, whether `appendChild` succeeds, the random part
 * of a fresh id) is passed in.
 */
module Overlay {
  import opened Wrappers
  import opened Dom
  import opened LayerConfig
  import Debounce
  import MutationFilter

  /**
   * The host's answers to one `setWatermark`: the data URI the canvas yields
   * ('' when no 2D context is available) and whether `document.body.appendChild`
   * succeeds.
   */
  datatype HostReply = HostReply(canvas: string, appendOk: bool)

  /** Whether a `setWatermark` with an empty cache and these answers yields an element. */
  predicate Made(h: HostReply)
  {
    h.canvas != "" && h.appendOk
  }

  /**
   * One `watchNode` closure: its arguments (`elem` is the watched element's
   * serial) and the pending timeout of its debounced repair.  Whether its
   * observer is connected and its interval running is kept by the session.
   */
  datatype Watcher = Watcher(
    targetId: Id,
    config: Options,
    isInvisible: bool,
    elem: nat,
    timeout: Option<int>)

  /** `generateId(prefix)`: the random and clock parts are the host's `entropy`. */
  function GenerateId(prefix: string, entropy: string): Id
  {
    prefix + "_" + entropy
  }

  /** Whatever the random parts, the two layers' ids differ (they start differently). */
  lemma IdsDiffer(e1: string, e2: string)
    ensures GenerateId("wm", e1) != GenerateId("_wm", e2)
  {
    assert GenerateId("wm", e1)[0] == 'w' && GenerateId("_wm", e2)[0] == '_';
  }

  /** The id a nulled slot looks up: `getElementById(null)` searches for "null". */
  function IdText(id: Option<Id>): Id
  {
    if id.Some? then id.value else "null"
  }

  /** The div `createWatermarkElement` builds; `opacity` is `config.opacity || 0.5`. */
  function NewElement(serial: nat, id: Id, c: Config, url: string, locked: bool): Elem
  {
    Elem(serial, id, true, false, false, if c.opacity != 0.0 then c.opacity else 0.5,
         c.zIndex, url, locked)
  }

  /** The integrity check's hiding test on the computed style. */
  predicate Hidden(e: Elem)
  {
    e.displayNone || e.visibilityHidden || e.opacity < 0.01
  }

  /** Under body, not hidden, and at the layer's z-index: what the check accepts unchanged. */
  predicate Intact(e: Elem, isInvisible: bool)
  {
    e.underBody && !Hidden(e) && e.zIndex == ZIndexFor(isInvisible)
  }

  /** The restore's three style writes; a locked element swallows them. */
  function Restored(e: Elem, config: Options, isInvisible: bool): Elem
  {
    if e.locked then e
    else e.(displayNone := false, visibilityHidden := false,
            opacity := RestoreOpacity(config, isInvisible))
  }

  /** What `checkWatermarkIntegrity` returns. */
  predicate IntegrityHolds(doc: seq<Elem>, id: Id, appendOk: bool)
  {
    match GetElementById(doc, id)
    case None => false
    case Some(i) => (doc[i].underBody || appendOk) && !Hidden(doc[i])
  }

  /**
   * The document after `checkWatermarkIntegrity`: an element outside body is
   * appended back to it (moving it to the end), a hidden one is restored,
   * and otherwise its z-index is set to the layer's.
   */
  function CheckedDoc(doc: seq<Elem>, id: Id, config: Options, isInvisible: bool, appendOk: bool): seq<Elem>
  {
    match GetElementById(doc, id)
    case None => doc
    case Some(i) =>
      var e := doc[i];
      if !e.underBody && !appendOk then doc
      else
        var e' := e.(underBody := true);
        var d := if e.underBody then doc else Without(doc, i) + [e'];
        var j := if e.underBody then i else |doc| - 1;
        d[j := if Hidden(e) then Restored(e', config, isInvisible) else e'.(zIndex := ZIndexFor(isInvisible))]
  }

  /** Checking an element that is already intact changes nothing and passes. */
  lemma CheckIntactIsNoop(doc: seq<Elem>, id: Id, config: Options, isInvisible: bool, appendOk: bool)
    requires GetElementById(doc, id).Some? && Intact(doc[GetElementById(doc, id).value], isInvisible)
    ensures IntegrityHolds(doc, id, appendOk)
    ensures CheckedDoc(doc, id, config, isInvisible, appendOk) == doc
  {
    var i := GetElementById(doc, id).value;
    assert doc[i := doc[i].(underBody := true).(zIndex := ZIndexFor(isInvisible))] == doc;
  }

  /**
   * When the id is unique, a check that passes leaves an intact element, so
   * a second check passes too and changes nothing more.
   */
  lemma CheckIdempotent(doc: seq<Elem>, id: Id, config: Options, isInvisible: bool, a1: bool, a2: bool)
    requires CountId(doc, id) <= 1 && IntegrityHolds(doc, id, a1)
    ensures var d := CheckedDoc(doc, id, config, isInvisible, a1);
            IntegrityHolds(d, id, a2) && CheckedDoc(d, id, config, isInvisible, a2) == d
  {
    var i := GetElementById(doc, id).value;
    var e := doc[i];
    var e' := e.(underBody := true).(zIndex := ZIndexFor(isInvisible));
    var d := CheckedDoc(doc, id, config, isInvisible, a1);
    var j := if e.underBody then i else |doc| - 1;
    if e.underBody {
      assert d == doc[i := e'];
      UpdateCount(doc, i, e', id);
    } else {
      assert d == Without(doc, i) + [e'];
      MoveToEndCount(doc, i, e', id);
    }
    FindUnique(d, id, j);
    CheckIntactIsNoop(d, id, config, isInvisible, a2);
  }

  /**
   * An element moved out of body but still visible is put back under body,
   * keeping its identity, and the check passes: it is not recreated.
   */
  lemma ReparentKeepsElement(doc: seq<Elem>, id: Id, config: Options, isInvisible: bool)
    requires GetElementById(doc, id).Some?
    requires var e := doc[GetElementById(doc, id).value]; !e.underBody && !Hidden(e)
    ensures IntegrityHolds(doc, id, true)
    ensures var d := CheckedDoc(doc, id, config, isInvisible, true);
            var e := doc[GetElementById(doc, id).value];
            |d| == |doc| && d[|d| - 1] == e.(underBody := true, zIndex := ZIndexFor(isInvisible))
  {
  }

  /**
   * A hidden element fails the check even when the restore heals it: with
   * an unlocked element, a unique id and a restore opacity of at least 0.01,
   * a second check would pass, yet the first one reports failure.
   */
  lemma RestoreHealsButFails(doc: seq<Elem>, id: Id, config: Options, isInvisible: bool, appendOk: bool)
    requires CountId(doc, id) <= 1 && GetElementById(doc, id).Some?
    requires var e := doc[GetElementById(doc, id).value];
             Hidden(e) && !e.locked && (e.underBody || appendOk)
    requires RestoreOpacity(config, isInvisible) >= 0.01
    ensures !IntegrityHolds(doc, id, appendOk)
    ensures IntegrityHolds(CheckedDoc(doc, id, config, isInvisible, appendOk), id, appendOk)
  {
    var i := GetElementById(doc, id).value;
    var e := doc[i];
    var r := Restored(e.(underBody := true), config, isInvisible);
    var d := CheckedDoc(doc, id, config, isInvisible, appendOk);
    var j := if e.underBody then i else |doc| - 1;
    if e.underBody {
      assert d == doc[i := r];
      UpdateCount(doc, i, r, id);
    } else {
      assert d == Without(doc, i) + [r];
      MoveToEndCount(doc, i, r, id);
    }
    FindUnique(d, id, j);
  }

  /** A locked hidden element is left hidden by the restore: only recreation repairs it. */
  lemma LockedStaysHidden(doc: seq<Elem>, id: Id, config: Options, isInvisible: bool)
    requires GetElementById(doc, id).Some?
    requires var e := doc[GetElementById(doc, id).value]; Hidden(e) && e.locked && e.underBody
    ensures CheckedDoc(doc, id, config, isInvisible, true) == doc
  {
    var i := GetElementById(doc, id).value;
    assert doc[i := doc[i].(underBody := true)] == doc;
  }

  /** Every watcher watches an element whose serial is below n. */
  predicate WatchersBelow(ws: seq<Watcher>, n: nat)
  {
    forall k :: 0 <= k < |ws| ==> ws[k].elem < n
  }

  /**
   * `observer.disconnect()` or `clearInterval` on the watcher a slot holds:
   * it leaves the set of connected observers (running intervals); a null
   * slot changes nothing.
   */
  function Release(live: set<nat>, slot: Option<nat>): set<nat>
  {
    if slot.Some? then live - {slot.value} else live
  }

  /** Releasing a watcher that is already released changes nothing. */
  lemma ReleaseReleased(live: set<nat>, slot: Option<nat>)
    requires slot.Some? ==> slot.value !in live
    ensures Release(live, slot) == live
  {
  }

  /** The last two elements of doc are the ones with serials a and b, in that order. */
  predicate LastTwo(doc: seq<Elem>, a: nat, b: nat)
  {
    |doc| >= 2 && doc[|doc| - 2].serial == a && doc[|doc| - 1].serial == b
  }

  /**
   * The document `set`'s two `setWatermark` calls leave, from base, for
   * options without `invisible: true`: the mask's id is removed; when the
   * mask is made, the shadow's id is removed too and the mask (serial n)
   * appended, then the shadow (serial n + 1) when it is made in turn.
   */
  function LayersDoc(base: seq<Elem>, mId: Id, sId: Id, o: Options, n: nat,
                     hMask: HostReply, hShadow: HostReply, locked: bool): seq<Elem>
  {
    if !Made(hMask) then RemoveById(base, mId)
    else
      var withMask := RemoveById(RemoveById(base, mId), sId) + [NewElement(n, mId, DeriveConfig(o), hMask.canvas, locked)];
      if !Made(hShadow) then withMask
      else withMask + [NewElement(n + 1, sId, DeriveConfig(o.(invisible := Some(true))), hShadow.canvas, locked)]
  }

  /** The document after `removeNode` of a slot that may be null (then nothing is removed). */
  function RemoveSlot(doc: seq<Elem>, id: Option<Id>): seq<Elem>
  {
    if id.Some? then RemoveById(doc, id.value) else doc
  }

  /** The visibility listeners' checks, one pair per listener in registration order. */
  function ListenerChecks(doc: seq<Elem>, ls: seq<Options>, maskId: Id, invisibleId: Id, appendOk: bool): seq<Elem>
    decreases |ls|
  {
    if ls == [] then doc
    else
      var d := ListenerChecks(doc, ls[..|ls| - 1], maskId, invisibleId, appendOk);
      var l := ls[|ls| - 1];
      var d' := CheckedDoc(d, maskId, l, false, appendOk);
      CheckedDoc(d', invisibleId, l.(invisible := Some(true)), true, appendOk)
  }

  /** The options a repair rebuilds with: the watcher's config, its layer flag forced. */
  function RepairOptions(w: Watcher): Options
  {
    w.config.(invisible := Some(w.isInvisible))
  }

  /** The data URI `createWatermarkCanvas` yields for c, given the cache and the host's render. */
  function CachedUrl(cache: map<Config, string>, c: Config, rendered: string): string
  {
    if c in cache then cache[c] else rendered
  }

  /** The cache after `createWatermarkCanvas`: only a successful fresh render is stored. */
  function CacheAfter(cache: map<Config, string>, c: Config, rendered: string): map<Config, string>
  {
    if c in cache || rendered == "" then cache else cache[c := rendered]
  }

  /**
   * A call that yields a data URI makes the next call with an equal config
   * return the same URI whatever the host would render; a call that yields
   * '' leaves the cache as it was.
   */
  lemma CacheHit(cache: map<Config, string>, c: Config, r1: string, r2: string)
    ensures CachedUrl(cache, c, r1) != "" ==>
              CachedUrl(CacheAfter(cache, c, r1), c, r2) == CachedUrl(cache, c, r1)
    ensures CachedUrl(cache, c, r1) == "" ==> CacheAfter(cache, c, r1) == cache
  {
  }

  /** The serials a `setWatermark` of config c uses: one once a data URI is obtained, appended or not. */
  function SerialsUsed(cache: map<Config, string>, c: Config, rendered: string): nat
  {
    if CachedUrl(cache, c, rendered) != "" then 1 else 0
  }

  /**
   * The cache `set`'s two `setWatermark` calls leave, from the empty cache
   * `remove` leaves: the caller's config, then, when the first layer was
   * made, the config with `invisible: true`.
   */
  function LayersCache(o: Options, hMask: HostReply, hShadow: HostReply): map<Config, string>
  {
    var first := CacheAfter(map[], DeriveConfig(o), hMask.canvas);
    if Made(hMask) then CacheAfter(first, DeriveConfig(o.(invisible := Some(true))), hShadow.canvas) else first
  }

  /** The serials those two calls use. */
  function LayersSerials(o: Options, hMask: HostReply, hShadow: HostReply): nat
  {
    var first := CacheAfter(map[], DeriveConfig(o), hMask.canvas);
    SerialsUsed(map[], DeriveConfig(o), hMask.canvas) +
    if Made(hMask) then SerialsUsed(first, DeriveConfig(o.(invisible := Some(true))), hShadow.canvas) else 0
  }

  /**
   * After a `set` that made both layers (options without `invisible: true`),
   * the cache holds each layer's data URI under the config its watcher's
   * repair rebuilds with, so a later rebuild obtains that URI whatever the
   * host would render then.
   */
  lemma LayersCacheServesRepairs(o: Options, hMask: HostReply, hShadow: HostReply, mId: Id, sId: Id, n: nat, r: string)
    requires !InvisibleFlag(o) && Made(hMask) && Made(hShadow)
    ensures var cache := LayersCache(o, hMask, hShadow);
            && CachedUrl(cache, DeriveConfig(RepairOptions(Watcher(mId, o, false, n, None))), r) == hMask.canvas
            && CachedUrl(cache, DeriveConfig(RepairOptions(Watcher(sId, o.(invisible := Some(true)), true, n + 1, None))), r) == hShadow.canvas
  {
    var so := o.(invisible := Some(true));
    ZIndexSelectsLayer(o);
    ZIndexSelectsLayer(so);
    assert DeriveConfig(RepairOptions(Watcher(mId, o, false, n, None))) == DeriveConfig(o);
    assert RepairOptions(Watcher(sId, so, true, n + 1, None)) == so;
  }

  /**
   * A rebuilt layer passes the next check: with at most one element bearing
   * the id before, removing it and appending the new element leaves that
   * element as the only one, under body, visible and at its z-index.
   */
  lemma RebuildPasses(doc: seq<Elem>, id: Id, o: Options, serial: nat, url: string, locked: bool, appendOk: bool)
    requires id != "" && CountId(doc, id) <= 1
    ensures var d := RemoveById(doc, id) + [NewElement(serial, id, DeriveConfig(o), url, locked)];
            && GetElementById(d, id) == Some(|d| - 1)
            && IntegrityHolds(d, id, appendOk)
            && CheckedDoc(d, id, o, InvisibleFlag(o), appendOk) == d
  {
    var base := RemoveById(doc, id);
    var e := NewElement(serial, id, DeriveConfig(o), url, locked);
    var d := base + [e];
    RemoveByIdCount(doc, id);
    CountConcat(base, [e], id);
    assert CountId([e], id) == 1 by {
      assert [e][1..] == [];
    }
    FindUnique(d, id, |d| - 1);
    ZIndexSelectsLayer(o);
    CheckIntactIsNoop(d, id, o, InvisibleFlag(o), appendOk);
  }

  /** The session fields a repair pass reads and writes, as one value. */
  datatype SessionState = SessionState(
    doc: seq<Elem>,
    cache: map<Config, string>,
    next: nat,
    watchers: seq<Watcher>,
    connected: set<nat>,
    running: set<nat>,
    maskObserver: Option<nat>,
    invisibleObserver: Option<nat>,
    maskInterval: Option<nat>,
    invisibleInterval: Option<nat>)

  class Session {
    var doc: seq<Elem>
    var maskId: Option<Id>
    var invisibleId: Option<Id>
    var currentConfig: Option<Options>
    var canvasCache: map<Config, string>
    /** The `watchNode` results and interval handles held by the module, as watcher indices. */
    var maskObserver: Option<nat>
    var invisibleObserver: Option<nat>
    var maskCheckInterval: Option<nat>
    var invisibleCheckInterval: Option<nat>
    /** Every `watchNode` closure created so far; replaced ones keep their pending timeouts. */
    var watchers: seq<Watcher>
    /** The watchers whose observer is connected. */
    var connected: set<nat>
    /** The watchers whose 1500 ms interval is running. */
    var running: set<nat>
    /** The config each registered `visibilitychange` listener captured. */
    var listeners: seq<Options>
    /** The serial the next created element gets. */
    var nextSerial: nat
    /** Whether `Object.defineProperty` on a style object succeeds in this browser. */
    const styleLockWorks: bool

    ghost predicate SlotOk(s: Option<nat>)
      reads this`watchers
    {
      s.Some? ==> s.value < |watchers|
    }

    ghost predicate Valid()
      reads this`maskObserver, this`invisibleObserver, this`maskCheckInterval, this`invisibleCheckInterval
      reads this`watchers, this`nextSerial, this`maskId, this`invisibleId
    {
      && SlotOk(maskObserver) && SlotOk(invisibleObserver)
      && SlotOk(maskCheckInterval) && SlotOk(invisibleCheckInterval)
      && WatchersBelow(watchers, nextSerial)
      && (maskId.Some? <==> invisibleId.Some?)
      && (maskId.Some? ==> maskId != invisibleId)
    }

    /** The state `remove` leaves: ids, config and cache cleared, slot watchers stopped. */
    ghost predicate Removed()
      reads this`maskId, this`invisibleId, this`currentConfig, this`canvasCache
      reads this`maskCheckInterval, this`invisibleCheckInterval, this`maskObserver, this`invisibleObserver, this`connected
    {
      && maskId.None? && invisibleId.None? && currentConfig.None? && canvasCache == map[]
      && maskCheckInterval.None? && invisibleCheckInterval.None?
      && (maskObserver.Some? ==> maskObserver.value !in connected)
      && (invisibleObserver.Some? ==> invisibleObserver.value !in connected)
    }

    /** The module as loaded into a page holding `page`. */
    constructor (page: seq<Elem>, lockWorks: bool)
      ensures Valid()
      ensures doc == page && styleLockWorks == lockWorks
      ensures maskId.None? && invisibleId.None? && currentConfig.None? && canvasCache == map[]
      ensures maskObserver.None? && invisibleObserver.None?
      ensures maskCheckInterval.None? && invisibleCheckInterval.None?
      ensures watchers == [] && connected == {} && running == {} && listeners == []
    {
      doc := page;
      maskId, invisibleId, currentConfig := None, None, None;
      canvasCache := map[];
      maskObserver, invisibleObserver := None, None;
      maskCheckInterval, invisibleCheckInterval := None, None;
      watchers, connected, running, listeners := [], {}, {}, [];
      nextSerial := SerialBound(page);
      styleLockWorks := lockWorks;
    }

    /** The fields a repair pass reads and writes. */
    ghost function State(): SessionState
      reads this`doc, this`canvasCache, this`nextSerial, this`watchers, this`connected, this`running
      reads this`maskObserver, this`invisibleObserver, this`maskCheckInterval, this`invisibleCheckInterval
    {
      SessionState(doc, canvasCache, nextSerial, watchers, connected, running,
                   maskObserver, invisibleObserver, maskCheckInterval, invisibleCheckInterval)
    }

    /** The id the layer's slot holds now. */
    function LayerId(isInvisible: bool): Option<Id>
      reads this`maskId, this`invisibleId
    {
      if isInvisible then invisibleId else maskId
    }

    /** `removeNode(id)`: removes the first element bearing id, if any. */
    method RemoveNode(id: Id)
      requires Valid()
      modifies this`doc
      ensures Valid()
      ensures doc == RemoveById(old(doc), id)
    {
      RemoveByIdFound(doc, id);
      var f := GetElementById(doc, id);
      if f.Some? {
        doc := Without(doc, f.value);
      }
    }

    /**
     * `createWatermarkCanvas(config)`: a cached data URI is returned as is;
     * otherwise the host renders, a non-empty result is cached, and '' is
     * returned uncached on failure.
     */
    method CreateWatermarkCanvas(c: Config, rendered: string) returns (url: string)
      requires Valid()
      modifies this`canvasCache
      ensures Valid()
      ensures url == CachedUrl(old(canvasCache), c, rendered)
      ensures canvasCache == CacheAfter(old(canvasCache), c, rendered)
    {
      if c in canvasCache {
        return canvasCache[c];
      }
      url := rendered;
      if url != "" {
        canvasCache := canvasCache[c := url];
      }
    }

    /**
     * `setWatermark(options)`: for the layer the options select, returns null
     * and changes nothing when that layer's id is null; otherwise removes the
     * element bearing the id, then renders (through the cache) and appends a
     * new element, returning its serial, or returns null when the render
     * yields '' or the append fails.
     */
    method SetWatermark(o: Options, h: HostReply) returns (created: Option<nat>)
      requires Valid()
      modifies this`doc, this`canvasCache, this`nextSerial
      ensures Valid()
      ensures nextSerial == old(nextSerial) +
                if LayerId(InvisibleFlag(o)).Some? then SerialsUsed(old(canvasCache), DeriveConfig(o), h.canvas) else 0
      ensures LayerId(InvisibleFlag(o)).None? ==>
                created.None? && doc == old(doc) && canvasCache == old(canvasCache)
      ensures LayerId(InvisibleFlag(o)).Some? ==>
                canvasCache == CacheAfter(old(canvasCache), DeriveConfig(o), h.canvas)
      ensures created.Some? <==>
                LayerId(InvisibleFlag(o)).Some? && CachedUrl(old(canvasCache), DeriveConfig(o), h.canvas) != "" && h.appendOk
      ensures created.None? && LayerId(InvisibleFlag(o)).Some? ==>
                doc == RemoveById(old(doc), LayerId(InvisibleFlag(o)).value)
      ensures created.Some? ==>
                var id := LayerId(InvisibleFlag(o)).value;
                && created.value == old(nextSerial) && nextSerial == old(nextSerial) + 1
                && doc == RemoveById(old(doc), id) +
                          [NewElement(old(nextSerial), id, DeriveConfig(o), CachedUrl(old(canvasCache), DeriveConfig(o), h.canvas), styleLockWorks)]
    {
      var realId := LayerId(InvisibleFlag(o));
      if realId.None? {
        return None;
      }
      RemoveNode(realId.value);
      var c := DeriveConfig(o);
      var url := CreateWatermarkCanvas(c, h.canvas);
      if url == "" {
        return None;
      }
      var div := NewElement(nextSerial, realId.value, c, url, styleLockWorks);
      nextSerial := nextSerial + 1;
      if !h.appendOk {
        return None;
      }
      doc := doc + [div];
      created := Some(div.serial);
    }

    /**
     * `checkWatermarkIntegrity(id, config, isInvisible)`: false for a missing
     * element and for one whose move back under body throws; a hidden one is
     * restored and still reported false; otherwise the z-index is corrected
     * and the result is true.
     */
    method CheckWatermarkIntegrity(id: Id, config: Options, isInvisible: bool, appendOk: bool) returns (ok: bool)
      requires Valid()
      modifies this`doc
      ensures Valid()
      ensures ok == IntegrityHolds(old(doc), id, appendOk)
      ensures doc == CheckedDoc(old(doc), id, config, isInvisible, appendOk)
    {
      var f := GetElementById(doc, id);
      if f.None? {
        return false;
      }
      var i := f.value;
      var e := doc[i];
      if !e.underBody {
        if !appendOk {
          return false;
        }
        e := e.(underBody := true);
        doc := Without(doc, i) + [e];
        i := |doc| - 1;
      }
      if Hidden(e) {
        doc := doc[i := Restored(e, config, isInvisible)];
        return false;
      }
      // Writing the z-index it already has changes nothing.
      e := e.(zIndex := ZIndexFor(isInvisible));
      doc := doc[i := e];
      ok := true;
    }

    /**
     * `watchNode(elem, targetId, config, isInvisible)`: a detached element
     * gets no observer and no interval; an attached one gets a new watcher
     * whose observer is connected and whose interval runs.
     */
    method WatchNode(elem: nat, targetId: Id, config: Options, isInvisible: bool) returns (w: Option<nat>)
      requires Valid() && elem < nextSerial
      modifies this`watchers, this`connected, this`running
      ensures Valid()
      ensures !Attached(doc, elem) ==>
                w.None? && watchers == old(watchers) && connected == old(connected) && running == old(running)
      ensures Attached(doc, elem) ==>
                var n := |old(watchers)|;
                && w == Some(n)
                && watchers == old(watchers) + [Watcher(targetId, config, isInvisible, elem, None)]
                && connected == old(connected) + {n} && running == old(running) + {n}
    {
      if !Attached(doc, elem) {
        return None;
      }
      w := Some(|watchers|);
      watchers := watchers + [Watcher(targetId, config, isInvisible, elem, None)];
      connected := connected + {w.value};
      running := running + {w.value};
    }

    /**
     * Whether watcher w's `setWatermark` yields a new element from this
     * cache: the layer's id is set, a data URI is obtained and appended.
     */
    ghost predicate RebuildMakes(w: Watcher, cache: map<Config, string>, h: HostReply)
      reads this`maskId, this`invisibleId
    {
      && LayerId(w.isInvisible).Some?
      && CachedUrl(cache, DeriveConfig(RepairOptions(w)), h.canvas) != ""
      && h.appendOk
    }

    /**
     * Watcher k has rebuilt its layer as element `serial`: its observer is
     * disconnected, its interval cleared, and a new watcher of that element
     * goes into the layer's observer and interval slots.
     */
    method Rewatch(k: nat, serial: nat)
      requires Valid() && k < |watchers| && serial < nextSerial && Attached(doc, serial)
      modifies this`watchers, this`connected, this`running
      modifies this`maskObserver, this`invisibleObserver, this`maskCheckInterval, this`invisibleCheckInterval
      ensures Valid()
      ensures var w := old(watchers)[k];
              var n := |old(watchers)|;
              && watchers == old(watchers) + [w.(elem := serial, timeout := None)]
              && connected == old(connected) - {k} + {n} && running == old(running) - {k} + {n}
              && (w.isInvisible ==>
                    invisibleObserver == Some(n) && invisibleCheckInterval == Some(n) &&
                    maskObserver == old(maskObserver) && maskCheckInterval == old(maskCheckInterval))
              && (!w.isInvisible ==>
                    maskObserver == Some(n) && maskCheckInterval == Some(n) &&
                    invisibleObserver == old(invisibleObserver) && invisibleCheckInterval == old(invisibleCheckInterval))
    {
      var w := watchers[k];
      connected := connected - {k};
      running := running - {k};
      var newWatch := WatchNode(serial, w.targetId, w.config, w.isInvisible);
      if w.isInvisible {
        invisibleObserver := newWatch;
        invisibleCheckInterval := newWatch;
      } else {
        maskObserver := newWatch;
        maskCheckInterval := newWatch;
      }
    }

    /**
     * What watcher k's rebuild leaves, from the session state s (the state
     * after the failed check): `setWatermark` for the layer under its current
     * id runs through the cache; when it yields a new element (`RebuildMakes`)
     * watcher k is stopped and a fresh watcher of that element takes the
     * layer's slots, and otherwise the watcher bookkeeping is unchanged.
     */
    ghost predicate RebuildFrom(s: SessionState, k: nat, h: HostReply)
      reads this`doc, this`canvasCache, this`nextSerial, this`watchers, this`connected, this`running
      reads this`maskObserver, this`invisibleObserver, this`maskCheckInterval, this`invisibleCheckInterval
      reads this`maskId, this`invisibleId
    {
      k < |s.watchers| &&
      var w := s.watchers[k];
      var id := LayerId(w.isInvisible);
      var c := DeriveConfig(RepairOptions(w));
      var n := |s.watchers|;
      && canvasCache == (if id.Some? then CacheAfter(s.cache, c, h.canvas) else s.cache)
      && nextSerial == s.next + (if id.Some? then SerialsUsed(s.cache, c, h.canvas) else 0)
      && (!RebuildMakes(w, s.cache, h) ==>
            && doc == RemoveSlot(s.doc, id)
            && watchers == s.watchers && connected == s.connected && running == s.running
            && maskObserver == s.maskObserver && invisibleObserver == s.invisibleObserver
            && maskCheckInterval == s.maskInterval && invisibleCheckInterval == s.invisibleInterval)
      && (RebuildMakes(w, s.cache, h) ==>
            && doc == RemoveById(s.doc, id.value) + [NewElement(s.next, id.value, c, CachedUrl(s.cache, c, h.canvas), styleLockWorks)]
            && watchers == s.watchers + [w.(elem := s.next, timeout := None)]
            && connected == s.connected - {k} + {n} && running == s.running - {k} + {n}
            && (w.isInvisible ==>
                  invisibleObserver == Some(n) && invisibleCheckInterval == Some(n) &&
                  maskObserver == s.maskObserver && maskCheckInterval == s.maskInterval)
            && (!w.isInvisible ==>
                  maskObserver == Some(n) && maskCheckInterval == Some(n) &&
                  invisibleObserver == s.invisibleObserver && invisibleCheckInterval == s.invisibleInterval))
    }

    /**
     * The failing-check branch of watcher k's repair: `setWatermark` with the
     * watcher's config and its layer flag forced; a new element is re-watched.
     */
    method Rebuild(k: nat, h: HostReply)
      requires Valid() && k < |watchers|
      modifies this`doc, this`canvasCache, this`nextSerial, this`watchers, this`connected, this`running
      modifies this`maskObserver, this`invisibleObserver, this`maskCheckInterval, this`invisibleCheckInterval
      ensures Valid()
      ensures RebuildFrom(old(State()), k, h)
    {
      var w := watchers[k];
      assert w.elem < nextSerial;
      assert InvisibleFlag(RepairOptions(w)) == w.isInvisible;
      var newElem := SetWatermark(RepairOptions(w), h);
      assert newElem.Some? <==> RebuildMakes(w, old(canvasCache), h);
      if newElem.Some? && newElem.value != w.elem {
        assert doc[|doc| - 1].serial == newElem.value;
        Rewatch(k, newElem.value);
      }
    }

    /**
     * What watcher k's repair pass leaves, from the session state s: a
     * passing check changes only the checked element, and a failing one is
     * followed by the rebuild, from the state the check left.
     */
    ghost predicate RepairedFrom(s: SessionState, k: nat, h: HostReply, appendOk: bool)
      reads this`doc, this`canvasCache, this`nextSerial, this`watchers, this`connected, this`running
      reads this`maskObserver, this`invisibleObserver, this`maskCheckInterval, this`invisibleCheckInterval
      reads this`maskId, this`invisibleId
    {
      k < |s.watchers| &&
      var w := s.watchers[k];
      var checked := s.(doc := CheckedDoc(s.doc, w.targetId, w.config, w.isInvisible, appendOk));
      && (IntegrityHolds(s.doc, w.targetId, appendOk) ==> State() == checked)
      && (!IntegrityHolds(s.doc, w.targetId, appendOk) ==> RebuildFrom(checked, k, h))
    }

    /**
     * The body shared by the debounced callback and the interval callback of
     * watcher k: check the target; when the check fails, rebuild the layer
     * with the watcher's config and layer flag and, when that yields a new
     * element, stop this watcher and install a fresh one in the layer's slots.
     */
    method RepairPass(k: nat, h: HostReply, appendOk: bool)
      requires Valid() && k < |watchers|
      modifies this`doc, this`canvasCache, this`nextSerial, this`watchers, this`connected, this`running
      modifies this`maskObserver, this`invisibleObserver, this`maskCheckInterval, this`invisibleCheckInterval
      ensures Valid()
      ensures RepairedFrom(old(State()), k, h, appendOk)
    {
      var w := watchers[k];
      var isValid := CheckWatermarkIntegrity(w.targetId, w.config, w.isInvisible, appendOk);
      if !isValid {
        Rebuild(k, h);
      }
    }

    /**
     * Watcher k's observer receives a batch: when it is connected and some
     * record triggers, the debounced repair is (re)scheduled 50 ms from now.
     */
    method DeliverMutations(k: nat, records: seq<Record>, now: int)
      requires Valid() && k < |watchers|
      modifies this`watchers
      ensures Valid()
      ensures var w := old(watchers)[k];
              var resolves := GetElementById(doc, w.targetId).Some?;
              watchers == if k in connected && exists i :: 0 <= i < |records| && MutationFilter.RecordTriggers(records[i], w.targetId, resolves)
                          then old(watchers)[k := w.(timeout := Some(now + Debounce.RepairWait))]
                          else old(watchers)
    {
      if k !in connected {
        return;
      }
      var w := watchers[k];
      var resolves := GetElementById(doc, w.targetId).Some?;
      var calls := MutationFilter.ScanRecords(records, w.targetId, resolves);
      if calls > 0 {
        var (t, _) := Debounce.Step(w.timeout, Debounce.Call(now), Debounce.RepairWait);
        watchers := watchers[k := w.(timeout := t)];
      }
    }

    /**
     * The host's timer reaches `now`: when watcher k's debounced repair is due
     * it runs, whether or not the watcher has since been disconnected.
     */
    method DebounceElapsed(k: nat, now: int, h: HostReply, appendOk: bool) returns (ran: bool)
      requires Valid() && k < |watchers|
      modifies this`doc, this`canvasCache, this`nextSerial, this`watchers, this`connected, this`running
      modifies this`maskObserver, this`invisibleObserver, this`maskCheckInterval, this`invisibleCheckInterval
      ensures Valid()
      ensures ran <==> old(watchers)[k].timeout.Some? && old(watchers)[k].timeout.value <= now
      ensures !ran ==> State() == old(State())
      ensures ran ==>
                var s := old(State());
                RepairedFrom(s.(watchers := s.watchers[k := s.watchers[k].(timeout := None)]), k, h, appendOk)
    {
      var (t, fired) := Debounce.Step(watchers[k].timeout, Debounce.Elapse(now), Debounce.RepairWait);
      ran := fired;
      if ran {
        watchers := watchers[k := watchers[k].(timeout := t)];
        RepairPass(k, h, appendOk);
      }
    }

    /** Watcher k's 1500 ms interval fires: while it has not been cleared, it runs the repair pass. */
    method IntervalTick(k: nat, h: HostReply, appendOk: bool)
      requires Valid() && k < |watchers|
      modifies this`doc, this`canvasCache, this`nextSerial, this`watchers, this`connected, this`running
      modifies this`maskObserver, this`invisibleObserver, this`maskCheckInterval, this`invisibleCheckInterval
      ensures Valid()
      ensures k !in old(running) ==> State() == old(State())
      ensures k in old(running) ==> RepairedFrom(old(State()), k, h, appendOk)
    {
      if k in running {
        RepairPass(k, h, appendOk);
      }
    }

    /**
     * `cleanup()`: disconnects the observers held in the slots and clears
     * the intervals held in the slots, nulling those.  Pending debounce
     * timeouts are not cancelled.
     */
    method Cleanup()
      requires Valid()
      modifies this`connected, this`running, this`maskCheckInterval, this`invisibleCheckInterval
      ensures Valid()
      ensures maskCheckInterval.None? && invisibleCheckInterval.None?
      ensures connected == Release(Release(old(connected), maskObserver), invisibleObserver)
      ensures running == Release(Release(old(running), old(maskCheckInterval)), old(invisibleCheckInterval))
    {
      connected := Release(connected, maskObserver);
      connected := Release(connected, invisibleObserver);
      running := Release(running, maskCheckInterval);
      maskCheckInterval := None;
      running := Release(running, invisibleCheckInterval);
      invisibleCheckInterval := None;
    }

    /**
     * `watermark.remove()`: cleanup, remove both layers' elements, null both
     * ids and the config, clear the cache.  Called again it changes nothing.
     */
    method Remove()
      requires Valid()
      modifies this`connected, this`running, this`maskCheckInterval, this`invisibleCheckInterval
      modifies this`doc, this`maskId, this`invisibleId, this`currentConfig, this`canvasCache
      ensures Valid() && Removed()
      ensures connected == Release(Release(old(connected), maskObserver), invisibleObserver)
      ensures running == Release(Release(old(running), old(maskCheckInterval)), old(invisibleCheckInterval))
      ensures doc == RemoveSlot(RemoveSlot(old(doc), old(maskId)), old(invisibleId))
      ensures old(Removed()) ==> doc == old(doc) && connected == old(connected) && running == old(running)
    {
      Cleanup();
      if maskId.Some? {
        RemoveNode(maskId.value);
      }
      if invisibleId.Some? {
        RemoveNode(invisibleId.value);
      }
      maskId, invisibleId, currentConfig := None, None, None;
      canvasCache := map[];
    }

    /** `watermark.getConfig()`: a copy of the last `set` argument, or null. */
    method GetConfig() returns (c: Option<Options>)
      ensures c == currentConfig
    {
      c := currentConfig;
    }

    /** The cache and serial counter `set`'s two `setWatermark` calls leave, from serial n. */
    ghost predicate LayersCached(o: Options, hMask: HostReply, hShadow: HostReply, n: nat)
      reads this`canvasCache, this`nextSerial
    {
      canvasCache == LayersCache(o, hMask, hShadow) && nextSerial == n + LayersSerials(o, hMask, hShadow)
    }

    /**
     * The two `setWatermark` calls of `set`: the caller's options, then the
     * same with `invisible: true`; the second is skipped when the first
     * yields null.  For options without `invisible: true` these build the
     * visible layer, then the shadow layer.
     */
    method CreateLayers(o: Options, hMask: HostReply, hShadow: HostReply) returns (mt: Option<nat>, it: Option<nat>)
      requires Valid() && maskId.Some? && invisibleId.Some? && canvasCache == map[]
      modifies this`doc, this`canvasCache, this`nextSerial
      ensures Valid()
      ensures mt.Some? ==> mt.value == old(nextSerial) && mt.value < nextSerial
      ensures it.Some? ==> mt.Some? && it.value == old(nextSerial) + 1 && it.value < nextSerial
      ensures !InvisibleFlag(o) ==> (mt.Some? <==> Made(hMask)) && (it.Some? <==> Made(hMask) && Made(hShadow))
      ensures !InvisibleFlag(o) ==>
                doc == LayersDoc(old(doc), maskId.value, invisibleId.value, o, old(nextSerial), hMask, hShadow, styleLockWorks)
      ensures LayersCached(o, hMask, hShadow, old(nextSerial))
    {
      ghost var base := doc;
      mt := SetWatermark(o, hMask);
      if mt.None? {
        return mt, None;
      }
      ghost var afterMask := doc;
      var so := o.(invisible := Some(true));
      ZIndexSelectsLayer(o);
      ZIndexSelectsLayer(so);
      it := SetWatermark(so, hShadow);
      if !InvisibleFlag(o) {
        RemoveByIdKeepsLast(RemoveById(base, maskId.value), afterMask[|afterMask| - 1], invisibleId.value);
      }
    }

    /**
     * The bookkeeping both `watchNode` calls of `set` leave, from watchers ws
     * and connected observers (running intervals) conn (run): two new
     * watchers of the elements with serials n and n + 1, each connected,
     * running and held in its layer's observer and interval slots.
     */
    ghost predicate WatchedFrom(ws: seq<Watcher>, conn: set<nat>, run: set<nat>, o: Options, n: nat)
      reads this`watchers, this`connected, this`running, this`maskId, this`invisibleId
      reads this`maskObserver, this`invisibleObserver, this`maskCheckInterval, this`invisibleCheckInterval
    {
      var m := |ws|;
      && maskId.Some? && invisibleId.Some?
      && watchers == ws + [Watcher(maskId.value, o, false, n, None)]
                        + [Watcher(invisibleId.value, o.(invisible := Some(true)), true, n + 1, None)]
      && connected == conn + {m} + {m + 1} && running == run + {m} + {m + 1}
      && maskObserver == Some(m) && maskCheckInterval == Some(m)
      && invisibleObserver == Some(m + 1) && invisibleCheckInterval == Some(m + 1)
    }

    /** The bookkeeping a failed `set` leaves: nothing new, the interval slots nulled. */
    ghost predicate Unwatched(ws: seq<Watcher>, conn: set<nat>, run: set<nat>, mo: Option<nat>, io: Option<nat>, ls: seq<Options>)
      reads this`watchers, this`connected, this`running, this`listeners
      reads this`maskObserver, this`invisibleObserver, this`maskCheckInterval, this`invisibleCheckInterval
    {
      && watchers == ws && connected == conn && running == run
      && maskObserver == mo && invisibleObserver == io
      && maskCheckInterval.None? && invisibleCheckInterval.None? && listeners == ls
    }

    /** `set`'s `watchNode` of the visible layer, stored in its observer and interval slots. */
    method WatchMask(n: nat, o: Options)
      requires Valid() && maskId.Some? && n < nextSerial
      modifies this`watchers, this`connected, this`running, this`maskObserver, this`maskCheckInterval
      ensures Valid()
      ensures Attached(doc, n) ==>
                var m := |old(watchers)|;
                && watchers == old(watchers) + [Watcher(maskId.value, o, false, n, None)]
                && connected == old(connected) + {m} && running == old(running) + {m}
                && maskObserver == Some(m) && maskCheckInterval == Some(m)
    {
      var w := WatchNode(n, maskId.value, o, false);
      maskObserver := w;
      maskCheckInterval := w;
    }

    /** `set`'s `watchNode` of the shadow layer, stored in its observer and interval slots. */
    method WatchShadow(n: nat, o: Options)
      requires Valid() && invisibleId.Some? && n < nextSerial
      modifies this`watchers, this`connected, this`running, this`invisibleObserver, this`invisibleCheckInterval
      ensures Valid()
      ensures Attached(doc, n) ==>
                var m := |old(watchers)|;
                && watchers == old(watchers) + [Watcher(invisibleId.value, o.(invisible := Some(true)), true, n, None)]
                && connected == old(connected) + {m} && running == old(running) + {m}
                && invisibleObserver == Some(m) && invisibleCheckInterval == Some(m)
    {
      var w := WatchNode(n, invisibleId.value, o.(invisible := Some(true)), true);
      invisibleObserver := w;
      invisibleCheckInterval := w;
    }

    /**
     * The two `watchNode` calls of `set`; a layer whose element is no longer
     * attached gets no watcher and a null slot.
     */
    method WatchLayers(n: nat, o: Options)
      requires Valid() && maskId.Some? && invisibleId.Some? && n + 1 < nextSerial
      modifies this`watchers, this`connected, this`running
      modifies this`maskObserver, this`invisibleObserver, this`maskCheckInterval, this`invisibleCheckInterval
      ensures Valid()
      ensures LastTwo(doc, n, n + 1) ==> WatchedFrom(old(watchers), old(connected), old(running), o, n)
    {
      if LastTwo(doc, n, n + 1) {
        assert doc[|doc| - 2].serial == n && doc[|doc| - 1].serial == n + 1;
      }
      WatchMask(n, o);
      WatchShadow(n + 1, o);
    }

    /**
     * The `catch` of `set` after a failed `setWatermark`: `cleanup()`, with
     * the slot observers already disconnected by `remove`, so only the
     * interval slots change (they are null too).
     */
    method Abandon()
      requires Valid() && maskCheckInterval.None? && invisibleCheckInterval.None?
      requires maskObserver.Some? ==> maskObserver.value !in connected
      requires invisibleObserver.Some? ==> invisibleObserver.value !in connected
      modifies this`connected, this`running, this`maskCheckInterval, this`invisibleCheckInterval
      ensures Valid()
      ensures Unwatched(old(watchers), old(connected), old(running), old(maskObserver), old(invisibleObserver), old(listeners))
    {
      ReleaseReleased(connected, maskObserver);
      ReleaseReleased(connected, invisibleObserver);
      Cleanup();
    }

    /**
     * The outcome of `Install` from the document base, the watcher
     * bookkeeping ws, conn, run, mo, io, the listeners ls and serial n:
     * the cache and serials both `setWatermark` calls leave and, for options
     * without `invisible: true`, the document they leave, then either both
     * layers watched and a listener registered, or only `cleanup()`.
     */
    ghost predicate InstalledFrom(base: seq<Elem>, ws: seq<Watcher>, conn: set<nat>, run: set<nat>,
                                  mo: Option<nat>, io: Option<nat>, ls: seq<Options>, n: nat,
                                  o: Options, hMask: HostReply, hShadow: HostReply)
      reads this`doc, this`canvasCache, this`nextSerial, this`watchers, this`connected, this`running, this`listeners
      reads this`maskObserver, this`invisibleObserver, this`maskCheckInterval, this`invisibleCheckInterval
      reads this`maskId, this`invisibleId
    {
      && maskId.Some? && invisibleId.Some?
      && LayersCached(o, hMask, hShadow, n)
      && (!InvisibleFlag(o) ==> doc == LayersDoc(base, maskId.value, invisibleId.value, o, n, hMask, hShadow, styleLockWorks))
      && (!InvisibleFlag(o) && Made(hMask) && Made(hShadow) ==> WatchedFrom(ws, conn, run, o, n) && listeners == ls + [o])
      && (!InvisibleFlag(o) && !(Made(hMask) && Made(hShadow)) ==> Unwatched(ws, conn, run, mo, io, ls))
    }

    /**
     * The part of `set` after the fresh ids are drawn, starting from the
     * state `remove` leaves: build both layers; on a failure run `cleanup()`
     * and stop; otherwise watch both and register the visibility listener.
     */
    method Install(o: Options, hMask: HostReply, hShadow: HostReply)
      requires Valid() && maskId.Some? && invisibleId.Some? && canvasCache == map[]
      requires maskCheckInterval.None? && invisibleCheckInterval.None?
      requires maskObserver.Some? ==> maskObserver.value !in connected
      requires invisibleObserver.Some? ==> invisibleObserver.value !in connected
      modifies this`doc, this`canvasCache, this`nextSerial, this`watchers, this`connected, this`running, this`listeners
      modifies this`maskObserver, this`invisibleObserver, this`maskCheckInterval, this`invisibleCheckInterval
      ensures Valid()
      ensures InstalledFrom(old(doc), old(watchers), old(connected), old(running), old(maskObserver), old(invisibleObserver),
                            old(listeners), old(nextSerial), o, hMask, hShadow)
    {
      var n := nextSerial;
      var maskTarget, invisibleTarget := CreateLayers(o, hMask, hShadow);
      if maskTarget.None? || invisibleTarget.None? {
        assert !InvisibleFlag(o) ==> !(Made(hMask) && Made(hShadow));
        Abandon();
        return;
      }
      if !InvisibleFlag(o) {
        assert LastTwo(doc, n, n + 1);
      }
      WatchLayers(n, o);
      listeners := listeners + [o];
    }

    /**
     * `watermark.set(options)`: removes the old session, draws two fresh ids
     * and stores a copy of the options; creates the visible layer, then the
     * shadow layer; then watches both and registers a visibility listener.
     * A failure stops at once and runs only `cleanup()`: ids and config stay
     * set, and a visible layer already appended stays, unwatched.
     */
    method Set(o: Options, maskEntropy: string, shadowEntropy: string, hMask: HostReply, hShadow: HostReply)
      requires Valid()
      modifies this`doc, this`canvasCache, this`nextSerial, this`watchers, this`connected, this`running, this`listeners
      modifies this`maskObserver, this`invisibleObserver, this`maskCheckInterval, this`invisibleCheckInterval
      modifies this`maskId, this`invisibleId, this`currentConfig
      ensures Valid()
      ensures maskId == Some(GenerateId("wm", maskEntropy))
      ensures invisibleId == Some(GenerateId("_wm", shadowEntropy))
      ensures currentConfig == Some(o)
      ensures InstalledFrom(RemoveSlot(RemoveSlot(old(doc), old(maskId)), old(invisibleId)), old(watchers),
                            Release(Release(old(connected), old(maskObserver)), old(invisibleObserver)),
                            Release(Release(old(running), old(maskCheckInterval)), old(invisibleCheckInterval)),
                            old(maskObserver), old(invisibleObserver), old(listeners), old(nextSerial), o, hMask, hShadow)
    {
      Remove();
      IdsDiffer(maskEntropy, shadowEntropy);
      maskId := Some(GenerateId("wm", maskEntropy));
      invisibleId := Some(GenerateId("_wm", shadowEntropy));
      currentConfig := Some(o);
      Install(o, hMask, hShadow);
    }

    /**
     * `watermark.set()` with the argument omitted, undefined or null: the
     * spread stores `{}` as the config, then destructuring the missing
     * argument in the first `setWatermark` throws, and the catch runs only
     * `cleanup()`.  Fresh ids, no URI requested, no element drawn.
     */
    method SetAbsent(maskEntropy: string, shadowEntropy: string)
      requires Valid()
      modifies this`doc, this`canvasCache, this`connected, this`running
      modifies this`maskCheckInterval, this`invisibleCheckInterval
      modifies this`maskId, this`invisibleId, this`currentConfig
      ensures Valid()
      ensures maskId == Some(GenerateId("wm", maskEntropy))
      ensures invisibleId == Some(GenerateId("_wm", shadowEntropy))
      ensures currentConfig == Some(Options(None, None, None, None, None, None, None, None, None))
      ensures doc == RemoveSlot(RemoveSlot(old(doc), old(maskId)), old(invisibleId))
      ensures canvasCache == map[] && nextSerial == old(nextSerial)
      ensures Unwatched(old(watchers), Release(Release(old(connected), old(maskObserver)), old(invisibleObserver)),
                        Release(Release(old(running), old(maskCheckInterval)), old(invisibleCheckInterval)),
                        old(maskObserver), old(invisibleObserver), old(listeners))
    {
      Remove();
      IdsDiffer(maskEntropy, shadowEntropy);
      maskId := Some(GenerateId("wm", maskEntropy));
      invisibleId := Some(GenerateId("_wm", shadowEntropy));
      currentConfig := Some(Options(None, None, None, None, None, None, None, None, None));
      Abandon();
    }

    /**
     * The page becomes visible again: every registered listener checks both
     * layers (by the current ids, "null" once they are nulled) with its own
     * captured config.  Nothing is recreated.
     */
    method VisibilityRegained(appendOk: bool)
      requires Valid()
      modifies this`doc
      ensures Valid()
      ensures doc == ListenerChecks(old(doc), listeners, IdText(maskId), IdText(invisibleId), appendOk)
    {
      for i := 0 to |listeners|
        invariant Valid()
        invariant doc == ListenerChecks(old(doc), listeners[..i], IdText(maskId), IdText(invisibleId), appendOk)
      {
        assert listeners[..i + 1][..i] == listeners[..i];
        var l := listeners[i];
        var _ := CheckWatermarkIntegrity(IdText(maskId), l, false, appendOk);
        var _ := CheckWatermarkIntegrity(IdText(invisibleId), l.(invisible := Some(true)), true, appendOk);
      }
      assert listeners[..|listeners|] == listeners;
    }
  }
}
