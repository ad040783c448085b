/** The tab-orchestration state of one browser window: the views it owns,
    which one is selected, the fullscreen flag, and the single pending retry
    of the bounds fit. */
module Manager {
  import opened Views
  import opened Zoom
  import opened Bounds

  /** Outgoing notifications, in the order they are raised. */
  datatype Event =
    | CreateTab(details: TabDetails, isNext: bool, id: int)  // window.send('create-tab', …)
    | RemoveTab(id: int)                                      // window.send('remove-tab', …)
    | Activated(id: int)                                      // emit('activated', …)
    | ExtensionTabSelected(id: int)                           // extension session's selectTab
    | Removed(id: int)                                        // emit('removed', …)
    | ViewZoomUpdated(id: int, factor: int)                   // view.emitEvent('zoom-updated', …)
    | ZoomDialogUpdated(factor: int)                          // zoom dialog's 'zoom-factor-updated'
    | ZoomFactorUpdated(factor: int, showDialog: bool)        // window's 'zoom-factor-updated'

  /** How a zoom request ends. With no selected view the source throws a
      TypeError before changing anything. */
  datatype ZoomOutcome = NoSelectedView | Applied | Rejected(defaultPrevented: bool)

  /** What emitZoomUpdate sends for `factor`: the zoom dialog first, when one
      is open, then the window. */
  function ZoomUpdateEvents(factor: int, showDialog: bool, dialogOpen: bool): (es: seq<Event>)
    ensures |es| == if dialogOpen then 2 else 1
    ensures es[|es| - 1] == ZoomFactorUpdated(factor, showDialog)
    ensures dialogOpen ==> es[0] == ZoomDialogUpdated(factor)
  {
    (if dialogOpen then [ZoomDialogUpdated(factor)] else []) + [ZoomFactorUpdated(factor, showDialog)]
  }

  /** Substring test of String.prototype.includes: the empty key and every
      prefix are contained, and nothing longer than the string is. */
  predicate Contains(s: string, key: string)
    ensures key <= s ==> Contains(s, key)
    ensures Contains(s, key) ==> |key| <= |s|
  {
    assert key <= s ==> OccursAt(s, key, 0);
    exists i | 0 <= i <= |s| - |key| :: OccursAt(s, key, i)
  }

  predicate OccursAt(s: string, key: string, i: int)
    requires 0 <= i <= |s| - |key|
  {
    s[i..i + |key|] == key
  }

  /** WEBUI_BASE_URL; its value is not part of this model. */
  const WebUIBaseURL: string

  /** The startsWith test of the settings lookup: a settings URL also
      contains the settings prefix. */
  predicate IsSettingsURL(url: string)
    ensures IsSettingsURL(url) ==> Contains(url, WebUIBaseURL + "settings")
  {
    WebUIBaseURL + "settings" <= url
  }

  /** Object.values applied to a JavaScript Map: a Map keeps its entries
      outside its own enumerable properties, so the array is empty whatever
      the map holds. */
  function ObjectValues(m: map<int, View>): seq<View> {
    []
  }

  /** Array.prototype.find over views, testing each view's URL. */
  function FindFirst(vs: seq<View>, matches: string -> bool): (r: Option<View>)
    ensures r.Some? ==> r.value in vs && matches(r.value.url)
    ensures r.None? ==> forall i | 0 <= i < |vs| :: !matches(vs[i].url)
    ensures vs != [] && matches(vs[0].url) ==> r == Some(vs[0])
    ensures r.Some? ==>
              exists i | 0 <= i < |vs| ::
                vs[i] == r.value && forall j | 0 <= j < i :: !matches(vs[j].url)
  {
    if vs == [] then None
    else if matches(vs[0].url) then Some(vs[0])
    else
      var r := FindFirst(vs[1..], matches);
      assert r.Some? ==>
               exists i | 1 <= i < |vs| ::
                 vs[i] == r.value && forall j | 0 <= j < i :: !matches(vs[j].url)
      by {
        if r.Some? {
          var i :| 0 <= i < |vs[1..]| && vs[1..][i] == r.value
                   && forall j | 0 <= j < i :: !matches(vs[1..][j].url);
          assert vs[i + 1] == r.value;
          assert forall j | 0 <= j < i + 1 :: !matches(vs[j].url) by {
            forall j | 0 <= j < i + 1 ensures !matches(vs[j].url) {
              if j > 0 { assert vs[j] == vs[1..][j - 1]; }
            }
          }
        }
      }
      r
  }

  /** The search returns exactly the first view whose URL matches. */
  lemma FindFirstIsFirst(vs: seq<View>, matches: string -> bool, i: int)
    requires 0 <= i < |vs| && matches(vs[i].url)
    requires forall j | 0 <= j < i :: !matches(vs[j].url)
    ensures FindFirst(vs, matches) == Some(vs[i])
  {
  }

  class ViewManager {
    var views: map<int, View>
    /** 0 means no selection; never reset when the selected view goes away. */
    var selectedId: int
    var fullscreen: bool
    const incognito: bool
    /** The retry timer: the count the scheduled fixBounds0 call will run with. */
    var pendingRetry: Option<nat>
    /** Ids of the views whose surfaces are attached to the window. */
    var attached: set<int>
    var log: seq<Event>
    /** Next identifier the View allocator hands out. */
    var nextId: int
    /** Ids of views that were created and are gone again. */
    ghost var gone: set<int>

    ghost predicate Valid()
      reads this, views.Values
    {
      && 0 < nextId
      && (forall k | k in views ::
            && 0 < k < nextId
            && views[k].id == k
            && views[k].incognito == incognito
            && !views[k].destroyed)
      && (forall k | k in gone :: 0 < k < nextId)
      && (forall k | 0 < k < nextId :: k in views <==> k !in gone)
      && 0 <= selectedId < nextId
      && (pendingRetry.Some? ==> 1 <= pendingRetry.value <= MaxRetries)
    }

    /** The view registered under `id`, as a one-element frame. */
    ghost function ViewSet(id: int): set<View>
      reads this
    {
      if id in views then {views[id]} else {}
    }

    constructor (incognito: bool)
      ensures Valid() && this.incognito == incognito
      ensures views == map[] && selectedId == 0 && !fullscreen
      ensures pendingRetry == None && attached == {} && log == [] && gone == {}
      ensures nextId == 1
    {
      this.incognito := incognito;
      views := map[];
      selectedId := 0;
      fullscreen := false;
      pendingRetry := None;
      attached := {};
      log := [];
      nextId := 1;
      gone := {};
    }

    function GetById(id: int): (r: Option<View>)
      reads this, views.Values
      ensures r.Some? <==> id in views
      ensures r.Some? ==> r.value == views[id]
      ensures Valid() && r.Some? ==> r.value.id == id && !r.value.destroyed
      ensures Valid() && id == 0 ==> r == None
    {
      if id in views then Some(views[id]) else None
    }

    /** The selected view; absent when nothing was selected yet and when the
        selected view has been destroyed since. */
    function Selected(): (r: Option<View>)
      reads this, views.Values
      ensures r.Some? <==> selectedId in views
      ensures Valid() && r.Some? ==> r.value.id == selectedId && r.value == views[selectedId]
      ensures Valid() && selectedId == 0 ==> r == None
    {
      GetById(selectedId)
    }

    /** The fullscreen setter: records the flag and refits the selected view. */
    method SetFullscreen(val: bool, layout: Layout)
      requires Valid()
      modifies this, ViewSet(selectedId)
      ensures nextId == old(nextId) && gone == old(gone)
      ensures Valid() && fullscreen == val
      ensures views == old(views) && selectedId == old(selectedId)
      ensures attached == old(attached) && log == old(log)
      ensures selectedId !in views ==> pendingRetry == old(pendingRetry)
      ensures selectedId in views ==>
                && pendingRetry == RetryAfter(0, layout.toolbar)
                && views[selectedId].bounds == FittedBounds(val, layout, old(views[selectedId].bounds))
                && views[selectedId].zoomFactor == old(views[selectedId].zoomFactor)
                && views[selectedId].muted == old(views[selectedId].muted)
    {
      fullscreen := val;
      FixBounds(layout);
    }

    /** Registers a new view. Its one-shot 'destroyed' listener is
        OnSurfaceDestroyed. */
    method Create(details: TabDetails, isNext: bool := false, sendMessage: bool := true)
      returns (view: View)
      requires Valid()
      modifies this
      ensures gone == old(gone)
      ensures Valid() && fresh(view)
      ensures view.id == old(nextId) && nextId == old(nextId) + 1
      ensures view.id !in old(views) && views == old(views)[view.id := view]
      ensures view.url == details.url && view.incognito == incognito
      ensures view.zoomFactor == NeutralZoom && view.bounds == None && !view.muted
      ensures selectedId == old(selectedId) && view.id != selectedId
      ensures fullscreen == old(fullscreen) && pendingRetry == old(pendingRetry)
      ensures attached == old(attached)
      ensures log == old(log) + (if sendMessage then [CreateTab(details, isNext, view.id)] else [])
    {
      view := new View(nextId, details.url, incognito);
      nextId := nextId + 1;
      views := views[view.id := view];
      if sendMessage {
        log := log + [CreateTab(details, isNext, view.id)];
      }
    }

    /** The 'destroyed' listener of a view's surface: the rendering layer has
        destroyed it, and the listener drops its entry. Nothing is detached
        and nothing is emitted. */
    method OnSurfaceDestroyed(id: int)
      requires Valid()
      modifies this, ViewSet(id)
      ensures nextId == old(nextId) && gone == old(gone) + (if id in old(views) then {id} else {})
      ensures id in old(views) ==>
                && old(views)[id].zoomFactor == old(views[id].zoomFactor)
                && old(views)[id].bounds == old(views[id].bounds)
                && old(views)[id].muted == old(views[id].muted)
      ensures Valid()
      ensures views == old(views) - {id} && nextId == old(nextId)
      ensures id in old(views) ==> old(views)[id].destroyed
      ensures selectedId == old(selectedId) && fullscreen == old(fullscreen)
      ensures pendingRetry == old(pendingRetry) && attached == old(attached) && log == old(log)
    {
      if id in views {
        var view := views[id];
        view.Destroy();
        views := views - {id};
        gone := gone + {id};
      }
    }

    method RemoveByTabId(id: int)
      requires Valid()
      modifies this
      ensures nextId == old(nextId) && gone == old(gone)
      ensures Valid() && log == old(log) + [RemoveTab(id)]
      ensures views == old(views) && selectedId == old(selectedId) && fullscreen == old(fullscreen)
      ensures pendingRetry == old(pendingRetry) && attached == old(attached)
    {
      log := log + [RemoveTab(id)];
    }

    /** Detaches whatever the window shows. The views it meant to destroy are
        looked up with Object.values on the map, which yields none, so every
        view stays registered and alive. */
    method Clear()
      requires Valid()
      modifies this
      ensures nextId == old(nextId) && gone == old(gone)
      ensures Valid() && attached == {}
      ensures views == old(views) && selectedId == old(selectedId) && fullscreen == old(fullscreen)
      ensures pendingRetry == old(pendingRetry) && log == old(log)
    {
      attached := {};
      var vs := ObjectValues(views);
      assert vs == [];
    }

    /** clear as evidently intended: detach the window's views, then destroy
        every registered view in insertion order (which is id order, ids
        being handed out increasing); each destruction fires that view's
        listener, which drops its entry. */
    method ClearIntended()
      requires Valid()
      modifies this, views.Values
      ensures nextId == old(nextId) && gone == old(gone) + old(views).Keys
      ensures Valid() && attached == {} && views == map[]
      ensures forall k | k in old(views) :: old(views)[k].destroyed
      ensures forall k | k in old(views) ::
                && old(views)[k].zoomFactor == old(views[k].zoomFactor)
                && old(views)[k].bounds == old(views[k].bounds)
                && old(views)[k].muted == old(views[k].muted)
      ensures selectedId == old(selectedId) && fullscreen == old(fullscreen)
      ensures pendingRetry == old(pendingRetry) && log == old(log)
    {
      attached := {};
      var id := 1;
      while id < nextId
        invariant Valid() && attached == {} && nextId == old(nextId) && 1 <= id <= nextId
        invariant gone == old(gone) + (old(views).Keys - views.Keys)
        invariant forall k | k in views :: id <= k && k in old(views) && views[k] == old(views)[k]
        invariant forall k | k in old(views) && k !in views :: old(views)[k].destroyed
        invariant forall k | k in old(views) ::
                    && old(views)[k].zoomFactor == old(views[k].zoomFactor)
                    && old(views)[k].bounds == old(views[k].bounds)
                    && old(views)[k].muted == old(views[k].muted)
        invariant selectedId == old(selectedId) && fullscreen == old(fullscreen)
        invariant pendingRetry == old(pendingRetry) && log == old(log)
      {
        OnSurfaceDestroyed(id);
        id := id + 1;
      }
      assert forall k :: k !in views;
    }

    /** Moves the selection to `id`, swaps the attached surface and refits
        the new selection. An id that is not registered changes nothing. */
    method Select(id: int, layout: Layout, callExtension: bool := false)
      requires Valid()
      modifies this, ViewSet(id)
      ensures nextId == old(nextId) && gone == old(gone)
      ensures Valid()
      ensures views == old(views) && fullscreen == old(fullscreen)
      ensures id !in views ==>
                && selectedId == old(selectedId) && attached == old(attached)
                && log == old(log) && pendingRetry == old(pendingRetry)
      ensures id in views ==>
                && selectedId == id
                && attached == (if old(selectedId) in views then old(attached) - {old(selectedId)}
                                else old(attached)) + {id}
                && log == old(log) + [Activated(id)]
                                   + (if callExtension then [ExtensionTabSelected(id)] else [])
                && pendingRetry == RetryAfter(0, layout.toolbar)
                && views[id].bounds == FittedBounds(fullscreen, layout, old(views[id].bounds))
                && views[id].zoomFactor == old(views[id].zoomFactor)
                && views[id].muted == old(views[id].muted)
    {
      var previous := Selected();
      var view := GetById(id);
      if view.None? {
        return;
      }
      selectedId := id;
      if previous.Some? {
        attached := attached - {previous.value.id};
      }
      attached := attached + {id};
      FixBounds(layout);
      log := log + [Activated(id)];
      if callExtension {
        log := log + [ExtensionTabSelected(id)];
      }
    }

    method FixBounds(layout: Layout)
      requires Valid()
      modifies this, ViewSet(selectedId)
      ensures nextId == old(nextId) && gone == old(gone)
      ensures Valid()
      ensures views == old(views) && selectedId == old(selectedId) && fullscreen == old(fullscreen)
      ensures attached == old(attached) && log == old(log)
      ensures selectedId !in views ==> pendingRetry == old(pendingRetry)
      ensures selectedId in views ==>
                && pendingRetry == RetryAfter(0, layout.toolbar)
                && views[selectedId].bounds == FittedBounds(fullscreen, layout, old(views[selectedId].bounds))
                && views[selectedId].zoomFactor == old(views[selectedId].zoomFactor)
                && views[selectedId].muted == old(views[selectedId].muted)
    {
      FixBounds0(0, layout);
    }

    /** One fit step, run with the retry count `count`. With no selected view
        it returns before touching the timer. Otherwise it clears the pending
        retry, measures, schedules a retry when the measurement is not yet
        valid and the cap allows, and in every case goes on to write the new
        rectangle onto the selected view. */
    method FixBounds0(count: nat, layout: Layout)
      requires Valid()
      modifies this, ViewSet(selectedId)
      ensures nextId == old(nextId) && gone == old(gone)
      ensures Valid()
      ensures views == old(views) && selectedId == old(selectedId) && fullscreen == old(fullscreen)
      ensures attached == old(attached) && log == old(log)
      ensures selectedId !in views ==> pendingRetry == old(pendingRetry)
      ensures selectedId in views ==>
                && pendingRetry == RetryAfter(count, layout.toolbar)
                && views[selectedId].bounds == FittedBounds(fullscreen, layout, old(views[selectedId].bounds))
                && views[selectedId].zoomFactor == old(views[selectedId].zoomFactor)
                && views[selectedId].muted == old(views[selectedId].muted)
    {
      var view := Selected();
      if view.None? {
        return;
      }
      pendingRetry := None;
      match layout.toolbar {
        case Fault =>
          return;
        case Height(toolbar) =>
          if toolbar <= 0 && count < MaxRetries {
            pendingRetry := Some(count + 1);
          }
          view.value.bounds := Some(NewBounds(fullscreen, layout.width, layout.height, toolbar));
      }
    }

    /** The retry timer fires (25 ms after it was set; timing itself is not
        modelled): the pending retry is consumed and its fit step runs.
        Without a pending retry nothing happens. */
    method Tick(layout: Layout)
      requires Valid()
      modifies this, ViewSet(selectedId)
      ensures nextId == old(nextId) && gone == old(gone)
      ensures Valid()
      ensures views == old(views) && selectedId == old(selectedId) && fullscreen == old(fullscreen)
      ensures attached == old(attached) && log == old(log)
      ensures old(pendingRetry) == None ==> pendingRetry == None
      ensures old(pendingRetry) == None && selectedId in views ==>
                views[selectedId].bounds == old(views[selectedId].bounds)
      ensures old(pendingRetry).Some? && selectedId !in views ==> pendingRetry == None
      ensures old(pendingRetry).Some? && selectedId in views ==>
                && pendingRetry == RetryAfter(old(pendingRetry).value, layout.toolbar)
                && views[selectedId].bounds == FittedBounds(fullscreen, layout, old(views[selectedId].bounds))
      ensures selectedId in views ==>
                && views[selectedId].zoomFactor == old(views[selectedId].zoomFactor)
                && views[selectedId].muted == old(views[selectedId].muted)
    {
      if pendingRetry.Some? {
        var count := pendingRetry.value;
        pendingRetry := None;
        FixBounds0(count, layout);
      }
    }

    /** fixBounds followed by every retry its timer fires, with nothing else
        in between, while the measurement taken with count c returns stub(c).
        Returns the number of measurements made. */
    method SettleBounds(stub: nat -> int, width: int, height: int) returns (measurements: nat)
      requires Valid() && selectedId in views
      modifies this, ViewSet(selectedId)
      ensures nextId == old(nextId) && gone == old(gone)
      ensures Valid()
      ensures views == old(views) && selectedId == old(selectedId) && fullscreen == old(fullscreen)
      ensures attached == old(attached) && log == old(log)
      ensures pendingRetry == None
      ensures measurements == ChainLength(stub, 0) <= MaxRetries + 1
      ensures views[selectedId].bounds == Some(NewBounds(fullscreen, width, height, ChainFinal(stub, 0)))
    {
      FixBounds(Layout(width, height, Height(stub(0))));
      measurements := 1;
      while pendingRetry.Some?
        invariant Valid() && selectedId in views
        invariant nextId == old(nextId) && gone == old(gone)
        invariant views == old(views) && selectedId == old(selectedId) && fullscreen == old(fullscreen)
        invariant attached == old(attached) && log == old(log)
        invariant 1 <= measurements <= MaxRetries + 1
        invariant pendingRetry.Some? ==>
                    && pendingRetry.value == measurements
                    && ChainLength(stub, 0) == measurements + ChainLength(stub, measurements)
                    && ChainFinal(stub, 0) == ChainFinal(stub, measurements)
        invariant pendingRetry.None? ==>
                    && ChainLength(stub, 0) == measurements
                    && views[selectedId].bounds == Some(NewBounds(fullscreen, width, height, ChainFinal(stub, 0)))
        decreases MaxRetries + 1 - measurements
      {
        Tick(Layout(width, height, Height(stub(measurements))));
        measurements := measurements + 1;
      }
    }

    /** Removes `id`. A registered view is detached, destroyed and reported
        as removed; an unknown id changes nothing, so a second call is a
        no-op. The selection is left as it is. */
    method Destroy(id: int)
      requires Valid()
      modifies this, ViewSet(id)
      ensures nextId == old(nextId) && gone == old(gone) + (if id in old(views) then {id} else {})
      ensures id in old(views) ==>
                && old(views)[id].zoomFactor == old(views[id].zoomFactor)
                && old(views)[id].bounds == old(views[id].bounds)
                && old(views)[id].muted == old(views[id].muted)
      ensures Valid()
      ensures views == old(views) - {id} && id !in views
      ensures selectedId == old(selectedId) && fullscreen == old(fullscreen)
      ensures pendingRetry == old(pendingRetry)
      ensures id in old(views) ==>
                && old(views)[id].destroyed
                && attached == old(attached) - {id}
                && log == old(log) + [Removed(id)]
      ensures id !in old(views) ==> attached == old(attached) && log == old(log)
    {
      var view := GetById(id);
      views := views - {id};
      if view.Some? && !view.value.destroyed {
        attached := attached - {id};
        view.value.Destroy();
        log := log + [Removed(id)];
      }
      if view.Some? {
        gone := gone + {id};
      }
    }

    /** The mute and unmute handlers. They look the view up without a guard,
        so an unknown id throws (ok is false) and changes nothing. */
    method SetMuted(id: int, muted: bool) returns (ok: bool)
      requires Valid()
      modifies ViewSet(id)
      ensures Valid()
      ensures ok <==> id in views
      ensures ok ==> views[id].muted == muted
      ensures ok ==> views[id].zoomFactor == old(views[id].zoomFactor)
                     && views[id].bounds == old(views[id].bounds)
    {
      var view := GetById(id);
      if view.None? {
        return false;
      }
      view.value.SetAudioMuted(muted);
      ok := true;
    }

    /** Sets the selected view's zoom back to the neutral factor 1.0. */
    method ResetZoom(zoomDialogOpen: bool) returns (ok: bool)
      requires Valid()
      modifies this, ViewSet(selectedId)
      ensures nextId == old(nextId) && gone == old(gone)
      ensures Valid()
      ensures views == old(views) && selectedId == old(selectedId) && fullscreen == old(fullscreen)
      ensures pendingRetry == old(pendingRetry) && attached == old(attached)
      ensures ok <==> selectedId in views
      ensures !ok ==> log == old(log)
      ensures ok ==>
                && views[selectedId].zoomFactor == NeutralZoom
                && views[selectedId].bounds == old(views[selectedId].bounds)
                && views[selectedId].muted == old(views[selectedId].muted)
                && log == old(log) + [ViewZoomUpdated(selectedId, NeutralZoom)]
                                   + ZoomUpdateEvents(NeutralZoom, true, zoomDialogOpen)
    {
      var view := Selected();
      if view.None? {
        return false;
      }
      view.value.zoomFactor := NeutralZoom;
      log := log + [ViewZoomUpdated(view.value.id, view.value.zoomFactor)];
      ok := EmitZoomUpdate(true, zoomDialogOpen);
    }

    /** Steps the selected view's zoom one increment in `dir` when the result
        stays within the bounds; otherwise the zoom is kept and the request's
        default action is prevented when it came with an event. The
        resulting factor is broadcast either way. */
    method ChangeZoom(dir: Direction, hasEvent: bool, zoomDialogOpen: bool)
      returns (outcome: ZoomOutcome)
      requires Valid()
      modifies this, ViewSet(selectedId)
      ensures nextId == old(nextId) && gone == old(gone)
      ensures Valid()
      ensures views == old(views) && selectedId == old(selectedId) && fullscreen == old(fullscreen)
      ensures pendingRetry == old(pendingRetry) && attached == old(attached)
      ensures selectedId !in views ==> outcome == NoSelectedView && log == old(log)
      ensures selectedId in views ==>
                var v := views[selectedId];
                && v.zoomFactor == Step(old(v.zoomFactor), dir)
                && (outcome == Applied <==> InRange(Candidate(old(v.zoomFactor), dir)))
                && (outcome != Applied ==> outcome == Rejected(hasEvent))
                && v.bounds == old(v.bounds)
                && v.muted == old(v.muted)
                && log == old(log)
                          + (if outcome == Applied then [ViewZoomUpdated(selectedId, v.zoomFactor)] else [])
                          + ZoomUpdateEvents(v.zoomFactor, true, zoomDialogOpen)
    {
      var view := Selected();
      if view.None? {
        return NoSelectedView;
      }
      var candidate := Candidate(view.value.zoomFactor, dir);
      if candidate <= ZoomFactorMax && candidate >= ZoomFactorMin {
        view.value.zoomFactor := candidate;
        log := log + [ViewZoomUpdated(view.value.id, view.value.zoomFactor)];
        outcome := Applied;
      } else {
        outcome := Rejected(hasEvent);
      }
      var _ := EmitZoomUpdate(true, zoomDialogOpen);
    }

    /** Broadcasts the selected view's zoom factor to the zoom dialog, when
        one is open, and to the window. With no selected view it throws
        (ok is false) before sending anything. */
    method EmitZoomUpdate(showDialog: bool, zoomDialogOpen: bool) returns (ok: bool)
      requires Valid()
      modifies this
      ensures nextId == old(nextId) && gone == old(gone)
      ensures Valid()
      ensures views == old(views) && selectedId == old(selectedId) && fullscreen == old(fullscreen)
      ensures pendingRetry == old(pendingRetry) && attached == old(attached)
      ensures ok <==> selectedId in views
      ensures !ok ==> log == old(log)
      ensures ok ==> log == old(log) + ZoomUpdateEvents(views[selectedId].zoomFactor, showDialog, zoomDialogOpen)
    {
      var view := Selected();
      if view.None? {
        return false;
      }
      log := log + ZoomUpdateEvents(view.value.zoomFactor, showDialog, zoomDialogOpen);
      ok := true;
    }

    /** findByKey as written: it searches Object.values of the map, which is
        empty, so no view is ever found. */
    function FindByKey(key: string): (r: Option<View>)
      reads this
      ensures r == None
    {
      FindFirst(ObjectValues(views), (url: string) => Contains(url, key))
    }

    /** The settingsView getter as written; like findByKey it finds nothing. */
    function SettingsView(): (r: Option<View>)
      reads this
      ensures r == None
    {
      FindFirst(ObjectValues(views), IsSettingsURL)
    }

    /** Array.prototype.find over the registered views in insertion order,
        that is in increasing id order: the matching view with the smallest
        id, or none when no registered view's URL matches. */
    method FindView(matches: string -> bool) returns (r: Option<View>)
      requires Valid()
      ensures r.Some? ==> r.value.id in views && views[r.value.id] == r.value && matches(r.value.url)
      ensures r.Some? ==> forall k | k in views && k < r.value.id :: !matches(views[k].url)
      ensures r.None? ==> forall k | k in views :: !matches(views[k].url)
    {
      var id := 1;
      while id < nextId
        invariant 1 <= id <= nextId
        invariant forall k | k in views && k < id :: !matches(views[k].url)
      {
        if id in views && matches(views[id].url) {
          return Some(views[id]);
        }
        id := id + 1;
      }
      return None;
    }

    /** findByKey as evidently intended. */
    method FindByKeyIntended(key: string) returns (r: Option<View>)
      requires Valid()
      ensures r.Some? ==> r.value.id in views && views[r.value.id] == r.value
      ensures r.Some? ==> Contains(r.value.url, key)
      ensures r.Some? ==> forall k | k in views && k < r.value.id :: !Contains(views[k].url, key)
      ensures r.None? ==> forall k | k in views :: !Contains(views[k].url, key)
    {
      r := FindView((url: string) => Contains(url, key));
    }

    /** The settingsView getter as evidently intended. */
    method SettingsViewIntended() returns (r: Option<View>)
      requires Valid()
      ensures r.Some? ==> r.value.id in views && views[r.value.id] == r.value
      ensures r.Some? ==> IsSettingsURL(r.value.url)
      ensures r.Some? ==> forall k | k in views && k < r.value.id :: !IsSettingsURL(views[k].url)
      ensures r.None? ==> forall k | k in views :: !IsSettingsURL(views[k].url)
    {
      r := FindView(IsSettingsURL);
    }
  }
}
