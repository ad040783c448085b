# ViewManager: tab orchestration of a browser window, in Dafny

This project models the `ViewManager` of the browser shell
(`src/main/view-manager.ts`). The manager owns the tab views of one window,
keyed by id. It tracks the selected id (0 for none), the fullscreen flag and
the incognito flag that every view it creates inherits. It attaches and
detaches view surfaces on the window. It fits the selected view's rectangle
under the toolbar, and a single retry timer covers toolbar measurements that
are not valid yet. It also steps and resets the selected view's zoom.

Files and modules:

- `views.dfy` (`Views`): the `View` class with the fields the manager reads
  and writes: id, URL, incognito, zoom factor, bounds, muted, destroyed.
- `zoom.dfy` (`Zoom`): the zoom bounds as abstract constants, the zoom step
  and lemmas about repeated zoom requests. Factors are integer hundredths.
- `bounds.dfy` (`Bounds`): the fitted rectangle, the retry rule and the
  length of a retry chain.
- `manager.dfy` (`Manager`): the `ViewManager` class. `Valid()` is its
  object invariant: every registered view is keyed by its own id, is not
  destroyed and has the manager's incognito flag; the selected id never
  names an id that is not yet allocated; a pending retry carries a count in
  1..40; the ghost set `gone` records the views that were created and have
  since been removed.
- `scenarios.dfy` (`Scenarios`): client methods that draw conclusions from
  the contracts alone: two tabs selected and destroyed, a slow toolbar, and
  the lookups that see no views.

How the outside world is modelled:

- Outgoing notifications are appended to `log` as `Event`s: `create-tab`,
  `remove-tab`, `activated`, `removed`, the view's `zoom-updated`, the
  zoom dialog's and the window's `zoom-factor-updated`, and the extension
  session's `selectTab`.
- The window is the `attached` set of view ids. The content size and the
  toolbar measurement come in as a `Layout` parameter on every fit step. A
  measurement is a height, or a fault when the page script is rejected.
- The 25 ms timer is the field `pendingRetry`. It holds the count that the
  scheduled `fixBounds0` call will run with. `Tick` fires it.
- The zoom dialog's presence is a parameter. The `e` argument of
  `changeZoom` becomes the flag `hasEvent`.
- `View` ids come from a counter, `nextId`, that starts at 1 and only grows.
  Insertion order in the `Map` is therefore increasing id order.

Behaviour of the code as written that the model keeps:

- `fixBounds0` schedules a retry and still writes a rectangle in the same
  step.
- The rectangle is written every time: `newBounds !== view.bounds` compares
  a fresh object by reference, so redundant writes are never skipped.
- A retry chain runs with counts 0 to 40, so up to 41 measurements.
- Measurement failures are not caught. A rejected measurement ends the step
  after the timer has been cleared.
- `clear` destroys no view (see Findings).
- `destroy` never resets `selectedId`.

## Model

| member | source | states |
|---|---|---|
| Views.View.constructor | src/main/view-manager.ts:156 | a new view carries the given id, URL and incognito flag, zoom 1.0, no bounds, not muted, not destroyed |
| Views.View.Destroy | src/main/view-manager.ts:292 | the view is destroyed afterwards, whatever it was before (destroying twice is harmless); zoom, bounds and muted are untouched |
| Views.View.SetAudioMuted | src/main/view-manager.ts:79-87 | the muted flag takes the given value; nothing else of the view changes |
| Zoom.Candidate | src/main/view-manager.ts:114-118 | definition: the proposed factor, one increment above (in) or below (out) the current one |
| Zoom.Step | src/main/view-manager.ts:113-131 | the factor changes if and only if the candidate lies in [min, max], and then becomes the candidate; a factor within the bounds stays within them |
| Zoom.StepNSaturates | src/main/view-manager.ts:113-133 | n requests in one direction from a factor in bounds move it by k <= n whole increments, keep it in bounds, and if k < n the factor is at a fixpoint where the next candidate is out of bounds |
| Zoom.ZoomInStopsAtMax | src/main/view-manager.ts:113-133 | repeated zoom-in never exceeds the maximum; it either applied every request or stopped within one increment of the maximum, where one more request leaves the factor unchanged |
| Bounds.NewBounds | src/main/view-manager.ts:252-257 | the rectangle starts at x = 0 with the full content width, and y + height equals the content height; fullscreen gives y = 0, windowed gives y = toolbar height |
| Bounds.RetryAfter | src/main/view-manager.ts:233-250 | a step leaves a retry pending if and only if the measurement is a height <= 0 and count < 40; the retry carries count + 1, which stays in 1..40 |
| Bounds.FittedBounds | src/main/view-manager.ts:240-263 | after a height measurement the view holds the freshly computed rectangle, whatever it held before; after a fault it keeps its old bounds |
| Bounds.ChainLength | src/main/view-manager.ts:225-250 | a retry chain makes at least one measurement and at most 41 - count of them |
| Bounds.ChainStopsAtFirstValid | src/main/view-manager.ts:246-250 | a chain whose first positive height comes at count i <= 40 makes exactly i - count + 1 measurements and fits under that height |
| Bounds.ChainGivesUp | src/main/view-manager.ts:246-250 | a chain whose measurements are all <= 0 makes exactly 41 - count measurements and fits under the last one |
| Bounds.FiveZerosThen48 | src/main/view-manager.ts:246-257 | heights 0, 0, 0, 0, 0, 48 give six measurements and a windowed rectangle at y = 48 |
| Bounds.AlwaysZero | src/main/view-manager.ts:246-257 | heights that are always 0 give 41 measurements and a windowed rectangle covering the whole content area at y = 0 |
| Manager.ZoomUpdateEvents | src/main/view-manager.ts:297-310 | the zoom dialog, when open, gets the factor first; the window always gets the factor with the show-dialog flag last |
| Manager.ObjectValues | src/main/view-manager.ts:140 | definition: Object.values applied to a Map, which is the empty array whatever the map holds (also used at lines 146 and 183) |
| Manager.Contains | src/main/view-manager.ts:147 | the includes test: every prefix of a string, the empty key included, is contained in it, and no key longer than the string is |
| Manager.IsSettingsURL | src/main/view-manager.ts:141 | the startsWith test against the settings prefix; a URL that passes it also contains that prefix |
| Manager.FindFirst | src/main/view-manager.ts:140-148 | the search returns a view of the sequence whose URL matches and before which no URL matches (the first match, as `find` promises), and none only when no URL matches |
| Manager.FindFirstIsFirst | src/main/view-manager.ts:140-148 | when the view at index i matches and no earlier one does, the search returns exactly that view |
| Manager.ViewManager.constructor | src/main/view-manager.ts:16-20 | a new manager has no views, no selection, no fullscreen, no pending retry, nothing attached and an empty log, keeps the given incognito flag, and satisfies the invariant |
| Manager.ViewManager.GetById | src/main/view-manager.ts:28-30 | a view is returned exactly for registered ids, and it carries that id and is not destroyed; id 0 finds nothing |
| Manager.ViewManager.Selected | src/main/view-manager.ts:135-137 | the selected view exists exactly when selectedId is registered, and it is the view with that id; selectedId 0 yields none |
| Manager.ViewManager.SetFullscreen | src/main/view-manager.ts:32-35 | the flag takes the new value and the selected view, if any, is refitted with it |
| Manager.ViewManager.Create | src/main/view-manager.ts:151-175 | exactly one entry is added under a fresh id; the view has the requested URL and the manager's incognito flag; the selection, timer and attached surfaces are untouched; create-tab(details, isNext, id) is logged exactly when sendMessage holds |
| Manager.ViewManager.OnSurfaceDestroyed | src/main/view-manager.ts:167-169 | when a view's surface reports destruction its entry is dropped; nothing is detached or logged and the selection stays |
| Manager.ViewManager.RemoveByTabId | src/main/view-manager.ts:177-179 | remove-tab(id) is appended to the log and nothing else changes |
| Manager.ViewManager.Clear | src/main/view-manager.ts:181-184 | the window is left with no attached surface, while every view stays registered and alive |
| Manager.ViewManager.ClearIntended | src/main/view-manager.ts:181-184 | corrected clear: nothing attached, every registered view destroyed and dropped, selection and log unchanged |
| Manager.ViewManager.Select | src/main/view-manager.ts:186-222 | an unregistered id changes nothing; a registered id becomes the selection, the previous selection's surface is detached and the new one attached, the view is refitted from count 0, and activated(id) is logged, followed by the extension notice exactly when callExtension holds (false by default) |
| Manager.ViewManager.FixBounds | src/main/view-manager.ts:226-228 | a fit from count 0: same effect as FixBounds0 with count 0 |
| Manager.ViewManager.FixBounds0 | src/main/view-manager.ts:229-264 | with no selected view nothing changes, not even the pending retry; otherwise the old retry is cleared, the retry rule decides the new one, and the selected view's bounds are rewritten after every height measurement |
| Manager.ViewManager.Tick | src/main/view-manager.ts:247-249 | with no pending retry nothing changes; otherwise the retry is consumed and its fit step runs with the carried count |
| Manager.ViewManager.SettleBounds | src/main/view-manager.ts:225-263 | a fit followed by every retry its timer fires makes exactly ChainLength measurements (at most 41), leaves no retry pending, and leaves the rectangle computed from the chain's last height |
| Manager.ViewManager.Destroy | src/main/view-manager.ts:285-295 | the id is absent afterwards; a registered view is detached, destroyed and logged as removed; an unknown id changes nothing, so a second call is a no-op; the selection and the id allocator are never touched, and the removed view keeps its zoom, bounds and muted flag |
| Manager.ViewManager.SetMuted | src/main/view-manager.ts:79-87 | a registered view gets the muted flag; an unknown id fails and changes nothing |
| Manager.ViewManager.ResetZoom | src/main/view-manager.ts:104-111 | the selected view's zoom is exactly 1.0 whatever it was, its bounds and muted flag are kept, and the view's and the window's updates are logged; with no selected view it fails and changes nothing |
| Manager.ViewManager.ChangeZoom | src/main/view-manager.ts:113-133 | the zoom becomes the candidate if and only if the candidate is within bounds; otherwise the request is rejected with its default prevented when it came with an event; the resulting factor is broadcast in both cases; the view's bounds and muted flag are kept; with no selected view nothing changes |
| Manager.ViewManager.EmitZoomUpdate | src/main/view-manager.ts:297-310 | the selected view's current factor is sent to the open zoom dialog and then to the window; with no selected view nothing is sent |
| Manager.ViewManager.FindByKey | src/main/view-manager.ts:145-149 | as written, the lookup never finds a view |
| Manager.ViewManager.SettingsView | src/main/view-manager.ts:139-143 | as written, the settings lookup never finds a view |
| Manager.ViewManager.FindView | src/main/view-manager.ts:140-148 | the result is the registered view with the smallest id, that is the first in insertion order, whose URL matches; none only when no registered URL matches |
| Manager.ViewManager.FindByKeyIntended | src/main/view-manager.ts:145-149 | corrected findByKey: the first registered view whose URL contains the key, or none when no URL contains it |
| Manager.ViewManager.SettingsViewIntended | src/main/view-manager.ts:139-143 | corrected settings lookup: the first registered view whose URL starts with the settings prefix, or none when no URL does |

## Findings

| source | as written | input that shows it | evidently intended | confidence | as-written member | corrected member |
|---|---|---|---|---|---|---|
| src/main/view-manager.ts:181-184 | `clear` destroys the entries of `Object.values(this.views)`, which is empty for a `Map` | a manager holding one view: after `clear` the view is still registered and not destroyed (Scenarios.LookupsSeeNoViews) | destroy every registered view | not executed; high | Manager.ViewManager.Clear | Manager.ViewManager.ClearIntended |
| src/main/view-manager.ts:145-149 | `findByKey` searches `Object.values(this.views)`, always empty | a registered view whose URL contains the key: the lookup returns nothing (Scenarios.LookupsSeeNoViews) | search the map's values | not executed; high | Manager.ViewManager.FindByKey | Manager.ViewManager.FindByKeyIntended |
| src/main/view-manager.ts:139-143 | `settingsView` searches `Object.values(this.views)`, always empty | a registered settings view: the getter returns nothing (Scenarios.LookupsSeeNoViews) | search the map's values | not executed; high | Manager.ViewManager.SettingsView | Manager.ViewManager.SettingsViewIntended |

## Left out

- The IPC wiring in the constructor (lines 44-99) and `setBoundsListener`
  (lines 266-283) only dispatch to the modelled methods. The resize
  listener's handler is `FixBounds`. The mute and unmute handlers are
  `SetMuted`. The dev-tools handler is left out because it only calls into
  the web contents.
- Electron side effects of `select`: focus, title, bookmark indicator and
  navigation state. They touch no state of the manager, so `Select` has no
  `focus` parameter. `console.log` and `browserView.setBounds` are left out
  too; the latter is folded into the `bounds` field.
- Real timing and the `await` in `fixBounds0`. A fit step is atomic, with
  its measurement given as input. In the source, two overlapping fits can
  have measurements in flight at the same time; if both return 0, both set
  a timer and the first handle is overwritten. The "at most one pending
  retry" invariant holds only in this atomic model.
- IEEE floating-point zoom. Factors are integer hundredths, so the sums are
  exact. The values of ZOOM_FACTOR_MIN, ZOOM_FACTOR_MAX and
  ZOOM_FACTOR_INCREMENT are abstract; only min <= max and increment > 0 are
  used. WEBUI_BASE_URL is abstract too.
- `View` internals, since view.ts is not part of this model: how ids are
  allocated (a counter here), the blank-page URL used when none is given
  (`TabDetails` always carries one), and the surface itself.
- The extension session's `selectTab` is only logged; its failures are not
  modelled.
- The fullscreen getter is the field `fullscreen` itself.
- src/main/services/messaging.ts, src/preloads/view-preload.ts and
  src/main/user-agent.ts are not part of this model. They hold IPC, DOM
  glue and a constant user agent.
- Manager.ViewManager.SettleBounds: covers only chains whose measurements
  are all heights. A fault ends a chain with no retry pending, as FixBounds0
  states.
