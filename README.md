# Verified model of the video editor's canvas interactions and property panels

This project is a Dafny model of the interactive core of a React video editor.

**Canvas interaction layer**
- The scene's selection and drag engine (`SceneInteractions`):
  - which selected items are visible at the current or seeked time;
  - the marquee that selects items by rectangle overlap;
  - dragging the selected elements by a shared, zoom-scaled delta, committed as one batched `EDIT_OBJECT` payload.
- The class-name id parser (`getIdFromClassName`).
- The board zoom: fit-to-container, and the bounded wheel step.

**Navbar**
- The viewport presets: grouping by category, the first-match lookup of the design size with a custom fallback, and the `DESIGN_RESIZE` request.

**Property panels**
- Which track item the panel shows, and which editor it renders.
- The handle-attachment rewrite of `DraggableWrapper`.
- The media format derivation.
- The numeric input gates of the outline, shadow, opacity and speed panels.

**Form of the model**

Modules follow the source files:

| module | source |
|---|---|
| `Interactions` | `scene/interactions.tsx` |
| `SceneIds` | `utils/scene.ts` |
| `Zoom` | `hooks/use-zoom.tsx` |
| `Viewport` | `navbar.tsx` |
| `ControlItem` | `control-item/control-item.tsx` |
| `DraggableWrapper` | `components/DraggableWrapper.tsx` |
| `MediaProperties` | `common/media-properties.tsx` |
| `Outline` | `common/outline.tsx` |
| `Shadow` | `common/shadow.tsx` |
| `Opacity` | `common/opacity.tsx` |
| `Speed` | `common/speed.tsx` |

Where the source changes state, the model is a class; where it only computes, the model is functions.
- **Stateful parts.** Each is a class whose methods are the events or effects:
  - the interaction handlers;
  - the zoom hook;
  - the viewport selector;
  - the panel container;
  - the media properties effect.

  Calls to the external store and the event bus become ghost logs: `selections` (for `stateManager.updateState`), `edits` (for `dispatch(EDIT_OBJECT)`) and `resizes` (for `dispatch(DESIGN_RESIZE)`).
- **Scene items** are an `array<SceneItem>`, updated in place. Each item holds its class string, its style `left`/`top` (`None` when `parseFloat` gives NaN) and its preview transform. Targets are indices into that array.
- **The drag snapshot.** The snapshot `Map` is a sequence with distinct elements.
- **Inputs that come from outside.** The following are parameters of the event methods, because they come from the DOM or the player:
  - live bounding rectangles;
  - the closest scene item under the pointer;
  - `getTargetById`;
  - the player's current time.
- **`Number(text)`.** The conversion is `JsNumber.Number`, which maps `""` to 0 and any other text through an abstract `parse` parameter that gives a number or NaN.
- **The input gates.** Each panel's gate is a function that returns the value handed to the throttled callback, or `None` when nothing is forwarded.

Behaviour follows the code. Consequences worth knowing:
- `pointercancel` is bound to the same handler as `pointerup`, so a cancelled drag commits its positions and dispatches `EDIT_OBJECT`. `Interactions.SceneInteractions.PointerCancel` models the commit.
- A release whose box is exactly 5 on a side, or large on one side and small on the other, ends the marquee and leaves selection and targets unchanged.
- Any change of `targets` or `zoom` re-runs the drag effect, which takes a new snapshot and resets `localIsDragging`. A target refresh in the middle of a drag therefore ends that drag without a commit (`Resnapshot`).
- The id is taken after the leftmost place where the pattern `designcombo-scene-item id-` *followed by a non-space* matches. This is not simply the first occurrence of the marker: a marker followed by a space is skipped (`SceneIds.MarkerBeforeSpaceSkipped`).
- After a commit, the snapshot is not refreshed until the targets change. A second drag of the same targets starts from the positions snapshotted before the first drag.

## Model

| member | source | states |
|---|---|---|
| SceneIds.NonSpaceRun | src/features/editor/utils/scene.ts:4 | The greedy `[^ ]+` capture: a prefix of its input, without spaces, ending at the first space or at the end. |
| SceneIds.LeftmostMatch | src/features/editor/utils/scene.ts:4-5 | The position found matches the pattern and no earlier position does; `None` means no position matches. |
| SceneIds.GetIdFromClassName | src/features/editor/utils/scene.ts:1-7 | Empty input gives `""`. The result is non-empty exactly when marker-plus-non-space occurs. It is the maximal non-space run after the leftmost match, and never contains a space. |
| SceneIds.NonSpaceRunStopsAtSpace | src/features/editor/utils/scene.ts:4 | A space-free id followed by nothing or by a space is captured whole. |
| SceneIds.RoundTrip | src/features/editor/utils/scene.ts:4-6 | Parsing `prefix + marker + id + rest` returns `id`, for a non-empty space-free id, a `rest` that is empty or starts with a space, and a prefix without the marker. |
| SceneIds.MarkerBeforeSpaceSkipped | src/features/editor/utils/scene.ts:4-6 | A marker followed by a space does not match; the id after the next marker is returned. |
| Interactions.VisibleAt | src/features/editor/scene/interactions.tsx:42-45 | The filter test: the item exists and its display window contains the time, both ends included. Its properties are stated by `VisibleAtEnds`. |
| Interactions.VisibleAtEnds | src/features/editor/scene/interactions.tsx:42-45 | Only an item with a non-empty window is ever visible, and it is visible at both ends of that window. |
| Interactions.VisibleIds | src/features/editor/scene/interactions.tsx:41-46 | An id is kept iff it is selected, present in `trackItemsMap`, and `from <= t <= to`. The result is never longer than the selection. |
| Interactions.VisibleIdsAppend | src/features/editor/scene/interactions.tsx:41-46 | The filter distributes over concatenation, so selection order is preserved. |
| Interactions.VisibleIdsIdempotent | src/features/editor/scene/interactions.tsx:41-46 | Filtering an already filtered selection changes nothing. |
| Interactions.ResolveTargets | src/features/editor/scene/interactions.tsx:47-49 | The elements are exactly the lookups of the ids that resolve; unresolved ids are dropped. |
| Interactions.ResolveTargetsAppend | src/features/editor/scene/interactions.tsx:47-49 | `map` then `filter(Boolean)` keeps the order and multiplicity of the ids: resolving `a + b` is resolving `a`, then `b`. |
| Interactions.ResolveTargetsSingle | src/features/editor/scene/interactions.tsx:47-49 | One id gives its element when `getTargetById` finds it, and nothing otherwise. |
| Interactions.EffectiveTime | src/features/editor/scene/interactions.tsx:39 | The given time, or the player's time when it is absent or falsy. Its properties are stated by `EffectiveTimeFallsBack`. |
| Interactions.EffectiveTimeFallsBack | src/features/editor/scene/interactions.tsx:39 | The time used is the player's or a non-zero given time. An absent or zero time always means the player's time. |
| Interactions.TargetsAt | src/features/editor/scene/interactions.tsx:38-49 | An element is a target iff some selected id visible at the given time (or at the player's time when that is absent or 0) resolves to it. |
| Interactions.TargetsAtAppend | src/features/editor/scene/interactions.tsx:38-49 | Targets follow the order of the selected ids: the targets of `a + b` are those of `a` followed by those of `b`. |
| Interactions.SeekTime | src/features/editor/scene/interactions.tsx:58-61 | The seek time in milliseconds: multiplied by `fps` it gives `frame * 1000`; it is 0 exactly for frame 0 and positive for later frames. |
| Interactions.SeekToFirstFrameUsesPlayerTime | src/features/editor/scene/interactions.tsx:38-61 | A seek to frame 0 gives time 0, which is falsy, so the targets are those at the player's current time. |
| Interactions.SpanBox | src/features/editor/scene/interactions.tsx:111-116 | The box has non-negative width and height, contains both the start and the current point, and has them as opposite corners. |
| Interactions.Overlaps | src/features/editor/scene/interactions.tsx:139-143 | For proper rectangles and a box of positive size, the strict four-sided test holds exactly when their intersection has positive width and height. |
| Interactions.Hits | src/features/editor/scene/interactions.tsx:137-147 | The indices are strictly increasing (document order), and an item is included iff its rect overlaps the box strictly. |
| Interactions.HitTest | src/features/editor/scene/interactions.tsx:133-147 | The loop over all items returns exactly `Hits` over all rects. |
| Interactions.IdsOf | src/features/editor/scene/interactions.tsx:150-152 | One id per hit element. No id contains a space, and an id is non-empty exactly when the element's class string matches the scene-item pattern. |
| Interactions.IdsOfTaggedElement | src/features/editor/scene/interactions.tsx:150-152 | An element whose class string carries `designcombo-scene-item id-<id>`, followed by a space or the end, contributes `<id>` at its position. |
| Interactions.Entry | src/features/editor/scene/interactions.tsx:218-227 | One snapshot entry: the id parsed from the class string, `parseFloat` of `left`/`top` with 0 for NaN, and a zero transform. Its properties are stated by `EntryReadsElement`. |
| Interactions.EntryReadsElement | src/features/editor/scene/interactions.tsx:218-227 | An entry is for its element, starts untranslated, has a space-free id, and keeps `left`/`top` where they parse. Committing it at once puts the element at those positions, or at 0 where they do not parse. |
| Interactions.Snapshot | src/features/editor/scene/interactions.tsx:217-228 | One entry per distinct target. Each entry holds the element's id, `parseFloat` of `left`/`top` (0 for NaN), and a zero transform; the elements are exactly the targets. |
| Interactions.SnapshotFollowsTargets | src/features/editor/scene/interactions.tsx:217-228 | Without repeated targets, entry `k` is target `k`'s entry. |
| Interactions.CommittedPosition | src/features/editor/scene/interactions.tsx:285-286 | The release position: the snapshot position plus the preview translation. Stated through `CommittedMovesByPreview`. |
| Interactions.Committed | src/features/editor/scene/interactions.tsx:285-291 | The element after the release: new `left`/`top`, transform cleared. Stated through `CommittedMovesByPreview`. |
| Interactions.CommittedMovesByPreview | src/features/editor/scene/interactions.tsx:285-291 | A committed element keeps its class list, has no transform left, and sits at its snapshot position moved by the preview translation. |
| Interactions.CommitAllAt | src/features/editor/scene/interactions.tsx:284-291 | Each snapshotted element gets `initial + delta` as `left`/`top` and a cleared transform; other elements are untouched. |
| Interactions.Payload | src/features/editor/scene/interactions.tsx:279-300 | The payload's keys are exactly the snapshot's ids. |
| Interactions.PayloadEntry | src/features/editor/scene/interactions.tsx:294-299 | Each id maps to the committed position of its last entry. |
| Interactions.UnmovedCommitKeepsPositions | src/features/editor/scene/interactions.tsx:217-291 | A release without movement commits every element at its snapshot position. |
| Interactions.SceneInteractions.constructor | src/features/editor/scene/interactions.tsx:22-32 | Nothing is selected, selecting or dragging, and the logs are empty. |
| Interactions.TakeSnapshot | src/features/editor/scene/interactions.tsx:207-228 | The loop over the targets builds exactly `Snapshot(scene, targets)`: later repeats of a target leave its entry as it is, and every entry starts with a zero transform. |
| Interactions.SceneInteractions.Resnapshot | src/features/editor/scene/interactions.tsx:198-232 | The snapshot becomes `Snapshot(items, targets)`, with dragging off and start at 0; marquee state and logs are unchanged. |
| Interactions.SceneInteractions.UpdateTargets | src/features/editor/scene/interactions.tsx:38-51 | The targets become `TargetsAt(...)` and the drag state is re-snapshotted. |
| Interactions.SceneInteractions.Refresh | src/features/editor/scene/interactions.tsx:54-56 | Same as `UpdateTargets`, at the player's current time. |
| Interactions.SceneInteractions.Seeked | src/features/editor/scene/interactions.tsx:58-62 | Same as `UpdateTargets`, at `frame / fps * 1000`. |
| Interactions.SceneInteractions.ZoomChanged | src/features/editor/scene/interactions.tsx:198-232 | A new zoom re-runs the drag effect: same targets, fresh snapshot, dragging off. |
| Interactions.SceneInteractions.PointerDown | src/features/editor/scene/interactions.tsx:78-250 | On a snapshotted element, a drag starts at the pointer and nothing else changes. On another item, the selection is logged as exactly `[id]` with `updateHistory: false` and the targets become that element. On empty space, selecting starts with a zero-size box at the pointer. |
| Interactions.SceneInteractions.PointerMove | src/features/editor/scene/interactions.tsx:103-267 | While selecting, the box is `SpanBox(start, p)`. While dragging, every snapshotted element and entry gets the same translation `(p - start) / zoom`. Otherwise nothing changes. |
| Interactions.SceneInteractions.ApplyPreview | src/features/editor/scene/interactions.tsx:260-266 | Every entry and exactly the snapshotted elements get the given translation. |
| Interactions.SceneInteractions.EndDrag | src/features/editor/scene/interactions.tsx:269-304 | After a drag, every snapshotted element is committed, the others are untouched, and exactly one `Payload` is logged; otherwise it is a no-op. |
| Interactions.SceneInteractions.EndMarquee | src/features/editor/scene/interactions.tsx:120-166 | A box over 5 on both sides selects the overlapping items in order. A box under 5 on both sides clears the selection and targets. Any other box changes neither. Selecting always ends; it is a no-op when not selecting. |
| Interactions.SceneInteractions.PointerUp | src/features/editor/scene/interactions.tsx:120-304 | Both release handlers apply: the drag commit, then the marquee outcome. |
| Interactions.SceneInteractions.PointerCancel | src/features/editor/scene/interactions.tsx:173-174 | Exactly `PointerUp`'s contract: a drag is committed with one payload, the marquee resolves in its three box outcomes, untouched elements keep their state, and zoom, start and box are unchanged. |
| Zoom.FitZoom | src/features/editor/hooks/use-zoom.tsx:12-20 | The fit zoom is the smaller of the two axis ratios over the 96px-padded container, unclamped. |
| Zoom.FitZoomFits | src/features/editor/hooks/use-zoom.tsx:12-20 | At the fit zoom, a design of positive size fits inside the padded container on both axes. |
| Zoom.NextZoom | src/features/editor/hooks/use-zoom.tsx:25-33 | The step is +0.0085 iff `deltaY > 0`, else −0.0085. It is applied iff the result lies in [0.001, 10]; otherwise the zoom is unchanged. |
| Zoom.WheelKeepsRange | src/features/editor/hooks/use-zoom.tsx:29-32 | From a zoom in [0.001, 10], no sequence of wheel steps leaves that range. |
| Zoom.WheelCannotLeaveFarOutside | src/features/editor/hooks/use-zoom.tsx:17-32 | A fit zoom more than one step outside the range can never be changed by the wheel. |
| Zoom.ZoomState.constructor | src/features/editor/hooks/use-zoom.tsx:5-6 | Zoom and ref both start at 0.01. |
| Zoom.ZoomState.FitToContainer | src/features/editor/hooks/use-zoom.tsx:8-23 | With a container, zoom and ref both become `FitZoom`; without one, nothing changes. |
| Zoom.ZoomState.HandleZoomChange | src/features/editor/hooks/use-zoom.tsx:25-33 | Zoom and ref both become `NextZoom` of the ref; a changed zoom lies in [0.001, 10]. |
| Viewport.CategoryOf | src/features/editor/navbar.tsx:315 | The option's category, or "Other" when it is missing or empty. Its properties are stated by `CategoryOfFallback`. |
| Viewport.CategoryOfFallback | src/features/editor/navbar.tsx:315 | The category is never empty. It is "Other" exactly when the option has no category, an empty one, or "Other" itself; otherwise it is the option's own category. |
| Viewport.InCategory | src/features/editor/navbar.tsx:313-323 | The options of one category, in list order: an option is in it iff it is in the list with that category. |
| Viewport.GroupOptions | src/features/editor/navbar.tsx:313-323 | The `reduce` loop builds exactly `Grouped(options)`. |
| Viewport.GroupedByCategory | src/features/editor/navbar.tsx:313-323 | A group exists iff some option has that category (missing or empty means "Other"), and it holds that category's options in list order. |
| Viewport.InCategoryCount | src/features/editor/navbar.tsx:313-323 | A category's group keeps every copy of its options and nothing else. |
| Viewport.GroupsPartition | src/features/editor/navbar.tsx:313-323 | Every option sits, as often as in the list, in its own category's group and in no other. |
| Viewport.Sections | src/features/editor/navbar.tsx:326-401 | Sections are drawn only from the given categories, only for present non-empty groups, and every such group appears. |
| Viewport.SectionsAppend | src/features/editor/navbar.tsx:326-401 | Sections keep the order of the categories: the menu for `a + b` is the menu for `a` followed by the menu for `b`. |
| Viewport.PresetMenu | src/features/editor/navbar.tsx:244-401 | The preset menu is Video Standards (HD, Full HD, 4K), then Social Media (the four social presets); "Other" is skipped. |
| Viewport.FindPreset | src/features/editor/navbar.tsx:330-332 | A found option is in the list and has the size; `None` iff no option has it. |
| Viewport.FindPresetIsFirst | src/features/editor/navbar.tsx:330-332 | The lookup returns the first option of that size. |
| Viewport.Custom | src/features/editor/navbar.tsx:338-344 | The custom option has the design's width and height, the "Custom size" description, and no category, and it is never one of the presets. |
| Viewport.CurrentOptionFor | src/features/editor/navbar.tsx:329-346 | The shown option always has the design's width and height. It is a preset, or else a custom "Custom size" option without category, exactly when no preset matches. The custom option is labelled `W×H` and has aspect `W:H`. |
| Viewport.StoryBeforeReels | src/features/editor/navbar.tsx:329-335 | 1080×1920 shows "Instagram Story". |
| Viewport.ReelsNeverShown | src/features/editor/navbar.tsx:329-346 | "TikTok/Reels" is never the shown option, for any size. |
| Viewport.ChosenPresetShown | src/features/editor/navbar.tsx:329-355 | Resizing to a chosen preset's size shows that preset again, unless an earlier preset has the same size. |
| Viewport.ViewportSelector.constructor | src/features/editor/navbar.tsx:308-310 | No current option, and no resize requested. |
| Viewport.ViewportSelector.SizeChanged | src/features/editor/navbar.tsx:329-346 | The current option becomes `CurrentOptionFor(size)`. |
| Viewport.ViewportSelector.HandleViewportChange | src/features/editor/navbar.tsx:348-356 | Exactly one resize is logged, with the option's width, height and label as name. |
| ControlItem.PanelItemFor | src/features/editor/control-item/control-item.tsx:30-35 | The merged item carries the track item exactly when one exists for the id, and the entry's details, or `{}` when it has none. |
| ControlItem.ActiveControlItem | src/features/editor/control-item/control-item.tsx:65-93 | The placeholder appears iff there is no item. The empty render happens iff the item's type has no editor. A chosen editor is the one for the item's type. |
| ControlItem.EditorRoundTrip | src/features/editor/control-item/control-item.tsx:81-89 | Each of text, caption, image, video and audio gets the editor for that type. |
| ControlItem.SingleSelectionShowsItsEditor | src/features/editor/control-item/control-item.tsx:27-93 | A single selected item with details is shown in its type's editor, with the entry's details or `{}`. |
| ControlItem.Container.constructor | src/features/editor/control-item/control-item.tsx:24 | Both items start empty. |
| ControlItem.Container.SelectionChanged | src/features/editor/control-item/control-item.tsx:27-51 | With one active id and a details entry, both items become the spread item with its details. With one id and no entry, both are unchanged. Otherwise both become null. Local and layout items stay equal. |
| DraggableWrapper.AttachToHandle | src/features/editor/components/DraggableWrapper.tsx:49-73 | Text is returned unchanged. A handle gets the listeners, with its subtree untouched. Other elements keep class, listener flag and number of children. |
| DraggableWrapper.AttachAll | src/features/editor/components/DraggableWrapper.tsx:46-74 | The rewrite gives one rewritten child per (modelled) child. |
| DraggableWrapper.FindAndAttachToHandle | src/features/editor/components/DraggableWrapper.tsx:46-74 | `Children.map` always yields an array. |
| DraggableWrapper.AttachKeepsShape | src/features/editor/components/DraggableWrapper.tsx:49-73 | Only listener flags change: shape, class names, texts and child order are kept at every level. |
| DraggableWrapper.AttachIdempotent | src/features/editor/components/DraggableWrapper.tsx:49-73 | Rewriting twice equals rewriting once. |
| DraggableWrapper.AttachReachesTopmostHandles | src/features/editor/components/DraggableWrapper.tsx:53-70 | On a tree without listeners, the listeners end on exactly the topmost handles. |
| DraggableWrapper.DraggableContentAsWritten | src/features/editor/components/DraggableWrapper.tsx:76-91 | As written, the wrapper always carries the listeners around the unrewritten child. |
| DraggableWrapper.HandleIgnoredAsWritten | src/features/editor/components/DraggableWrapper.tsx:76-91 | A panel with a `drag-handle` child: as written, the handle gets no listeners and the wrapper does. |
| DraggableWrapper.DraggableContent | src/features/editor/components/DraggableWrapper.tsx:44-91 | With a handle class name, the wrapper has no listeners and wraps the rewritten element; without one, the wrapper carries them. |
| DraggableWrapper.ListenersOnlyOnHandles | src/features/editor/components/DraggableWrapper.tsx:44-91 | With a handle class name, the listeners reach exactly the topmost handles, and the tree's shape is kept. |
| DraggableWrapper.Render | src/features/editor/components/DraggableWrapper.tsx:107-118 | As written: non-element children are returned bare; an element is wrapped unchanged, with the listeners on the wrapper, whatever the handle class name. |
| DraggableWrapper.RenderIntended | src/features/editor/components/DraggableWrapper.tsx:44-118 | As intended: an element keeps its shape; with a handle class name the listeners reach exactly the topmost handles and not the wrapper; without one the wrapper carries them. |
| MediaProperties.LastSegment | src/features/editor/control-item/common/media-properties.tsx:24 | The maximal dot-free suffix: the whole string without a dot, otherwise the text after the last dot. |
| MediaProperties.LastSegmentAfterDot | src/features/editor/control-item/common/media-properties.tsx:24 | For `base + "." + ext` with a dot-free `ext`, the segment is `ext`. |
| MediaProperties.UpperChar | src/features/editor/control-item/common/media-properties.tsx:24 | A lower-case ASCII letter becomes its own capital; every other character is kept. |
| MediaProperties.ToUpper | src/features/editor/control-item/common/media-properties.tsx:24 | Same length; each lower-case ASCII letter becomes its capital, every other character is kept, and no lower-case letter remains. |
| MediaProperties.ToUpperIdempotent | src/features/editor/control-item/common/media-properties.tsx:24 | Upper-casing an upper-cased string changes nothing. |
| MediaProperties.Format | src/features/editor/control-item/common/media-properties.tsx:24 | Never empty and dot-free; "Unknown" iff the last segment is empty. |
| MediaProperties.FormatOfExtension | src/features/editor/control-item/common/media-properties.tsx:24 | `name.ext` shows `EXT`. |
| MediaProperties.FormatWithoutDot | src/features/editor/control-item/common/media-properties.tsx:24 | A dot-free source shows itself upper-cased. |
| MediaProperties.FormatAfterTrailingDot | src/features/editor/control-item/common/media-properties.tsx:24 | A source ending in "." shows "Unknown". |
| MediaProperties.DimensionsRow | src/features/editor/control-item/common/media-properties.tsx:44-51 | The row is shown iff both width and height are present and non-zero, and shows them. |
| MediaProperties.FormatRow | src/features/editor/control-item/common/media-properties.tsx:53-58 | The row is shown iff the format is non-empty. |
| MediaProperties.MediaPropertiesPanel.constructor | src/features/editor/control-item/common/media-properties.tsx:18 | The properties start as `{}`. |
| MediaProperties.MediaPropertiesPanel.TrackItemChanged | src/features/editor/control-item/common/media-properties.tsx:20-34 | With a truthy `src`, the properties become width, height and src copied from the details, plus the format (so the format row shows). Otherwise they are unchanged. |
| JsNumber.Number | src/features/editor/control-item/common/shadow.tsx:115 | `Number(text)`: empty text converts to 0 and is never NaN; other text converts as the parser says. |
| Outline.OnOutlineEdit | src/features/editor/control-item/common/outline.tsx:99-136 | A width is forwarded iff the text is non-empty, numeric and in [0, 100], and equals `Number(text)`. A color is forwarded unchanged. |
| Shadow.Accepts | src/features/editor/control-item/common/shadow.tsx:113-116 | A text is accepted exactly when it is non-empty and `Number(text)` is a number of at least 0. |
| Shadow.NonNegativeInput | src/features/editor/control-item/common/shadow.tsx:113-118 | A number is given iff the text is non-empty and converts to a number `>= 0`; there is no upper bound. |
| Shadow.OnShadowEdit | src/features/editor/control-item/common/shadow.tsx:84-185 | X, Y and Blur are forwarded iff accepted, with only that field replaced by the number. A color pick replaces only the color. |
| Shadow.ShadowEditIdempotent | src/features/editor/control-item/common/shadow.tsx:84-185 | Repeating an accepted edit on its result forwards that result again. |
| Shadow.ShadowEditsCommute | src/features/editor/control-item/common/shadow.tsx:84-185 | Accepted edits of different fields commute. |
| Opacity.OnOpacityEdit | src/features/editor/control-item/common/opacity.tsx:34-50 | Empty text is forwarded as 0. Other text is forwarded iff it converts to a number in [0, 100], and lies within the slider's range. The slider forwards its first value. |
| Speed.Commit | src/features/editor/control-item/common/speed.tsx:17-31 | Any non-empty text is forwarded as `Number(text)`, NaN included. |
| Speed.OnSpeedEdit | src/features/editor/control-item/common/speed.tsx:17-75 | A change is forwarded iff non-empty, numeric and `>= 0`. Blur forwards any non-empty text. Enter does the same and other keys do nothing. The slider forwards its first value. |
| Speed.EmptyNeverForwarded | src/features/editor/control-item/common/speed.tsx:17-62 | No path of the input box forwards empty text. |
| Speed.EnterActsAsBlur | src/features/editor/control-item/common/speed.tsx:17-31 | Enter forwards exactly what blur forwards. |
| Speed.BlurRepeatsChange | src/features/editor/control-item/common/speed.tsx:17-62 | What a change forwards, blur forwards unchanged. |
| Speed.BlurForwardsRejectedText | src/features/editor/control-item/common/speed.tsx:17-62 | Non-empty text that a change rejects is NaN or negative, and blur still forwards it. |

## Left out

- Event plumbing is not modelled:
  - listener registration and teardown;
  - `requestAnimationFrame` coalescing of marquee and drag moves (applied at once here);
  - pointer capture;
  - the `setTimeout` deferral of the target refresh (an explicit `Refresh` event here);
  - the active-ids store subscription.

  Each handler is one atomic method call, and events arrive in sequence.
- The marquee handlers read `isSelecting`, `startPos` and `selectionBox` from the closure of the effect run that registered them. The model gives every event the latest state, so stale-closure interleavings are not captured.
- DOM geometry and lookups are inputs, not modelled:
  - `getBoundingClientRect` (the `rects` parameter, one per scene item in document order);
  - `closest(".designcombo-scene-item")` (`onItem`);
  - `getTargetById` (a `lookup` map).

  `utils/target` and `utils/time` are not part of this model; the player's time is a parameter.
- Render-only state is not modelled: the `isDragging` state, the `designcombo-draggable` class on targets, and the selection-box overlay JSX.
- The `EDIT_OBJECT` payload's `"<n>px"` strings are recorded as numeric positions.
- Interactions.SceneInteractions.constructor: requires a non-zero zoom, because drag deltas divide by it; a zero zoom would make the deltas infinite or NaN.
- Interactions.SceneInteractions.Seeked: requires `fps > 0`; the source divides by `fps`.
- Interactions.SceneInteractions.UpdateTargets: requires the `lookup` to resolve only to elements of the board.
- Zoom.ZoomState.FitToContainer: requires a non-zero design size. The source divides by it, giving infinite or NaN zooms, which are not modelled.
- Floating point is not modelled: zoom, positions, deltas and typed numbers are exact reals. Infinities are not modelled; NaN only through `JsNum`.
- `Number`/`parseFloat` of non-empty text is an abstract parser. Only `Number("") == 0` and `parseFloat(x) || 0` are fixed.
- MediaProperties.ToUpper: upper-cases ASCII letters only, not full Unicode case mapping.
- MediaProperties.UpperChar: maps ASCII `a`–`z` only, where `toUpperCase` applies the full Unicode case mapping.
- DraggableWrapper.AttachAll: `null`, `undefined` and boolean children, and nested arrays of children, are not modelled. `React.Children.map` drops the first kind from its result and flattens the second, so the source's rewrite can change the number of children where the model's cannot.
- The `size` field of the media properties is never written by the source, and stays absent here.
- Only the details fields the panels read are modelled (`src`, `width`, `height`).
- ControlItem.Container.SelectionChanged: the `transitionsMap` branch has an empty body in the source and is modelled as "no change".
- The layout store is written only by this container in the model.
- Throttling (`useThrottledCallback`) is timing only: each gate returns the value handed to the throttled callback.
- The navbar's undo/redo, export, and debounced project title are not modelled; they are foreign calls and timers.
- `AspectRatioIcon`'s float scaling and all markup are not modelled.
- The `DndContext` sensors (activation distance) are not modelled.
- React keys are not modelled.
- DraggableWrapper: a single child returned by the nested `Children.map` becomes a one-element array. It renders the same, and the model does not distinguish the two.
- `use-store.ts`, `player.tsx`, `board.tsx`, `scene.tsx`, `DndDraggable.tsx` and `vite.config.ts` are not part of this model.

## Findings

| source | as written | input that shows it | evidently intended | confidence | as-written member | corrected member |
|---|---|---|---|---|---|---|
| src/features/editor/components/DraggableWrapper.tsx:76-83 | `React.isValidElement` is applied to the result of `React.Children.map`, which is always an array, so the handle branch never runs. The listeners always go on the outer wrapper, and the rewritten tree is discarded. | `handleClassName = "drag-handle"` around `<div className="panel"><div className="drag-handle"/>…</div>` | With a handle class name, only the handle elements carry the drag listeners and the wrapper does not; the comment "find it and apply the listeners" says so. | medium, not executed | DraggableWrapper.DraggableContentAsWritten | DraggableWrapper.DraggableContent |

`DraggableWrapper.Render` renders the content as written; `DraggableWrapper.RenderIntended` renders the corrected content.
