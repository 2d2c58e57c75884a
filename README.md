# A verified model of the ipad-cursor-js frame loop

The library hides the native pointer and draws a `#cursor` element that
follows the mouse. On every animation frame `onCursorMove` paints the shape
kept in the global app state `$`, centres the cursor on the pointer unless it
is locked, removes the inline `transform` it may have left on the element
hovered last frame, looks up the topmost element under the pointer and,
by a fixed priority, switches to one of four modes:

| mode | chosen when | locked | shape |
|---|---|---|---|
| Fill | `data-cursor="fill"` | yes | the element's rectangle plus a margin, radius `3px`, faded to `0.3`, below the element, slower transition |
| Drag | `data-cursor="drag"` | yes | `5px`, opacity `0`, transition `initial`, radius kept |
| Text | tag `P SPAN H1 H2 H3 H4 TEXTAREA`, or an `INPUT` whose `type` is `text email number password search tel url` or absent | no | `1px` wide, as tall as the computed font size |
| General | anything else, other `INPUT`s included | no | the base size, radius `calc(<base width> / 2)` |

The Dafny project has five modules:

- `Wrappers` — `Option`.
- `CssText` — integers as a template literal prints them (with a parser that
  reads them back), and the `transition` serialiser (`Join` of the rendered
  entries, with `Split` and `Count` to state what the text contains).
- `CursorMode` — the element under the pointer (`data-cursor`, tag name,
  `type` attribute, computed font size) and the priority rule `SelectMode`.
- `CursorFrame` — the state one frame reads and writes, as a value: the
  fields of `$`, whether `load` created the cursor, the cursor's inline
  style, the `transition` of the injected `#cursor` rule and the inline
  `transform` of every element. Each handler, one frame (`Frame`) and a
  sequence of pointer events and frames (`Run`) are functions on it, and the
  lemmas state what a frame does.
- `CursorApp` — the class `AppState`, which holds the same fields and
  updates them in place as the script does; every method is proved to have
  exactly the effect of the matching `CursorFrame` function.

Three things are given to the model rather than computed by it. The element
under the pointer is what `document.elementFromPoint` returns. The font size
is what `getComputedStyle` returns. The fill and drag sizes and transforms
are `Geometry`, the already-rendered results of the rectangle and parallax
arithmetic.

What the code does not do, and the model therefore does not either:
- there is no native-reset mode;
- the hovered element is the single topmost element, with no search for an
  ancestor carrying a `data-cursor` attribute;
- the frame does not wait for the mouse coordinates to be set, only for the
  cursor element;
- only the element hovered on the previous frame has its `transform` removed;
  no set of displaced elements is kept.

That removal also drops a transform the page itself put inline on an element
once the pointer has been over it (`FrameClearsPreviousHover` does not care
where the transform came from); `RunDisplacesOnlyHovered` shows that, on a
page with no inline transforms of its own, no transform is ever left behind
on an element the pointer has left.

## Model

| member | source | states |
|---|---|---|
| `CursorMode.SelectMode` | index.js:100-141 | fill exactly when `data-cursor` is `fill`; drag exactly when it is `drag`; text exactly when neither attribute is set and the tag is a text tag or an INPUT with a text-like or absent `type`; general otherwise |
| `CursorMode.FillParagraph` | index.js:100-104 | a `P` marked `data-cursor="fill"` selects Fill, not Text |
| `CursorMode.TextInputsSelectText` | index.js:118-133 | an INPUT with no fill/drag attribute whose `type` is absent or one of the seven text-like types selects Text, which does not lock |
| `CursorMode.OtherInputsSelectGeneral` | index.js:118-136 | an INPUT with any other `type` selects General, which does not lock |
| `CursorApp.AppState.constructor` | index.js:11-26 | `$` starts with 10px sizes, radius `0px`, mouse at 0,0, nothing hovered, unlocked, and no cursor element yet |
| `CursorApp.AppState.Load` | index.js:28-78 | nothing on a touch device; otherwise creates the cursor, takes the base sizes from `data-w`/`data-h`, sets the current shape to them, writes the cursor's initial inline style and installs the stylesheet transition |
| `CursorFrame.LoadShape` | index.js:37-41 | after load the current size equals the base size and the radius is half the base width; each base size is the `data-w`/`data-h` attribute when present and non-empty, and `10px` when it is absent or empty, so never empty; the stylesheet transition is `width 0.15s,height 0.15s,opacity 0.15s,transform 0.07s` |
| `CursorFrame.TouchInstallsNothing` | index.js:29-32 | on a touch device load changes nothing, and by induction over any sequence of pointer events and frames the state never changes: no cursor is drawn and no listener records the pointer |
| `CursorFrame.BaseTransitionText` | index.js:63-68 | the stylesheet's transition text, entry by entry |
| `CursorApp.AppState.OnMouseMove` | index.js:74-77 | the listener records the pointer position; before load it was never registered |
| `CursorApp.AppState.ResetCursor` | index.js:147-152 | removes the cursor's inline `z-index`, `opacity` and `transition` and changes nothing else |
| `CursorFrame.ResetStyle` | index.js:147-152 | a style property survives exactly when it is not one of the three overrides, with its value unchanged |
| `CursorFrame.ResetStyleIdempotent` | index.js:118-133 | the input branch resets before a text handler that resets again; the second reset changes nothing |
| `CursorApp.AppState.UseGeneralCursor` | index.js:154-159 | overrides removed, current size set to the base size, radius `calc(<base width> / 2)` |
| `CursorApp.AppState.UseTextCursor` | index.js:223-230 | overrides removed, width `1px`, height the computed font size |
| `CursorApp.AppState.UseFillCursor` | index.js:161-205 | size from the geometry, radius `3px`, the fill transition, z-index `-1`, opacity `0.3`, cursor and hovered element transforms from the geometry |
| `CursorFrame.FillTransitionText` | index.js:176-181 | the fill transition text is `width 0.2s,height 0.2s,opacity 0.15s,transform 0.15s` |
| `CursorApp.AppState.UseDragCursor` | index.js:207-221 | width and height `5px`, opacity `0`, transition `initial`, the hovered element's transform from the geometry; radius and other style untouched |
| `CursorApp.AppState.OnCursorMove` | index.js:81-142 | one frame has exactly the effect of `Frame`: paint, follow unless locked, clear the last hovered element's transform, resolve the new element, dispatch |
| `CursorApp.AppState.DispatchMode` | index.js:99-141 | the source's branch chain, including the input branch's extra reset, has exactly the effect of setting the lock and running the handler `SelectMode` picks |
| `CursorApp.AppState.Animate` | index.js:81-145 | the rescheduled frames and the pointer events, in order, have exactly the effect of `Run` |
| `CursorFrame.FrameWithoutCursor` | index.js:83 | with no cursor element a frame changes nothing |
| `CursorFrame.FramePaintsPreviousShape` | index.js:85-87 | after the frame the cursor's inline width, height and radius are those `$` held before it, whatever the mode |
| `CursorFrame.FrameFollowsMouse` | index.js:88-90 | when the previous frame left the cursor unlocked, its transform centres it on the pointer using the previous width and height, unless a fill handler overwrites it in the same frame |
| `CursorFrame.FrameLockedKeepsPosition` | index.js:88-90 | when the previous frame locked the cursor, its transform is not rewritten, unless a fill handler overwrites it |
| `CursorFrame.LockedFrameThenFrozen` | index.js:88-110 | the lock tested at line 88 is the previous frame's: after a fill or drag frame the next frame does not move the cursor to the pointer |
| `CursorFrame.FollowTransformInjective` | index.js:88-90 | the follow transform's text determines the pointer coordinates it was built from |
| `CssText.IntToStringRoundTrip` | index.js:89 | an integer rendered into the transform parses back to itself |
| `CursorFrame.FrameClearsPreviousHover` | index.js:91-96 | the element hovered last frame has no inline transform after the frame unless it is again the fill or drag target |
| `CursorFrame.FrameLeavesOtherElements` | index.js:91-96 | an element neither hovered last frame nor under the pointer keeps its inline transform |
| `CursorFrame.FrameNoElement` | index.js:96-98 | with nothing under the pointer the hovered element becomes none and size, radius, base sizes and lock stay as they were |
| `CursorFrame.FrameLockFollowsMode` | index.js:96-141 | the element under the pointer becomes the hovered one, and the cursor is locked exactly in fill and drag mode |
| `CursorFrame.FrameFill` | index.js:100-205 | fill mode wins over the tag: locked, geometry size, radius `3px`, fill transition, z-index `-1`, opacity `0.3`, geometry transforms on cursor and element, all other element transforms as after clearing |
| `CursorFrame.FrameDrag` | index.js:106-221 | drag mode wins over the tag: locked, `5px` by `5px`, opacity `0`, transition `initial`, radius unchanged, geometry transform on the element only |
| `CursorFrame.FrameText` | index.js:112-116 | text mode: unlocked, width `1px`, height the font size, radius and base sizes unchanged, no inline override left so the stylesheet transition applies |
| `CursorFrame.FrameGeneral` | index.js:138-141 | general mode: unlocked, base width and height, radius `calc(<base width> / 2)`, base sizes unchanged, no inline override left |
| `CursorFrame.StepDisplacesOnlyHovered` | index.js:74-96 | if only the hovered element carries an inline transform, the same holds after a pointer event or a frame |
| `CursorFrame.RunDisplacesOnlyHovered` | index.js:91-96 | by induction over any sequence of pointer events and frames, at most the hovered element is displaced |
| `CursorFrame.InitialDisplacesNothing` | index.js:11-41 | right after load, on a touch device or not and whatever the cursor's data attributes, a page without inline transforms has nothing displaced |
| `CssText.EntryTexts` | index.js:262-264 | the entries are rendered one by one, in order, as `key value` followed by `s` |
| `CssText.TransitionEmpty` | index.js:262-265 | no entries give the empty string |
| `CssText.TransitionShape` | index.js:262-265 | for comma-free keys and values the text splits at its commas back into the rendered entries, in order, and n entries use n - 1 commas |
| `CssText.SplitJoin` | index.js:265 | splitting a join of separator-free pieces gives the pieces back |
| `CssText.JoinCount` | index.js:265 | a join of n separator-free pieces holds n - 1 separators |

## Left out

- Touch detection, element creation, `appendChild`, the `* {cursor: none;}` rule and the rest of the injected stylesheet text: only their effect on the state is modelled (whether the cursor exists, its initial inline style, the stylesheet's `transition`).
- The rectangle and parallax arithmetic of `useFillCursor`, `useDragCursor` and `parallaxShiftAmount` is floating point over `getBoundingClientRect`; its rendered results are the `Geometry` parameter, so the unguarded division by a zero width or height is not modelled.
- `getComputedStyle` and `elementFromPoint` are browser calls; their results are parameters (the element's font size, the element under the pointer).
- `requestAnimationFrame` and `addEventListener` scheduling are modelled as the order of events given to `Run` and `Animate`; timing is not.
- Pointer coordinates are integers; the browser's `clientX`/`clientY` may be fractional, and how JavaScript prints a fractional number is not modelled. `IntToString` prints every digit, which matches JavaScript only below 1e21 in magnitude (from there JavaScript uses exponent form, such as `1e+21`); pointer coordinates never come near that.
- Transition durations are the printed texts of the numbers (`"0.15"`), not numbers, so no float formatting is involved.
- The browser ignores an inline style value it cannot parse; the model stores every value as written.
- Which element `document.getElementById("cursor")` finds and the reuse of an existing cursor element: the model only records that a cursor exists and the data attributes read from it.
