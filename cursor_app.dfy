/**
 * The cursor effect as the script runs it: one global app state `$` whose
 * fields every handler updates in place, together with the DOM state the
 * handlers write (the cursor element's inline style, the `#cursor`
 * stylesheet rule and the inline `transform` of page elements). Each method
 * is proved to have exactly the effect of the matching function in
 * CursorFrame, where the properties of those effects are proved.
 */
module CursorApp {

  import opened Wrappers
  import opened CssText
  import opened CursorMode
  import opened CursorFrame

  class AppState {
    // width and height of the general cursor
    var baseCursorWidth: string
    var baseCursorHeight: string
    // the shape painted on the next frame
    var cursorWidth: string
    var cursorHeight: string
    var borderRadius: string
    // latest pointer position
    var mouseX: int
    var mouseY: int
    var hoveredElement: Option<ElemId>
    // when true the cursor stops following the pointer
    var isCursorLocked: bool
    // whether `load` has created the cursor element
    var hasCursor: bool
    // inline style of the cursor element, property name to value
    var cursorStyle: map<string, string>
    // `transition` of the injected `#cursor` rule, once injected
    var sheetTransition: Option<string>
    // inline `transform` of page elements; an element without one is absent
    var transforms: map<ElemId, string>

    function Snapshot(): State
      reads this
    {
      State(baseCursorWidth, baseCursorHeight, cursorWidth, cursorHeight, borderRadius,
            mouseX, mouseY, isCursorLocked, hoveredElement,
            hasCursor, cursorStyle, sheetTransition, transforms)
    }

    /** The script's declaration of `$`, on a page whose elements carry `pageTransforms`. */
    constructor (pageTransforms: map<ElemId, string>)
      ensures Snapshot() == InitialState(pageTransforms)
    {
      baseCursorWidth, baseCursorHeight := "10px", "10px";
      cursorWidth, cursorHeight, borderRadius := "10px", "10px", "0px";
      mouseX, mouseY := 0, 0;
      hoveredElement := None;
      isCursorLocked := false;
      hasCursor := false;
      cursorStyle := map[];
      sheetTransition := None;
      transforms := pageTransforms;
    }

    /** `load`, run on DOMContentLoaded. */
    method Load(touch: bool, data: CursorData)
      modifies this
      ensures Snapshot() == AfterLoad(old(Snapshot()), touch, data)
    {
      // touch devices get no custom cursor
      if !touch {
        var w := OrDefault(data.w, "10px");
        var h := OrDefault(data.h, "10px");
        var style := map["width" := w, "height" := h, "background" := OrDefault(data.bg, "gray"),
                         "opacity" := "0.5", "border-radius" := "50%"];
        hasCursor := true;
        baseCursorWidth, baseCursorHeight := w, h;
        cursorWidth, cursorHeight := w, h;
        borderRadius := HalfOf(w);
        cursorStyle := style;
        sheetTransition := Some(Transition(BaseTransition));
        assert Snapshot() == AfterLoad(old(Snapshot()), touch, data);
      }
    }

    /** The `mousemove` listener; without the cursor it was never registered. */
    method OnMouseMove(x: int, y: int)
      modifies this
      ensures Snapshot() == Step(old(Snapshot()), MouseMove(x, y))
    {
      if hasCursor {
        mouseX, mouseY := x, y;
      }
    }

    /** `resetCursor` */
    method ResetCursor()
      requires hasCursor
      modifies this
      ensures Snapshot() == Reset(old(Snapshot()))
    {
      cursorStyle := cursorStyle - {"z-index"};
      cursorStyle := cursorStyle - {"opacity"};
      cursorStyle := cursorStyle - {"transition"};
    }

    /** `useGeneralCursor` */
    method UseGeneralCursor()
      requires hasCursor
      modifies this
      ensures Snapshot() == GeneralCursor(old(Snapshot()))
    {
      ResetCursor();
      cursorWidth := baseCursorWidth;
      cursorHeight := baseCursorHeight;
      borderRadius := HalfOf(baseCursorWidth);
    }

    /** `useTextCursor`; `fontSize` is the hovered element's computed font size. */
    method UseTextCursor(fontSize: string)
      requires hasCursor && hoveredElement.Some?
      modifies this
      ensures Snapshot() == TextCursor(old(Snapshot()), fontSize)
    {
      ResetCursor();
      cursorWidth := "1px";
      cursorHeight := fontSize;
    }

    /** `useFillCursor`, its rectangle arithmetic given as `g`. */
    method UseFillCursor(g: Geometry)
      requires hasCursor && hoveredElement.Some?
      modifies this
      ensures Snapshot() == FillCursor(old(Snapshot()), g)
    {
      cursorWidth := g.fillWidth;
      cursorHeight := g.fillHeight;
      borderRadius := "3px";
      cursorStyle := cursorStyle["transition" := Transition(FillTransition)];
      cursorStyle := cursorStyle["z-index" := "-1"];
      cursorStyle := cursorStyle["opacity" := "0.3"];
      cursorStyle := cursorStyle["transform" := g.fillCursorTransform];
      transforms := transforms[hoveredElement.value := g.fillElementTransform];
    }

    /** `useDragCursor`, its parallax arithmetic given as `g`. */
    method UseDragCursor(g: Geometry)
      requires hasCursor && hoveredElement.Some?
      modifies this
      ensures Snapshot() == DragCursor(old(Snapshot()), g)
    {
      cursorWidth := "5px";
      cursorHeight := "5px";
      cursorStyle := cursorStyle["opacity" := "0"];
      cursorStyle := cursorStyle["transition" := "initial"];
      transforms := transforms[hoveredElement.value := g.dragElementTransform];
    }

    /** `onCursorMove`: one animation frame; `under` is what `elementFromPoint` returns. */
    method OnCursorMove(under: Option<Element>, g: Geometry)
      modifies this
      ensures Snapshot() == Frame(old(Snapshot()), under, g)
    {
      if !hasCursor {
        return;
      }
      ghost var s0 := Snapshot();
      cursorStyle := cursorStyle["width" := cursorWidth];
      cursorStyle := cursorStyle["height" := cursorHeight];
      cursorStyle := cursorStyle["border-radius" := borderRadius];
      if !isCursorLocked {
        cursorStyle := cursorStyle["transform" := FollowTransform(mouseX, mouseY, cursorWidth, cursorHeight)];
      }
      // a transform left by the drag or fill handler on the element hovered last frame
      if hoveredElement.Some? {
        transforms := transforms - {hoveredElement.value};
      }
      assert Snapshot() == ClearHovered(Paint(s0));
      hoveredElement := if under.Some? then Some(under.value.id) else None;
      if under.None? {
        return;
      }
      DispatchMode(under.value, g);
    }

    /** Lines 99-141 of `onCursorMove`: the first matching branch sets the lock and runs its handler. */
    method DispatchMode(e: Element, g: Geometry)
      requires hasCursor && hoveredElement == Some(e.id)
      modifies this
      ensures Snapshot() == Dispatch(old(Snapshot()), e, g)
    {
      if e.cursorAttr == Some("fill") {
        isCursorLocked := true;
        UseFillCursor(g);
        return;
      }
      if e.cursorAttr == Some("drag") {
        isCursorLocked := true;
        UseDragCursor(g);
        return;
      }
      if e.tagName in TextElementTags {
        isCursorLocked := false;
        UseTextCursor(e.fontSize);
        return;
      }
      if e.tagName == "INPUT" {
        isCursorLocked := false;
        ResetCursor();
        if e.typeAttr in TextInputTypes {
          ResetStyleIdempotent(old(cursorStyle));
          UseTextCursor(e.fontSize);
        } else {
          UseGeneralCursor();
        }
        return;
      }
      isCursorLocked := false;
      UseGeneralCursor();
    }

    /** The page's life: pointer events and animation frames, in the order they fire. */
    method Animate(events: seq<Event>)
      modifies this
      ensures Snapshot() == Run(old(Snapshot()), events)
    {
      var i := 0;
      while i < |events|
        invariant 0 <= i <= |events|
        invariant Snapshot() == Run(old(Snapshot()), events[..i])
      {
        match events[i] {
          case MouseMove(x, y) => OnMouseMove(x, y);
          case AnimationFrame(under, g) => OnCursorMove(under, g);
        }
        assert events[..i + 1][..i] == events[..i];
        i := i + 1;
      }
      assert events[..|events|] == events;
    }
  }
}
