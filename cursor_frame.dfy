/**
 * The global app state `$` of index.js as a value, the effect of each mode
 * handler and of one animation frame on it, and what those effects promise.
 * The class in CursorApp performs the same updates in place and is proved
 * against these functions.
 */
module CursorFrame {

  import opened Wrappers
  import opened CssText
  import opened CursorMode

  /**
   * Everything one frame reads or writes: the fields of `$`, whether `load`
   * has created the cursor element, the cursor's inline style (property name
   * to value), the `transition` of the `#cursor` stylesheet rule once it is
   * installed, and the inline `transform` of every element that has one.
   */
  datatype State = State(
    baseCursorWidth: string,
    baseCursorHeight: string,
    cursorWidth: string,
    cursorHeight: string,
    borderRadius: string,
    mouseX: int,
    mouseY: int,
    isCursorLocked: bool,
    hoveredElement: Option<ElemId>,
    hasCursor: bool,
    cursorStyle: map<string, string>,
    sheetTransition: Option<string>,
    transforms: map<ElemId, string>)

  /**
   * What the fill and drag handlers compute from `getBoundingClientRect` and
   * the parallax arithmetic, already rendered as CSS text.
   */
  datatype Geometry = Geometry(
    fillWidth: string,
    fillHeight: string,
    fillCursorTransform: string,
    fillElementTransform: string,
    dragElementTransform: string)

  /** The `data-w`, `data-h` and `data-bg` attributes of the cursor element. */
  datatype CursorData = CursorData(w: Option<string>, h: Option<string>, bg: Option<string>)

  /** `$` as the script declares it, before `load` runs; the page's own inline transforms are given. */
  function InitialState(pageTransforms: map<ElemId, string>): State {
    State("10px", "10px", "10px", "10px", "0px", 0, 0, false, None,
          false, map[], None, pageTransforms)
  }

  /** `attr || fallback`: an absent or empty attribute is falsy. */
  function OrDefault(attr: Option<string>, fallback: string): (r: string)
    ensures attr.Some? && attr.value != "" ==> r == attr.value
    ensures attr.None? || attr.value == "" ==> r == fallback
    ensures fallback != "" ==> r != ""
  {
    if attr.Some? && attr.value != "" then attr.value else fallback
  }

  /** `calc(<w> / 2)`: half the width, a circle. */
  function HalfOf(w: string): string {
    "calc(" + w + " / 2)"
  }

  const BaseTransition: seq<TransitionEntry> :=
    [("width", "0.15"), ("height", "0.15"), ("opacity", "0.15"), ("transform", "0.07")]

  const FillTransition: seq<TransitionEntry> :=
    [("width", "0.2"), ("height", "0.2"), ("opacity", "0.15"), ("transform", "0.15")]

  lemma TransitionOfFour(a: TransitionEntry, b: TransitionEntry, c: TransitionEntry, d: TransitionEntry)
    ensures Transition([a, b, c, d]) ==
      EntryText(a) + "," + EntryText(b) + "," + EntryText(c) + "," + EntryText(d)
  {
    var t := EntryTexts([a, b, c, d]);
    assert t == [EntryText(a), EntryText(b), EntryText(c), EntryText(d)];
    assert t[1..][1..][1..] == [EntryText(d)];
    assert Join(t[1..][1..], ',') == EntryText(c) + "," + EntryText(d);
    assert Join(t[1..], ',') == EntryText(b) + "," + (EntryText(c) + "," + EntryText(d));
  }

  lemma BaseTransitionText()
    ensures Transition(BaseTransition) == "width 0.15s,height 0.15s,opacity 0.15s,transform 0.07s"
  {
    var lhs := "width 0.15s" + "," + "height 0.15s" + "," + "opacity 0.15s" + "," + "transform 0.07s";
    var rhs := "width 0.15s,height 0.15s,opacity 0.15s,transform 0.07s";
    assert |lhs| == |rhs|;
    assert forall i | 0 <= i < |lhs| :: lhs[i] == rhs[i];
    assert lhs == rhs;
    assert EntryText(("width", "0.15")) == "width 0.15s";
    assert EntryText(("height", "0.15")) == "height 0.15s";
    assert EntryText(("opacity", "0.15")) == "opacity 0.15s";
    assert EntryText(("transform", "0.07")) == "transform 0.07s";
    TransitionOfFour(("width", "0.15"), ("height", "0.15"), ("opacity", "0.15"), ("transform", "0.07"));
  }

  lemma FillTransitionText()
    ensures Transition(FillTransition) == "width 0.2s,height 0.2s,opacity 0.15s,transform 0.15s"
  {
    var lhs := "width 0.2s" + "," + "height 0.2s" + "," + "opacity 0.15s" + "," + "transform 0.15s";
    var rhs := "width 0.2s,height 0.2s,opacity 0.15s,transform 0.15s";
    assert |lhs| == |rhs|;
    assert forall i | 0 <= i < |lhs| :: lhs[i] == rhs[i];
    assert lhs == rhs;
    assert EntryText(("width", "0.2")) == "width 0.2s";
    assert EntryText(("height", "0.2")) == "height 0.2s";
    assert EntryText(("opacity", "0.15")) == "opacity 0.15s";
    assert EntryText(("transform", "0.15")) == "transform 0.15s";
    TransitionOfFour(("width", "0.2"), ("height", "0.2"), ("opacity", "0.15"), ("transform", "0.15"));
  }

  /** `load`: nothing on a touch device; otherwise the cursor, its base shape and the stylesheet. */
  function AfterLoad(s: State, touch: bool, data: CursorData): State {
    if touch then s
    else
      var w := OrDefault(data.w, "10px");
      var h := OrDefault(data.h, "10px");
      s.(hasCursor := true,
         baseCursorWidth := w, baseCursorHeight := h,
         cursorWidth := w, cursorHeight := h, borderRadius := HalfOf(w),
         cursorStyle := map["width" := w, "height" := h, "background" := OrDefault(data.bg, "gray"),
                            "opacity" := "0.5", "border-radius" := "50%"],
         sheetTransition := Some(Transition(BaseTransition)))
  }

  /** The `transition` in force on the cursor: the inline one, else the stylesheet's. */
  function EffectiveTransition(s: State): Option<string> {
    if "transition" in s.cursorStyle then Some(s.cursorStyle["transition"]) else s.sheetTransition
  }

  /** The inline overrides that `resetCursor` removes. */
  const Overrides: set<string> := {"z-index", "opacity", "transition"}

  /** `resetCursor` on the cursor's inline style. */
  function ResetStyle(style: map<string, string>): (r: map<string, string>)
    ensures forall k :: k in r <==> k in style && k != "z-index" && k != "opacity" && k != "transition"
    ensures forall k :: k in r ==> r[k] == style[k]
  {
    style - Overrides
  }

  lemma ResetStyleIdempotent(style: map<string, string>)
    ensures ResetStyle(ResetStyle(style)) == ResetStyle(style)
  {
  }

  function Reset(s: State): State {
    s.(cursorStyle := ResetStyle(s.cursorStyle))
  }

  /** `useGeneralCursor` */
  function GeneralCursor(s: State): State {
    Reset(s).(cursorWidth := s.baseCursorWidth, cursorHeight := s.baseCursorHeight,
              borderRadius := HalfOf(s.baseCursorWidth))
  }

  /** `useTextCursor`, given the computed font size of the hovered element. */
  function TextCursor(s: State, fontSize: string): State {
    Reset(s).(cursorWidth := "1px", cursorHeight := fontSize)
  }

  /** `useFillCursor`: the size and the two transforms come from the geometry. */
  function FillCursor(s: State, g: Geometry): State
    requires s.hoveredElement.Some?
  {
    s.(cursorWidth := g.fillWidth, cursorHeight := g.fillHeight, borderRadius := "3px",
       cursorStyle := s.cursorStyle["transition" := Transition(FillTransition)]["z-index" := "-1"]
                                   ["opacity" := "0.3"]["transform" := g.fillCursorTransform],
       transforms := s.transforms[s.hoveredElement.value := g.fillElementTransform])
  }

  /** `useDragCursor`: no `resetCursor`, and the radius is left alone. */
  function DragCursor(s: State, g: Geometry): State
    requires s.hoveredElement.Some?
  {
    s.(cursorWidth := "5px", cursorHeight := "5px",
       cursorStyle := s.cursorStyle["opacity" := "0"]["transition" := "initial"],
       transforms := s.transforms[s.hoveredElement.value := g.dragElementTransform])
  }

  /** The transform that centres the cursor on the pointer. */
  function FollowTransform(x: int, y: int, w: string, h: string): string {
    "translate(calc(" + IntToString(x) + "px - (" + w + " / 2)), calc("
      + IntToString(y) + "px - (" + h + " / 2))) "
  }

  lemma Regroup(a: string, x: string, b: string, w: string, c: string, y: string, d: string, h: string, e: string)
    ensures a + x + b + w + c + y + d + h + e == a + x + (b + w + c + y + d + h + e)
    ensures a + x + b + w + c + y + d + h + e == (a + x + b + w + c) + y + (d + h + e)
  {
  }

  /** The follow transform is faithful: its text determines the mouse position it was built from. */
  lemma FollowTransformInjective(x1: int, y1: int, x2: int, y2: int, w: string, h: string)
    requires FollowTransform(x1, y1, w, h) == FollowTransform(x2, y2, w, h)
    ensures x1 == x2 && y1 == y2
  {
    var a, b, c, d, e := "translate(calc(", "px - (", " / 2)), calc(", "px - (", " / 2))) ";
    var i1, j1, i2, j2 := IntToString(x1), IntToString(y1), IntToString(x2), IntToString(y2);
    Regroup(a, i1, b, w, c, j1, d, h, e);
    Regroup(a, i2, b, w, c, j2, d, h, e);
    NumberThenText(a, x1, b + w + c + j1 + d + h + e, x2, b + w + c + j2 + d + h + e);
    NumberThenText(a + i1 + b + w + c, y1, d + h + e, y2, d + h + e);
  }

  /** Lines 85-90: paint the current shape, and follow the pointer unless locked. */
  function Paint(s: State): State {
    var style := s.cursorStyle["width" := s.cursorWidth]["height" := s.cursorHeight]
                              ["border-radius" := s.borderRadius];
    s.(cursorStyle :=
         if s.isCursorLocked then style
         else style["transform" := FollowTransform(s.mouseX, s.mouseY, s.cursorWidth, s.cursorHeight)])
  }

  /** Lines 92-94: drop the inline transform of the element hovered last frame. */
  function ClearHovered(s: State): State {
    if s.hoveredElement.Some? then s.(transforms := s.transforms - {s.hoveredElement.value}) else s
  }

  /** Lines 99-141 once `e` is the hovered element: set the lock and run the mode's handler. */
  function Dispatch(s: State, e: Element, g: Geometry): State
    requires s.hoveredElement == Some(e.id)
  {
    match SelectMode(e)
    case Fill => FillCursor(s.(isCursorLocked := true), g)
    case Drag => DragCursor(s.(isCursorLocked := true), g)
    case Text => TextCursor(s.(isCursorLocked := false), e.fontSize)
    case General => GeneralCursor(s.(isCursorLocked := false))
  }

  /** One call of `onCursorMove`, `under` being what `elementFromPoint` returns. */
  function Frame(s: State, under: Option<Element>, g: Geometry): State {
    if !s.hasCursor then s
    else
      var cleared := ClearHovered(Paint(s));
      match under
      case None => cleared.(hoveredElement := None)
      case Some(e) => Dispatch(cleared.(hoveredElement := Some(e.id)), e, g)
  }

  // ---------------------------------------------------------------------
  // What one frame does
  // ---------------------------------------------------------------------

  /** Until `load` has created the cursor, a frame changes nothing. */
  lemma FrameWithoutCursor(s: State, under: Option<Element>, g: Geometry)
    requires !s.hasCursor
    ensures Frame(s, under, g) == s
  {
  }

  /** The frame paints the shape the previous frame left in `$`; no handler touches those style keys. */
  lemma FramePaintsPreviousShape(s: State, under: Option<Element>, g: Geometry)
    requires s.hasCursor
    ensures var r := Frame(s, under, g);
      && "width" in r.cursorStyle && r.cursorStyle["width"] == s.cursorWidth
      && "height" in r.cursorStyle && r.cursorStyle["height"] == s.cursorHeight
      && "border-radius" in r.cursorStyle && r.cursorStyle["border-radius"] == s.borderRadius
  {
    var c := ClearHovered(Paint(s));
    assert c.cursorStyle["width"] == s.cursorWidth;
    assert c.cursorStyle["height"] == s.cursorHeight;
    assert c.cursorStyle["border-radius"] == s.borderRadius;
    if under.Some? {
      var e := under.value;
      var h := c.(hoveredElement := Some(e.id));
      match SelectMode(e)
      case Fill => assert Frame(s, under, g) == FillCursor(h.(isCursorLocked := true), g);
      case Drag => assert Frame(s, under, g) == DragCursor(h.(isCursorLocked := true), g);
      case Text => assert Frame(s, under, g) == TextCursor(h.(isCursorLocked := false), e.fontSize);
      case General => assert Frame(s, under, g) == GeneralCursor(h.(isCursorLocked := false));
    }
  }

  /** Unlocked, the cursor is centred on the pointer, unless a fill handler repositions it in the same frame. */
  lemma FrameFollowsMouse(s: State, under: Option<Element>, g: Geometry)
    requires s.hasCursor && !s.isCursorLocked
    requires under.None? || SelectMode(under.value) != Fill
    ensures var r := Frame(s, under, g);
      "transform" in r.cursorStyle &&
      r.cursorStyle["transform"] == FollowTransform(s.mouseX, s.mouseY, s.cursorWidth, s.cursorHeight)
  {
  }

  /** Locked by the previous frame, the cursor keeps its transform, unless a fill handler repositions it. */
  lemma FrameLockedKeepsPosition(s: State, under: Option<Element>, g: Geometry)
    requires s.hasCursor && s.isCursorLocked
    requires under.None? || SelectMode(under.value) != Fill
    ensures var r := Frame(s, under, g);
      ("transform" in r.cursorStyle <==> "transform" in s.cursorStyle) &&
      ("transform" in s.cursorStyle ==> r.cursorStyle["transform"] == s.cursorStyle["transform"])
  {
  }

  /** With no element under the pointer nothing is hovered, and shape and lock stay as they were. */
  lemma FrameNoElement(s: State, g: Geometry)
    requires s.hasCursor
    ensures var r := Frame(s, None, g);
      && r.hoveredElement == None
      && r.isCursorLocked == s.isCursorLocked
      && r.cursorWidth == s.cursorWidth && r.cursorHeight == s.cursorHeight
      && r.borderRadius == s.borderRadius
      && r.baseCursorWidth == s.baseCursorWidth && r.baseCursorHeight == s.baseCursorHeight
  {
  }

  /** The element under the pointer becomes the hovered one, and the lock is its mode's. */
  lemma FrameLockFollowsMode(s: State, e: Element, g: Geometry)
    requires s.hasCursor
    ensures var r := Frame(s, Some(e), g);
      r.hoveredElement == Some(e.id) && r.isCursorLocked == Locks(SelectMode(e))
  {
  }

  /** `data-cursor="fill"` wins over the tag: locked, rounded rectangle, slowed transition, below and faded. */
  lemma FrameFill(s: State, e: Element, g: Geometry)
    requires s.hasCursor && e.cursorAttr == Some("fill")
    ensures var r := Frame(s, Some(e), g);
      && r.isCursorLocked
      && r.cursorWidth == g.fillWidth && r.cursorHeight == g.fillHeight
      && r.borderRadius == "3px"
      && r.cursorStyle["transition"] == Transition(FillTransition)
      && r.cursorStyle["z-index"] == "-1" && r.cursorStyle["opacity"] == "0.3"
      && r.cursorStyle["transform"] == g.fillCursorTransform
      && r.transforms == (s.transforms - (if s.hoveredElement.Some? then {s.hoveredElement.value} else {}))[e.id := g.fillElementTransform]
  {
  }

  /** `data-cursor="drag"` wins over the tag: locked, 5px, invisible, no transition, radius untouched. */
  lemma FrameDrag(s: State, e: Element, g: Geometry)
    requires s.hasCursor && e.cursorAttr == Some("drag")
    ensures var r := Frame(s, Some(e), g);
      && r.isCursorLocked
      && r.cursorWidth == "5px" && r.cursorHeight == "5px"
      && r.borderRadius == s.borderRadius
      && r.cursorStyle["opacity"] == "0" && r.cursorStyle["transition"] == "initial"
      && r.transforms == (s.transforms - (if s.hoveredElement.Some? then {s.hoveredElement.value} else {}))[e.id := g.dragElementTransform]
  {
  }

  /** The text cursor: unlocked, a 1px bar as tall as the font, overrides removed, radius untouched. */
  lemma FrameText(s: State, e: Element, g: Geometry)
    requires s.hasCursor && SelectMode(e) == Text
    ensures var r := Frame(s, Some(e), g);
      && !r.isCursorLocked
      && r.cursorWidth == "1px" && r.cursorHeight == e.fontSize
      && r.borderRadius == s.borderRadius
      && r.baseCursorWidth == s.baseCursorWidth && r.baseCursorHeight == s.baseCursorHeight
      && Overrides !! r.cursorStyle.Keys
      && EffectiveTransition(r) == s.sheetTransition
  {
  }

  /** The general cursor: unlocked, back to the base size and a circle, base sizes unchanged. */
  lemma FrameGeneral(s: State, e: Element, g: Geometry)
    requires s.hasCursor && SelectMode(e) == General
    ensures var r := Frame(s, Some(e), g);
      && !r.isCursorLocked
      && r.cursorWidth == s.baseCursorWidth && r.cursorHeight == s.baseCursorHeight
      && r.borderRadius == "calc(" + s.baseCursorWidth + " / 2)"
      && r.baseCursorWidth == s.baseCursorWidth && r.baseCursorHeight == s.baseCursorHeight
      && Overrides !! r.cursorStyle.Keys
      && EffectiveTransition(r) == s.sheetTransition
  {
  }

  /** The element hovered last frame loses its inline transform unless it is again the fill or drag target. */
  lemma FrameClearsPreviousHover(s: State, under: Option<Element>, g: Geometry, p: ElemId)
    requires s.hasCursor && s.hoveredElement == Some(p)
    requires under.None? || under.value.id != p || !Locks(SelectMode(under.value))
    ensures p !in Frame(s, under, g).transforms
  {
  }

  /** Elements neither hovered last frame nor under the pointer now keep their inline transform. */
  lemma FrameLeavesOtherElements(s: State, under: Option<Element>, g: Geometry, id: ElemId)
    requires s.hoveredElement != Some(id)
    requires under.None? || under.value.id != id
    ensures var r := Frame(s, under, g);
      (id in r.transforms <==> id in s.transforms) &&
      (id in s.transforms ==> r.transforms[id] == s.transforms[id])
  {
  }

  /** The lock tested at line 88 is the one the previous frame left: after a fill or drag frame the next frame does not follow the pointer. */
  lemma LockedFrameThenFrozen(s: State, e: Element, g1: Geometry, under: Option<Element>, g2: Geometry)
    requires s.hasCursor && Locks(SelectMode(e))
    requires under.None? || SelectMode(under.value) != Fill
    ensures var s1 := Frame(s, Some(e), g1);
      var s2 := Frame(s1, under, g2);
      ("transform" in s2.cursorStyle <==> "transform" in s1.cursorStyle) &&
      ("transform" in s1.cursorStyle ==> s2.cursorStyle["transform"] == s1.cursorStyle["transform"])
  {
    FrameLockFollowsMode(s, e, g1);
    FrameLockedKeepsPosition(Frame(s, Some(e), g1), under, g2);
  }

  // ---------------------------------------------------------------------
  // Load, pointer events and the frame loop
  // ---------------------------------------------------------------------

  /** After `load` on a pointer device the current shape is the base shape, defaulting to 10px, and a circle. */
  lemma LoadShape(s: State, data: CursorData)
    ensures var r := AfterLoad(s, false, data);
      && r.hasCursor
      && r.cursorWidth == r.baseCursorWidth && r.cursorHeight == r.baseCursorHeight
      && r.borderRadius == HalfOf(r.baseCursorWidth)
      && (data.w.None? ==> r.baseCursorWidth == "10px")
      && (data.w == Some("") ==> r.baseCursorWidth == "10px")
      && (data.w.Some? && data.w.value != "" ==> r.baseCursorWidth == data.w.value)
      && (data.h.None? ==> r.baseCursorHeight == "10px")
      && (data.h == Some("") ==> r.baseCursorHeight == "10px")
      && (data.h.Some? && data.h.value != "" ==> r.baseCursorHeight == data.h.value)
      && r.baseCursorWidth != "" && r.baseCursorHeight != ""
      && r.sheetTransition == Some("width 0.15s,height 0.15s,opacity 0.15s,transform 0.07s")
  {
    BaseTransitionText();
  }

  /** What reaches the state between and at frames. */
  datatype Event =
    | MouseMove(x: int, y: int)
    | AnimationFrame(under: Option<Element>, geometry: Geometry)

  /** The `mousemove` listener exists only once `load` has installed the cursor. */
  function Step(s: State, ev: Event): State {
    match ev
    case MouseMove(x, y) => if s.hasCursor then s.(mouseX := x, mouseY := y) else s
    case AnimationFrame(under, g) => Frame(s, under, g)
  }

  /** The events applied in order. */
  function Run(s: State, evs: seq<Event>): State
    decreases |evs|
  {
    if evs == [] then s else Step(Run(s, evs[..|evs| - 1]), evs[|evs| - 1])
  }

  /**
   * On a touch device `load` installs nothing: no cursor, so every later
   * frame is idle, and no listener, so pointer events change nothing either.
   */
  lemma {:induction false} TouchInstallsNothing(s: State, data: CursorData, evs: seq<Event>)
    requires !s.hasCursor
    ensures AfterLoad(s, true, data) == s
    ensures Run(AfterLoad(s, true, data), evs) == s
    decreases |evs|
  {
    if evs != [] {
      TouchInstallsNothing(s, data, evs[..|evs| - 1]);
    }
  }

  /** Every inline transform is on the hovered element. */
  predicate DisplacesOnlyHovered(s: State) {
    forall id :: id in s.transforms ==> s.hoveredElement == Some(id)
  }

  lemma StepDisplacesOnlyHovered(s: State, ev: Event)
    requires DisplacesOnlyHovered(s)
    ensures DisplacesOnlyHovered(Step(s, ev))
  {
  }

  /**
   * On a page with no inline transforms of its own, however the pointer moves
   * and frames pass, at most the hovered element is displaced: a transform
   * never lingers on an element the pointer has left.
   */
  lemma {:induction false} RunDisplacesOnlyHovered(s: State, evs: seq<Event>)
    requires DisplacesOnlyHovered(s)
    ensures DisplacesOnlyHovered(Run(s, evs))
    decreases |evs|
  {
    if evs != [] {
      RunDisplacesOnlyHovered(s, evs[..|evs| - 1]);
      StepDisplacesOnlyHovered(Run(s, evs[..|evs| - 1]), evs[|evs| - 1]);
    }
  }

  lemma InitialDisplacesNothing(touch: bool, data: CursorData)
    ensures DisplacesOnlyHovered(AfterLoad(InitialState(map[]), touch, data))
  {
  }
}
