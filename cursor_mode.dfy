/**
 * Which cursor mode the element under the pointer selects, in the priority
 * order of the frame callback `onCursorMove` (index.js).
 */
module CursorMode {

  import opened Wrappers

  /** Identity of a DOM element, used to key its inline `transform`. */
  type ElemId = nat

  /**
   * The parts of the element under the pointer that the dispatch reads:
   * `dataset["cursor"]`, `tagName`, `getAttribute("type")` and the
   * computed `font-size`.
   */
  datatype Element = Element(
    id: ElemId,
    cursorAttr: Option<string>,
    tagName: string,
    typeAttr: Option<string>,
    fontSize: string)

  datatype Mode = Fill | Drag | Text | General

  /** CONSTANTS.TEXT_ELEMENT_TAGS */
  const TextElementTags: seq<string> := ["P", "SPAN", "H1", "H2", "H3", "H4", "TEXTAREA"]

  /** The `type` values of an INPUT that give the text cursor; `None` is an absent attribute. */
  const TextInputTypes: seq<Option<string>> :=
    [Some("text"), Some("email"), Some("number"), Some("password"),
     Some("search"), Some("tel"), Some("url"), None]

  /** The input branch's test: an INPUT whose `type` is text-like or absent. */
  predicate IsTextInput(e: Element) {
    e.tagName == "INPUT" && e.typeAttr in TextInputTypes
  }

  /**
   * The first matching branch wins: `data-cursor="fill"`, then
   * `data-cursor="drag"`, then a text tag, then a text-like INPUT; anything
   * else, other INPUTs included, gets the general cursor.
   */
  function SelectMode(e: Element): (m: Mode)
    ensures m == Fill <==> e.cursorAttr == Some("fill")
    ensures m == Drag <==> e.cursorAttr == Some("drag")
    ensures m == Text <==>
      e.cursorAttr != Some("fill") && e.cursorAttr != Some("drag") &&
      (e.tagName in TextElementTags || IsTextInput(e))
  {
    if e.cursorAttr == Some("fill") then Fill
    else if e.cursorAttr == Some("drag") then Drag
    else if e.tagName in TextElementTags then Text
    else if e.tagName == "INPUT" then (if e.typeAttr in TextInputTypes then Text else General)
    else General
  }

  /** The modes that stop the cursor following the pointer. */
  predicate Locks(m: Mode) {
    m == Fill || m == Drag
  }

  /** The attribute beats the tag: a paragraph marked `data-cursor="fill"` fills. */
  lemma FillParagraph(id: ElemId, fontSize: string)
    ensures SelectMode(Element(id, Some("fill"), "P", None, fontSize)) == Fill
  {
  }

  /** An INPUT with an absent or text-like `type` selects the text cursor. */
  lemma TextInputsSelectText(e: Element, t: Option<string>)
    requires e.cursorAttr != Some("fill") && e.cursorAttr != Some("drag")
    requires e.tagName == "INPUT" && e.typeAttr == t
    requires t.None? || t.value in {"text", "email", "number", "password", "search", "tel", "url"}
    ensures SelectMode(e) == Text && !Locks(SelectMode(e))
  {
  }

  /** An INPUT of any other `type` (checkbox, radio, button, ...) selects the general cursor. */
  lemma OtherInputsSelectGeneral(e: Element)
    requires e.cursorAttr != Some("fill") && e.cursorAttr != Some("drag")
    requires e.tagName == "INPUT" && e.typeAttr.Some?
    requires e.typeAttr.value !in {"text", "email", "number", "password", "search", "tel", "url"}
    ensures SelectMode(e) == General && !Locks(SelectMode(e))
  {
  }
}
