/**
 * The immediate-mode widgets of the early engine (src/abs/ui.rs): a button
 * with press and release edges, and a text field edited by key events.
 * Screen coordinates are reals; layout and drawing are left out.
 */
module Ui {
  import opened Wrappers
  import opened RustText
  import opened TextEdit

  /** A widget's rectangle: its top-left corner and size. */
  datatype Rect = Rect(x: real, y: real, w: real, h: real)

  /** The mouse is over the rectangle; edges count. */
  predicate Inside(r: Rect, mx: real, my: real) {
    r.x <= mx <= r.x + r.w && r.y <= my <= r.y + r.h
  }

  // ---------------------------------------------------------------------------
  // Button
  // ---------------------------------------------------------------------------

  /** `Button`: the pressed state of this frame and of the last one. */
  datatype Button = Button(rect: Rect, disabled: bool, pressed: bool, pressedLast: bool)

  /**
   * `Button::update`: remember the last state, then the button is held
   * exactly when it is enabled, the mouse is down over it, and the mouse is
   * not grabbed.
   */
  function UpdateButton(b: Button, mx: real, my: real, mouseDown: bool, grabbed: bool): (r: Button)
    ensures r.rect == b.rect && r.disabled == b.disabled && r.pressedLast == b.pressed
    ensures r.pressed <==> !b.disabled && mouseDown && !grabbed && Inside(b.rect, mx, my)
  {
    var held := !(b.disabled || !mouseDown || grabbed) && Inside(b.rect, mx, my);
    b.(pressedLast := b.pressed, pressed := held)
  }

  /** `pressed()`: the frame the button went down. */
  predicate JustPressed(b: Button) {
    b.pressed && !b.pressedLast
  }

  /** `down()`. */
  predicate Down(b: Button) {
    b.pressed
  }

  /** `released()`: the frame the button came up. */
  predicate JustReleased(b: Button) {
    !b.pressed && b.pressedLast
  }

  /** A button is never pressed and released in the same frame, and a fresh press is held. */
  lemma ButtonEdges(b: Button)
    ensures !(JustPressed(b) && JustReleased(b))
    ensures JustPressed(b) ==> Down(b)
  {
  }

  /**
   * Holding the mouse on an enabled button fires `pressed` once: the next
   * frame with the same input is held but not a new press; letting go then
   * gives exactly one release.
   */
  lemma PressFiresOnce(b: Button, mx: real, my: real)
    requires !b.disabled && Inside(b.rect, mx, my)
    ensures var b1 := UpdateButton(b, mx, my, true, false);
      var b2 := UpdateButton(b1, mx, my, true, false);
      var b3 := UpdateButton(b2, mx, my, false, false);
      && (JustPressed(b1) <==> !b.pressed)
      && Down(b2) && !JustPressed(b2)
      && JustReleased(b3) && !JustReleased(UpdateButton(b3, mx, my, false, false))
  {
  }

  /** A disabled button, a released mouse or a grabbed mouse never presses. */
  lemma NoPressWhen(b: Button, mx: real, my: real, mouseDown: bool, grabbed: bool)
    requires b.disabled || !mouseDown || grabbed
    ensures !Down(UpdateButton(b, mx, my, mouseDown, grabbed))
    ensures !JustPressed(UpdateButton(b, mx, my, mouseDown, grabbed))
  {
  }

  // ---------------------------------------------------------------------------
  // TextField
  // ---------------------------------------------------------------------------

  /** The editing keys the text widgets react to. */
  datatype EditKey = Backspace | Delete | Left | Right | Home | End

  /** The events `TextField::update` receives; `KeyDown(None)` has no keycode. */
  datatype FieldEvent = TextInput(typed: string) | KeyDown(key: Option<EditKey>) | OtherEvent

  /** `TextField`: its rectangle, text and byte cursor, and focus. */
  datatype TextField = TextField(rect: Rect, edit: Edit, focused: bool)

  /** Focus follows a mouse press that the UI does not hold: inside focuses, outside unfocuses. */
  function Focus(f: TextField, mx: real, my: real, mouseDown: bool, grabbed: bool): (r: TextField)
    ensures r.rect == f.rect && r.edit == f.edit
    ensures r.focused == if mouseDown && !grabbed then Inside(f.rect, mx, my) else f.focused
  {
    if mouseDown && !grabbed then f.(focused := Inside(f.rect, mx, my)) else f
  }

  /** One event as written; a panic is `Err`. Home and End are not handled by this widget. */
  function FieldEventAsWritten(e: Edit, ev: FieldEvent): (r: Result<Edit, string>)
    ensures ev.OtherEvent? || ev == KeyDown(None) ==> r == Ok(e)
  {
    match ev
    case TextInput(s) => Insert(e, s)
    case KeyDown(Some(Backspace)) => BackspaceAsWritten(e)
    case KeyDown(Some(Delete)) => TextEdit.Delete(e)
    case KeyDown(Some(Left)) => Ok(LeftAsWritten(e))
    case KeyDown(Some(Right)) => Ok(RightAsWritten(e))
    case _ => Ok(e)
  }

  /** The events of a frame in order, stopping at the first panic. */
  function FieldEventsAsWritten(e: Edit, evs: seq<FieldEvent>): (r: Result<Edit, string>)
    decreases |evs|
  {
    if |evs| == 0 then Ok(e)
    else match FieldEventAsWritten(e, evs[0])
      case Err(m) => Err(m)
      case Ok(e1) => FieldEventsAsWritten(e1, evs[1..])
  }

  /** `TextField::update` as written: focus first, then every event while focused. */
  function UpdateFieldAsWritten(f: TextField, mx: real, my: real, mouseDown: bool, evs: seq<FieldEvent>, grabbed: bool)
    : (r: Result<TextField, string>)
    ensures r.Ok? ==> r.value.rect == f.rect && r.value.focused == Focus(f, mx, my, mouseDown, grabbed).focused
    ensures !Focus(f, mx, my, mouseDown, grabbed).focused ==> r == Ok(Focus(f, mx, my, mouseDown, grabbed))
  {
    var g := Focus(f, mx, my, mouseDown, grabbed);
    if !g.focused then Ok(g)
    else match FieldEventsAsWritten(g.edit, evs)
      case Err(m) => Err(m)
      case Ok(e) => Ok(g.(edit := e))
  }

  /** Typed text is single-byte. */
  predicate AsciiEvent(ev: FieldEvent) {
    ev.TextInput? ==> Ascii(ev.typed)
  }

  /**
   * With single-byte text and input, the written field never panics and
   * keeps its cursor within the text.
   */
  lemma {:induction false} AsciiFieldIsSafe(e: Edit, evs: seq<FieldEvent>)
    requires AsciiEdit(e)
    requires forall i :: 0 <= i < |evs| ==> AsciiEvent(evs[i])
    ensures FieldEventsAsWritten(e, evs).Ok? && AsciiEdit(FieldEventsAsWritten(e, evs).value)
    decreases |evs|
  {
    if |evs| > 0 {
      var ev := evs[0];
      AsciiSpec(e, if ev.TextInput? then ev.typed else "");
      AsciiOffsets(e.text);
      var e1 := FieldEventAsWritten(e, ev);
      assert e1.Ok? && AsciiEdit(e1.value) by {
        if ev.KeyDown? && ev.key == Some(Backspace) && e.cursor > 0 {
          assert Ascii(e.text[..e.cursor - 1] + e.text[e.cursor..]) by {
            AsciiConcat(e.text[..e.cursor - 1], e.text[e.cursor..]);
          }
        } else if ev.KeyDown? && ev.key == Some(Delete) && e.cursor < |e.text| {
          assert Ascii(e.text[..e.cursor] + e.text[e.cursor + 1..]) by {
            AsciiConcat(e.text[..e.cursor], e.text[e.cursor + 1..]);
          }
        }
      }
      forall i | 0 <= i < |evs[1..]| ensures AsciiEvent(evs[1..][i]) {
        assert evs[1..][i] == evs[i + 1];
      }
      AsciiFieldIsSafe(e1.value, evs[1..]);
    }
  }

  /**
   * A focused field panics when a multi-byte character is typed and then
   * erased with Backspace in the same frame.
   */
  lemma FieldWideBackspacePanics(f: TextField, mx: real, my: real, c: char)
    requires AtBoundary(f.edit) && Width(c) >= 2
    requires Focus(f, mx, my, false, false).focused
    ensures UpdateFieldAsWritten(f, mx, my, false, [TextInput([c]), KeyDown(Some(Backspace))], false).Err?
  {
    var evs := [TextInput([c]), KeyDown(Some(Backspace))];
    WideBackspacePanics(f.edit, c);
    var e1 := Insert(f.edit, [c]).value;
    assert evs[1..] == [KeyDown(Some(Backspace))];
    assert FieldEventsAsWritten(e1, evs[1..]).Err?;
  }

  /** One event, stepping over whole characters. */
  function ApplyFieldEvent(e: Edit, ev: FieldEvent): (r: Result<Edit, string>)
    ensures AtBoundary(e) ==> r.Ok? && AtBoundary(r.value)
  {
    match ev
    case TextInput(s) =>
      assert AtBoundary(e) ==> Insert(e, s).Ok? && AtBoundary(Insert(e, s).value) by {
        if AtBoundary(e) {
          InsertSpec(e, s);
        }
      }
      Insert(e, s)
    case KeyDown(Some(Backspace)) => BackspaceFixed(e)
    case KeyDown(Some(Delete)) =>
      assert AtBoundary(e) ==> TextEdit.Delete(e).Ok? && AtBoundary(TextEdit.Delete(e).value) by {
        if AtBoundary(e) {
          DeleteKeepsBoundary(e);
        }
      }
      TextEdit.Delete(e)
    case KeyDown(Some(Left)) => Ok(LeftFixed(e))
    case KeyDown(Some(Right)) => Ok(RightFixed(e))
    case _ => Ok(e)
  }

  function ApplyFieldEvents(e: Edit, evs: seq<FieldEvent>): (r: Result<Edit, string>)
    ensures AtBoundary(e) ==> r.Ok? && AtBoundary(r.value)
    decreases |evs|
  {
    if |evs| == 0 then Ok(e)
    else match ApplyFieldEvent(e, evs[0])
      case Err(m) => Err(m)
      case Ok(e1) => ApplyFieldEvents(e1, evs[1..])
  }

  /** `TextField::update` with character-wise cursor steps: from a boundary it never panics. */
  function UpdateField(f: TextField, mx: real, my: real, mouseDown: bool, evs: seq<FieldEvent>, grabbed: bool)
    : (r: Result<TextField, string>)
    ensures AtBoundary(f.edit) ==> r.Ok? && AtBoundary(r.value.edit)
    ensures r.Ok? ==> r.value.rect == f.rect && r.value.focused == Focus(f, mx, my, mouseDown, grabbed).focused
    ensures !Focus(f, mx, my, mouseDown, grabbed).focused ==> r == Ok(Focus(f, mx, my, mouseDown, grabbed))
  {
    var g := Focus(f, mx, my, mouseDown, grabbed);
    if !g.focused then Ok(g)
    else match ApplyFieldEvents(g.edit, evs)
      case Err(m) => Err(m)
      case Ok(e) => Ok(g.(edit := e))
  }

  /** On single-byte text and input the corrected field does exactly what the written one does. */
  lemma {:induction false} FieldAgreesOnAscii(e: Edit, evs: seq<FieldEvent>)
    requires AsciiEdit(e)
    requires forall i :: 0 <= i < |evs| ==> AsciiEvent(evs[i])
    ensures ApplyFieldEvents(e, evs) == FieldEventsAsWritten(e, evs)
    decreases |evs|
  {
    if |evs| > 0 {
      FieldAgreesOnAscii1(e, evs[0]);
      AsciiFieldIsSafe(e, evs[..1]);
      var e1 := FieldEventAsWritten(e, evs[0]);
      assert FieldEventsAsWritten(e, evs[..1]) == e1 by {
        assert evs[..1][1..] == [];
      }
      forall i | 0 <= i < |evs[1..]| ensures AsciiEvent(evs[1..][i]) {
        assert evs[1..][i] == evs[i + 1];
      }
      FieldAgreesOnAscii(e1.value, evs[1..]);
    }
  }

  lemma FieldAgreesOnAscii1(e: Edit, ev: FieldEvent)
    requires AsciiEdit(e)
    ensures ApplyFieldEvent(e, ev) == FieldEventAsWritten(e, ev)
  {
    FixedAgreesOnAscii(e);
  }
}
