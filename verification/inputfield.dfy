/**
 * The client's text input widget (mp3d-client/src/render/ui/widgets/inputfield.rs):
 * hover and focus from the mouse, then at most one edit per frame, chosen
 * by priority among the auto-repeated keys, or else the frame's typed text,
 * with the characters of a `sanitize` set replaced by '_'. The cursor is a
 * byte offset into the UTF-8 text, as in `Ui`.
 */
module InputField {
  import opened Wrappers
  import opened RustText
  import opened TextEdit
  import Ui

  /** The state `update` reads and writes; drawing state is left out. */
  datatype Field = Field(
    rect: Ui.Rect,
    edit: Edit,
    sanitize: Option<string>,
    hovered: bool,
    hoverLast: bool,
    focused: bool)

  /** `InputField::new`: empty text at cursor 0, neither hovered nor focused. */
  function NewField(rect: Ui.Rect, sanitize: Option<string>): (f: Field)
    ensures f.edit == Edit("", 0) && AtBoundary(f.edit)
    ensures !f.hovered && !f.hoverLast && !f.focused
  {
    Field(rect, Edit("", 0), sanitize, false, false, false)
  }

  /** The priority of the keys `update` acts on; lower wins. Delete is not one of them. */
  function Rank(k: Ui.EditKey): nat {
    match k
    case Backspace => 0
    case Left => 1
    case Right => 2
    case Home => 3
    case End => 4
    case Delete => 5
  }

  /**
   * The one key this frame acts on: the highest-priority repeated key, or
   * None when no editing key repeats and the typed text is inserted instead.
   */
  function Chosen(repeated: set<Ui.EditKey>): (r: Option<Ui.EditKey>)
    ensures r.Some? ==> r.value in repeated && r.value != Ui.Delete
    ensures r.Some? ==> forall k :: k in repeated && k != Ui.Delete ==> Rank(r.value) <= Rank(k)
    ensures r.None? <==> repeated <= {Ui.Delete}
  {
    if Ui.Backspace in repeated then Some(Ui.Backspace)
    else if Ui.Left in repeated then Some(Ui.Left)
    else if Ui.Right in repeated then Some(Ui.Right)
    else if Ui.Home in repeated then Some(Ui.Home)
    else if Ui.End in repeated then Some(Ui.End)
    else
      assert forall k | k in repeated :: k == Ui.Delete by {
        forall k | k in repeated ensures k == Ui.Delete {
          assert k.Delete?;
        }
      }
      None
  }

  /** The typed text with every character of the sanitize set replaced by '_'. */
  function Sanitize(input: string, sanitize: Option<string>): (r: string)
    ensures |r| == |input|
    decreases |input|
  {
    if sanitize.None? || |input| == 0 then input
    else [if input[0] in sanitize.value then '_' else input[0]] + Sanitize(input[1..], sanitize)
  }

  /**
   * Sanitizing keeps every allowed character where it was and puts '_'
   * exactly where a forbidden one was; so no forbidden character other
   * than '_' survives.
   */
  lemma {:induction false} SanitizeSpec(input: string, sanitize: Option<string>)
    ensures forall i :: 0 <= i < |input| ==>
      Sanitize(input, sanitize)[i] == (if sanitize.Some? && input[i] in sanitize.value then '_' else input[i])
    ensures sanitize.Some? ==> forall i :: 0 <= i < |input| ==>
      Sanitize(input, sanitize)[i] !in sanitize.value || Sanitize(input, sanitize)[i] == '_'
    decreases |input|
  {
    if sanitize.Some? && |input| > 0 {
      SanitizeSpec(input[1..], sanitize);
      var r := Sanitize(input, sanitize);
      forall i | 0 < i < |input|
        ensures r[i] == (if input[i] in sanitize.value then '_' else input[i])
      {
        assert r[i] == Sanitize(input[1..], sanitize)[i - 1];
        assert input[1..][i - 1] == input[i];
      }
    }
  }

  /** Sanitizing twice is sanitizing once. */
  lemma SanitizeIdempotent(input: string, sanitize: Option<string>)
    ensures Sanitize(Sanitize(input, sanitize), sanitize) == Sanitize(input, sanitize)
  {
    var r := Sanitize(input, sanitize);
    SanitizeSpec(input, sanitize);
    SanitizeSpec(r, sanitize);
  }

  /** Sanitizing single-byte text keeps it single-byte. */
  lemma SanitizeAscii(input: string, sanitize: Option<string>)
    requires Ascii(input)
    ensures Ascii(Sanitize(input, sanitize))
  {
    SanitizeSpec(input, sanitize);
  }

  /** Hover from the closed rectangle; a held left button focuses exactly when hovering. */
  function Hover(f: Field, mx: real, my: real, mouseDown: bool): (r: Field)
    ensures r.edit == f.edit && r.rect == f.rect && r.sanitize == f.sanitize
    ensures r.hoverLast == f.hovered && (r.hovered <==> Ui.Inside(f.rect, mx, my))
    ensures r.focused == if mouseDown then r.hovered else f.focused
  {
    var h := Ui.Inside(f.rect, mx, my);
    f.(hoverLast := f.hovered, hovered := h, focused := if mouseDown then h else f.focused)
  }

  /** The edit of one frame as written; a panic is `Err`. */
  function EditAsWritten(e: Edit, repeated: set<Ui.EditKey>, typed: string): (r: Result<Edit, string>)
  {
    match Chosen(repeated)
    case Some(Backspace) => BackspaceAsWritten(e)
    case Some(Left) => Ok(LeftAsWritten(e))
    case Some(Right) => Ok(RightAsWritten(e))
    case Some(Home) => Ok(TextEdit.Home(e))
    case Some(End) => Ok(TextEdit.End(e))
    case _ => Insert(e, typed)
  }

  /** `InputField::update` as written. */
  function UpdateAsWritten(f: Field, mx: real, my: real, mouseDown: bool, repeated: set<Ui.EditKey>, typed: string)
    : (r: Result<Field, string>)
    ensures r.Ok? ==> r.value.rect == f.rect && r.value.focused == Hover(f, mx, my, mouseDown).focused
    ensures !Hover(f, mx, my, mouseDown).focused ==> r == Ok(Hover(f, mx, my, mouseDown))
  {
    var g := Hover(f, mx, my, mouseDown);
    if !g.focused then Ok(g)
    else match EditAsWritten(g.edit, repeated, Sanitize(typed, g.sanitize))
      case Err(m) => Err(m)
      case Ok(e) => Ok(g.(edit := e))
  }

  /**
   * Typing a multi-byte character in one frame and pressing Backspace in
   * the next panics the written widget.
   */
  lemma WideTypeThenBackspacePanics(f: Field, mx: real, my: real, c: char)
    requires AtBoundary(f.edit) && Width(c) >= 2
    requires Hover(f, mx, my, false).focused
    requires f.sanitize.None? || c !in f.sanitize.value
    ensures var f1 := UpdateAsWritten(f, mx, my, false, {}, [c]);
      f1.Ok? && UpdateAsWritten(f1.value, mx, my, false, {Ui.Backspace}, "").Err?
  {
    var g := Hover(f, mx, my, false);
    assert Sanitize([c], g.sanitize) == [c] by {
      SanitizeSpec([c], g.sanitize);
    }
    WideBackspacePanics(f.edit, c);
  }

  /** The edit of one frame, stepping over whole characters. */
  function EditFrame(e: Edit, repeated: set<Ui.EditKey>, typed: string): (r: Result<Edit, string>)
    ensures AtBoundary(e) ==> r.Ok? && AtBoundary(r.value)
  {
    match Chosen(repeated)
    case Some(Backspace) => BackspaceFixed(e)
    case Some(Left) => Ok(LeftFixed(e))
    case Some(Right) => Ok(RightFixed(e))
    case Some(Home) => Ok(TextEdit.Home(e))
    case Some(End) => Ok(TextEdit.End(e))
    case _ =>
      assert AtBoundary(e) ==> Insert(e, typed).Ok? && AtBoundary(Insert(e, typed).value) by {
        if AtBoundary(e) {
          InsertSpec(e, typed);
        }
      }
      Insert(e, typed)
  }

  /** `InputField::update` with character-wise cursor steps: from a boundary it never panics. */
  function Update(f: Field, mx: real, my: real, mouseDown: bool, repeated: set<Ui.EditKey>, typed: string)
    : (r: Result<Field, string>)
    ensures AtBoundary(f.edit) ==> r.Ok? && AtBoundary(r.value.edit)
    ensures r.Ok? ==> r.value.rect == f.rect && r.value.focused == Hover(f, mx, my, mouseDown).focused
    ensures !Hover(f, mx, my, mouseDown).focused ==> r == Ok(Hover(f, mx, my, mouseDown))
  {
    var g := Hover(f, mx, my, mouseDown);
    if !g.focused then Ok(g)
    else match EditFrame(g.edit, repeated, Sanitize(typed, g.sanitize))
      case Err(m) => Err(m)
      case Ok(e) => Ok(g.(edit := e))
  }

  /**
   * A focused frame with no editing key splices the sanitized text in at
   * the cursor's character and moves the cursor past it; a frame with an
   * editing key ignores the typed text.
   */
  lemma TypingSpec(f: Field, mx: real, my: real, mouseDown: bool, repeated: set<Ui.EditKey>, typed: string)
    requires AtBoundary(f.edit) && Hover(f, mx, my, mouseDown).focused
    ensures var s := Sanitize(typed, f.sanitize);
      var k := CharAt(f.edit.text, f.edit.cursor).value;
      var r := Update(f, mx, my, mouseDown, repeated, typed).value;
      && k <= |f.edit.text|
      && (repeated <= {Ui.Delete} ==>
          r.edit == Edit(f.edit.text[..k] + s + f.edit.text[k..], f.edit.cursor + ByteLen(s)))
      && (!(repeated <= {Ui.Delete}) ==>
          r == Update(f, mx, my, mouseDown, repeated, "").value)
  {
    InsertSpec(f.edit, Sanitize(typed, f.sanitize));
  }

  /** On single-byte text the corrected edit of a frame is the written one, and keeps the text single-byte. */
  lemma EditAgreesOnAscii(e: Edit, repeated: set<Ui.EditKey>, s: string)
    requires AsciiEdit(e) && Ascii(s)
    ensures EditFrame(e, repeated, s) == EditAsWritten(e, repeated, s)
    ensures EditAsWritten(e, repeated, s).Ok? && AsciiEdit(EditAsWritten(e, repeated, s).value)
  {
    FixedAgreesOnAscii(e);
    AsciiSpec(e, s);
    match Chosen(repeated)
    case Some(Backspace) =>
      if e.cursor > 0 {
        AsciiConcat(e.text[..e.cursor - 1], e.text[e.cursor..]);
      }
    case Some(End) =>
      AsciiOffsets(e.text);
    case _ =>
  }

  /** On single-byte text and input the corrected widget does exactly what the written one does. */
  lemma AgreesOnAscii(f: Field, mx: real, my: real, mouseDown: bool, repeated: set<Ui.EditKey>, typed: string)
    requires AsciiEdit(f.edit) && Ascii(typed)
    ensures Update(f, mx, my, mouseDown, repeated, typed) == UpdateAsWritten(f, mx, my, mouseDown, repeated, typed)
    ensures var r := UpdateAsWritten(f, mx, my, mouseDown, repeated, typed);
      r.Ok? && AsciiEdit(r.value.edit)
  {
    SanitizeAscii(typed, f.sanitize);
    EditAgreesOnAscii(f.edit, repeated, Sanitize(typed, f.sanitize));
  }
}
