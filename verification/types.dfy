/** The records the components share (types/index.ts), the signed-in user,
    and the one thing the model cannot compute: text measurement. */
module Types {

  /** One text overlay. `x`/`y` is the centre of the text in working-canvas
      pixels; `width`/`height` are stored for the wire format and never used
      for geometry. */
  datatype TextBox = TextBox(
    id: string,
    text: string,
    x: real,
    y: real,
    fontSize: real,
    color: string,
    width: real,
    height: real)

  /** The style controls' reset values, and the fields of a new box. */
  const DefaultFontSize: real := 40.0
  const DefaultColor: string := "#ffffff"
  const NewBoxText: string := "Your text here"
  const NewBoxWidth: real := 200.0
  const NewBoxHeight: real := 40.0

  /** A decoded background image, by its natural pixel size. */
  datatype Image = Image(width: nat, height: nat)

  datatype Point = Point(x: real, y: real)

  /** One stored upvote. */
  datatype Vote = Vote(id: string, memeId: string, userId: string, createdAt: int)

  /** The signed-in user as the components read it. A missing user, id or
      email is the empty string: every use treats `undefined` and `""` alike. */
  datatype User = User(id: string, email: string)

  const SignedOut := User("", "")

  /** The CSS cursor the canvas shows. */
  datatype Cursor = Move | Grab | Grabbing | Default

  /** `ctx.measureText(text).width` with the font set to `size` pixels,
      bold or not: an unknown, non-negative function. */
  type Measure = m: (string, real, bool) -> real
    | forall text, size, bold :: m(text, size, bold) >= 0.0
    witness (text: string, size: real, bold: bool) => 0.0
}
