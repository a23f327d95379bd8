/** Basic vocabulary of the colour-merge puzzle: colours, axes, compass
    directions, positions, cell kinds and cells. */
module Types {

  datatype Option<+T> = None | Some(value: T)

  /** The palette. The terminal escape codes behind each colour are presentation only. */
  datatype Color = BlankColor | Cyan | Orange | Yellow | Red | Purple | Green

  /** Every colour of the palette, each exactly once. */
  const Palette: seq<Color> := [BlankColor, Cyan, Orange, Yellow, Red, Purple, Green]

  /** The two axes a step or a Line cell can follow (the source's `Direction`). */
  datatype Axis = Vertical | Horizontal

  /** The four compass directions a ray can travel (the source's `Orientation`). */
  datatype Orientation = Up | Down | Left | Right

  type Pos = (int, int)

  /** The behavioural kind of a cell; Turret carries its facings, Line its axis. */
  datatype Kind =
    | Blank
    | Basic
    | Square
    | Turret(orientations: seq<Orientation>)
    | Line(axis: Axis)
    | Diamond
    | Triangle
    | Area

  /** A kind without its parameters: what the source's class identity compares. */
  datatype Tag = BlankTag | BasicTag | SquareTag | TurretTag | LineTag | DiamondTag | TriangleTag | AreaTag

  datatype Cell = Cell(kind: Kind, color: Color, position: Pos)

  function TagOf(k: Kind): Tag
  {
    match k
    case Blank => BlankTag
    case Basic => BasicTag
    case Square => SquareTag
    case Turret(_) => TurretTag
    case Line(_) => LineTag
    case Diamond => DiamondTag
    case Triangle => TriangleTag
    case Area => AreaTag
  }

  /** Node equality: same class, same colour, same position (parameters ignored). */
  predicate SameNode(a: Cell, b: Cell)
  {
    TagOf(a.kind) == TagOf(b.kind) && a.color == b.color && a.position == b.position
  }

  /** The axis a ray in direction `d` travels along. */
  function AxisOf(d: Orientation): Axis
  {
    if d == Up || d == Down then Vertical else Horizontal
  }

  /** One step from `p` in direction `d`; UP decreases y. */
  function Step(p: Pos, d: Orientation): Pos
  {
    match d
    case Up => (p.0, p.1 - 1)
    case Down => (p.0, p.1 + 1)
    case Left => (p.0 - 1, p.1)
    case Right => (p.0 + 1, p.1)
  }

  /** Lexicographic order on positions, as Python compares tuples. */
  predicate PosLess(a: Pos, b: Pos)
  {
    a.0 < b.0 || (a.0 == b.0 && a.1 < b.1)
  }
}
