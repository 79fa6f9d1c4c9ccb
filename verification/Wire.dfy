/** What the client is sent about a terminal (src/common/proto.hpp), as far as the models read it. */
module Wire {
  import opened Grid

  type TermId = nat

  /** A size, in its two bytes. */
  type Short = n: nat | n <= SIZE_MAX

  /** A sequence number, in its four. */
  type Number = n: nat | n < 0x1_0000_0000

  datatype Rect = Rect(x: int, y: int, width: int, height: int)

  /** A share of a filled tiling, in ten-thousandths of the content area; no extent, no share. */
  datatype TileFraction = TileFraction(x: nat, y: nat, width: nat, height: nat)

  datatype LayoutEntry = LayoutEntry(term: TermId, rect: Rect, zOrder: nat, zoomed: bool, tile: TileFraction)

  /** One terminal, whole. */
  datatype TerminalState = TerminalState(
    term: TermId, columns: nat, rows: nat, grid: seq<CellRun>, scrollback: seq<seq<CellRun>>, cursor: Cursor,
    modes: bv32, title: string, exited: bool, hold: bool, exitStatus: int, images: seq<nat>, place: LayoutEntry)

  /** Raw pixels, four bytes each. */
  datatype Image = Image(width: nat, height: nat, pixels: string)
}
