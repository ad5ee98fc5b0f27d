/** A single cell of the Game of Life: a mutable alive/dead flag. */
module Cells {

  class Cell {
    /** Read by anyone; written only by the constructor and SetState (its setter is private). */
    var isAlive: bool

    constructor (isAlive: bool)
      ensures this.isAlive == isAlive
    {
      this.isAlive := isAlive;
    }

    /** Overwrites the flag, whatever it held before; nothing else changes. */
    method SetState(state: bool)
      modifies this
      ensures isAlive == state
    {
      isAlive := state;
    }
  }

  /** Setting the same state twice leaves the cell as setting it once does. */
  method SetStateTwice(cell: Cell, state: bool)
    modifies cell
    ensures cell.isAlive == state
  {
    cell.SetState(state);
    var once := cell.isAlive;
    cell.SetState(state);
    assert cell.isAlive == once;
  }
}
