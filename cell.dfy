/** A single cell of the board (src/cell.js): one mutable life flag. */
module Cells {

  class Cell {
    /** The life flag; the source tests its truthiness, modelled as a bool. */
    var status: bool

    /** `new Cell()`: without an initial status the cell starts dead. */
    constructor ()
      ensures !status
    {
      status := false;
    }

    /** `new Cell(initialStatus)`: the cell starts with the given status. */
    constructor WithStatus(initialStatus: bool)
      ensures status == initialStatus
    {
      status := initialStatus;
    }

    /** The `alive` getter: the truthiness of the flag. */
    function Alive(): (r: bool)
      reads this
      ensures r <==> status
    {
      status
    }

    /** The `dead` getter, always the opposite of `alive`. */
    function Dead(): (r: bool)
      reads this
      ensures r <==> !Alive()
    {
      !status
    }

    /** `die()`: the cell is dead afterwards and the very same cell is
        returned; on a dead cell nothing observable changes, so applying it
        twice leaves the state it left after once. */
    method Die() returns (r: Cell)
      modifies this
      ensures r == this
      ensures Dead()
      ensures old(Dead()) ==> unchanged(this)
    {
      status := false;
      r := this;
    }

    /** `live()`: the cell is alive afterwards and the very same cell is
        returned; on a live cell nothing observable changes. */
    method Live() returns (r: Cell)
      modifies this
      ensures r == this
      ensures Alive()
      ensures old(Alive()) ==> unchanged(this)
    {
      status := true;
      r := this;
    }
  }
}
