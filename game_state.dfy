/** The three overlay flags of a running game (pause menu, game over, victory). */
module GameState {

  class GameState {
    var paused: bool
    var gameOver: bool
    var victory: bool

    /** A fresh game shows no overlay. */
    constructor()
      ensures !paused && !gameOver && !victory
      ensures !AnyOverlay()
    {
      paused := false;
      gameOver := false;
      victory := false;
    }

    /** An overlay is up, so the world must not advance. */
    predicate AnyOverlay()
      reads this
    {
      paused || gameOver || victory
    }

    /** Clears every flag; afterwards no overlay is up. */
    method Reset()
      modifies this
      ensures !paused && !gameOver && !victory
      ensures !AnyOverlay()
    {
      paused := false;
      gameOver := false;
      victory := false;
    }
  }
}
