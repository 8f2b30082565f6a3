/** The running game: the prototype's module-level variables as the fields of
    one session object, and its handlers as methods that update them in
    place. Each method is specified by the matching function of module Rules
    and keeps the session invariant. */
module Game {
  import opened Maze
  import opened Input
  import opened Rules

  class GameSession {
    var player: Cell
    var portal: Cell
    var monster: Cell
    var state: GameState
    var status: string

    /** The fields as one session value. */
    function Snapshot(): Session
      reads this
    {
      Session(player, portal, monster, state, status)
    }

    ghost predicate Valid()
      reads this
    {
      Rules.Valid(Snapshot())
    }

    /** The start-up state: player, portal and monster at their spawn
        cells, playing. */
    constructor ()
      ensures Snapshot() == INITIAL
      ensures Valid()
    {
      player := PLAYER_START;
      portal := PORTAL_START;
      monster := MONSTER_START;
      state := Playing;
      status := "";
      InitialValid();
    }

    method CheckPortal()
      modifies this
      ensures Snapshot() == Rules.CheckPortal(old(Snapshot()))
      ensures old(Valid()) ==> Valid()
    {
      if player == portal {
        state := Won;
        status := WON_TEXT;
      }
    }

    method CheckMonsterCollision()
      modifies this
      ensures Snapshot() == Rules.CheckMonsterCollision(old(Snapshot()))
      ensures old(Valid()) ==> Valid()
    {
      if player == monster {
        state := Lost;
        status := LOST_TEXT;
      }
    }

    /** Tries to move the player by (dx, dy), then runs the win check and the
        lose check. */
    method AttemptMovePlayer(dx: int, dy: int)
      modifies this
      ensures Snapshot() == Rules.AttemptMovePlayer(old(Snapshot()), dx, dy)
      ensures old(state) != Playing ==> unchanged(this)
      ensures old(Valid()) ==> Valid()
    {
      ghost var before := Snapshot();
      if state != Playing {
        return;
      }
      var nx := player.x + dx;
      var ny := player.y + dy;
      if CanMoveTo(nx, ny) {
        player := Cell(nx, ny);
        CheckPortal();
        CheckMonsterCollision();
      }
      if Rules.Valid(before) {
        MovePreservesValid(before, dx, dy);
      }
    }

    /** The keydown handler, given the already lower-cased key name. */
    method KeyDown(key: string)
      modifies this
      ensures Snapshot() == Rules.KeyDown(old(Snapshot()), key)
      ensures old(state) != Playing || key !in MOVEMENT_KEYS ==> unchanged(this)
      ensures old(Valid()) ==> Valid()
    {
      if state != Playing {
        return;
      }
      match KeyDelta(key)
      case None =>
      case Some(d) => AttemptMovePlayer(d.dx, d.dy);
    }

    /** One tick of the monster timer; k stands for the random draw and
        picks among the candidate moves in the order up, down, left, right. */
    method MonsterStep(k: nat)
      requires ChoiceInRange(Snapshot(), k)
      modifies this
      ensures Snapshot() == MonsterStepAt(old(Snapshot()), k)
      ensures old(state) != Playing ==> unchanged(this)
      ensures old(Valid()) ==> Valid()
    {
      ghost var before := Snapshot();
      if state != Playing {
        return;
      }
      var valid := Candidates(monster, portal);
      if |valid| > 0 {
        var choice := valid[k];
        monster := choice;
        CheckMonsterCollision();
      }
      if Rules.Valid(before) {
        MonsterStepPreservesValid(before, k);
      }
    }

    /** The restart button: everything back to the start, whatever the
        previous state. */
    method ResetGame()
      modifies this
      ensures Snapshot() == INITIAL
      ensures Valid()
    {
      player := PLAYER_START;
      portal := PORTAL_START;
      monster := MONSTER_START;
      state := Playing;
      status := "";
      InitialValid();
    }
  }
}
