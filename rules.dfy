/** The game rules of the 2D prototype as pure functions on a session value:
    the player's move with its win and lose checks, the monster's random
    walk, the keyboard dispatch and restart, and the lemmas that tie them to
    the session invariant. The class in module Game runs these same steps in
    place. */
module Rules {
  import opened Maze
  import opened Input

  datatype GameState = Playing | Won | Lost

  /** Everything the prototype keeps in module-level variables, plus the text of
      the status element. */
  datatype Session = Session(player: Cell, portal: Cell, monster: Cell, state: GameState, status: string)

  const PLAYER_START := Cell(1, 1)
  const PORTAL_START := Cell(13, 9)
  const MONSTER_START := Cell(7, 5)

  const WON_TEXT := "VENCEU!"
  const LOST_TEXT := "FOI PEG0!"

  /** The session at start-up and after every restart. */
  const INITIAL := Session(PLAYER_START, PORTAL_START, MONSTER_START, Playing, "")

  predicate Open(c: Cell) {
    CanMoveTo(c.x, c.y)
  }

  /** The status text each game state shows. */
  function StatusText(g: GameState): string {
    match g
    case Playing => ""
    case Won => WON_TEXT
    case Lost => LOST_TEXT
  }

  /** The state the positions call for: caught when on the monster, won when
      on the portal, playing otherwise (the lose check runs last). */
  function Outcome(player: Cell, portal: Cell, monster: Cell): GameState {
    if player == monster then Lost
    else if player == portal then Won
    else Playing
  }

  /** The invariant of every reachable session: the portal stays where it was
      placed, player and monster stand on open cells, the monster is never on
      the portal, and the game state and status text are exactly what the
      positions call for. */
  ghost predicate Valid(s: Session) {
    && s.portal == PORTAL_START
    && Open(s.player)
    && Open(s.monster)
    && s.monster != s.portal
    && s.state == Outcome(s.player, s.portal, s.monster)
    && s.status == StatusText(s.state)
  }

  lemma InitialValid()
    ensures Valid(INITIAL)
  {
  }

  // ----- win and lose checks -----

  /** Sets 'won' when the player stands on the portal; touches nothing else. */
  function CheckPortal(s: Session): (r: Session)
    ensures r.player == s.player && r.portal == s.portal && r.monster == s.monster
    ensures s.player == s.portal ==> r.state == Won && r.status == WON_TEXT
    ensures s.player != s.portal ==> r == s
  {
    if s.player == s.portal then s.(state := Won, status := WON_TEXT) else s
  }

  /** Sets 'lost' when the player and the monster share a cell; touches
      nothing else. */
  function CheckMonsterCollision(s: Session): (r: Session)
    ensures r.player == s.player && r.portal == s.portal && r.monster == s.monster
    ensures s.player == s.monster ==> r.state == Lost && r.status == LOST_TEXT
    ensures s.player != s.monster ==> r == s
  {
    if s.player == s.monster then s.(state := Lost, status := LOST_TEXT) else s
  }

  /** Both checks are idempotent: running one twice is running it once. */
  lemma ChecksIdempotent(s: Session)
    ensures CheckPortal(CheckPortal(s)) == CheckPortal(s)
    ensures CheckMonsterCollision(CheckMonsterCollision(s)) == CheckMonsterCollision(s)
  {
  }

  // ----- player move -----

  /** One attempted player move by (dx, dy). Outside 'playing', or towards a
      blocked point, nothing changes. Otherwise the player lands exactly on
      the target, monster and portal stay, and the state becomes what the new
      position calls for. */
  function AttemptMovePlayer(s: Session, dx: int, dy: int): (r: Session)
    ensures s.state != Playing || !CanMoveTo(s.player.x + dx, s.player.y + dy) ==> r == s
    ensures s.state == Playing && CanMoveTo(s.player.x + dx, s.player.y + dy) ==>
      && r.player == Cell(s.player.x + dx, s.player.y + dy)
      && r.monster == s.monster && r.portal == s.portal
      && r.state == Outcome(r.player, s.portal, s.monster)
      && r.status == (if r.state == Playing then s.status else StatusText(r.state))
  {
    if s.state != Playing then s
    else
      var nx := s.player.x + dx;
      var ny := s.player.y + dy;
      if CanMoveTo(nx, ny) then
        CheckMonsterCollision(CheckPortal(s.(player := Cell(nx, ny))))
      else s
  }

  lemma MovePreservesValid(s: Session, dx: int, dy: int)
    requires Valid(s)
    ensures Valid(AttemptMovePlayer(s, dx, dy))
  {
  }

  /** Because the monster is never on the portal, a move onto the portal
      wins and the lose check that follows cannot overwrite it. */
  lemma WinIsNotOverwritten(s: Session, dx: int, dy: int)
    requires Valid(s) && s.state == Playing
    requires Cell(s.player.x + dx, s.player.y + dy) == s.portal
    ensures AttemptMovePlayer(s, dx, dy).state == Won
    ensures AttemptMovePlayer(s, dx, dy).player == s.portal
  {
  }

  // ----- monster move -----

  /** The elements of cs, in their order, that satisfy keep (the array
      filter the candidate list is built with). */
  function Filter<T(!new)>(cs: seq<T>, keep: T -> bool): (r: seq<T>)
    ensures |r| <= |cs|
    ensures forall c :: c in r <==> c in cs && keep(c)
  {
    if cs == [] then []
    else if keep(cs[0]) then [cs[0]] + Filter(cs[1..], keep)
    else Filter(cs[1..], keep)
  }

  /** idx lists, strictly increasing, positions in cs that hold the
      elements of r one by one: r is cs with some elements left out. */
  ghost predicate IndexesOf<T>(idx: seq<nat>, r: seq<T>, cs: seq<T>) {
    && |idx| == |r|
    && (forall i :: 0 <= i < |idx| ==> idx[i] < |cs| && r[i] == cs[idx[i]])
    && (forall i, j :: 0 <= i < j < |idx| ==> idx[i] < idx[j])
  }

  /** Positions in cs[1..] become positions in cs, one further on. */
  lemma ShiftIndexes<T>(rest: seq<nat>, r: seq<T>, cs: seq<T>) returns (idx: seq<nat>)
    requires cs != [] && IndexesOf(rest, r, cs[1..])
    ensures IndexesOf(idx, r, cs)
    ensures forall i :: 0 <= i < |idx| ==> 0 < idx[i]
  {
    idx := seq(|rest|, i requires 0 <= i < |rest| => rest[i] + 1);
    forall i | 0 <= i < |idx|
      ensures idx[i] < |cs| && r[i] == cs[idx[i]]
    {
      assert r[i] == cs[1..][rest[i]];
    }
  }

  /** Keeping the head of cs puts position 0 in front. */
  lemma ConsIndexes<T>(idx: seq<nat>, r: seq<T>, cs: seq<T>)
    requires cs != [] && IndexesOf(idx, r, cs)
    requires forall i :: 0 <= i < |idx| ==> 0 < idx[i]
    ensures IndexesOf([0] + idx, [cs[0]] + r, cs)
  {
    var idx' := [0] + idx;
    var r' := [cs[0]] + r;
    forall i | 0 < i < |idx'|
      ensures idx'[i] < |cs| && r'[i] == cs[idx'[i]]
    {
      assert idx'[i] == idx[i - 1] && r'[i] == r[i - 1];
    }
    forall i, j | 0 <= i < j < |idx'|
      ensures idx'[i] < idx'[j]
    {
      assert idx'[j] == idx[j - 1];
      if i > 0 {
        assert idx'[i] == idx[i - 1];
      }
    }
  }

  /** The positions in cs of the elements Filter keeps: strictly increasing,
      so the filter keeps the relative order of cs. */
  lemma {:induction false} FilterIndices<T(!new)>(cs: seq<T>, keep: T -> bool) returns (idx: seq<nat>)
    ensures IndexesOf(idx, Filter(cs, keep), cs)
  {
    if cs == [] {
      idx := [];
    } else {
      var rest := FilterIndices(cs[1..], keep);
      var shifted := ShiftIndexes(rest, Filter(cs[1..], keep), cs);
      if keep(cs[0]) {
        ConsIndexes(shifted, Filter(cs[1..], keep), cs);
        idx := [0] + shifted;
      } else {
        idx := shifted;
      }
    }
  }

  /** The filter's test: the cell is open and is not the portal. */
  function IsFree(portal: Cell): Cell -> bool {
    c => Open(c) && c != portal
  }

  /** A cell the monster may step to: adjacent and passing the filter. */
  predicate MonsterMayEnter(s: Session, c: Cell) {
    Adjacent(s.monster, c) && IsFree(s.portal)(c)
  }

  /** The monster's candidate moves, tried up, down, left, right; they are
      exactly the open non-portal neighbours of its cell. */
  function Candidates(monster: Cell, portal: Cell): (r: seq<Cell>)
    ensures |r| <= 4
    ensures forall c :: c in r <==> Adjacent(monster, c) && IsFree(portal)(c)
  {
    Filter(Neighbours(monster), IsFree(portal))
  }

  /** Whatever filter is applied to a cell's neighbours, the i-th cell kept
      is the neighbour in direction idx[i], with idx strictly increasing: the
      cells keep the order up, down, left, right and none is kept twice. */
  lemma NeighboursFilterInOrder(m: Cell, keep: Cell -> bool) returns (idx: seq<nat>)
    ensures |idx| == |Filter(Neighbours(m), keep)|
    ensures forall i :: 0 <= i < |idx| ==>
      idx[i] < |DIRECTIONS| && Filter(Neighbours(m), keep)[i] == Shift(m, DIRECTIONS[idx[i]])
    ensures forall i, j :: 0 <= i < j < |idx| ==> idx[i] < idx[j]
    ensures forall i, j :: 0 <= i < j < |idx| ==>
      Filter(Neighbours(m), keep)[i] != Filter(Neighbours(m), keep)[j]
  {
    var ns := Neighbours(m);
    idx := FilterIndices(ns, keep);
    assert forall a :: 0 <= a < |ns| ==> ns[a] == Shift(m, DIRECTIONS[a]);
  }

  /** The candidates are listed in the order up, down, left, right: the i-th
      candidate is the neighbour in direction idx[i], idx strictly
      increasing. No cell is listed twice, so each index k names one
      distinct move. */
  lemma CandidatesInOrder(monster: Cell, portal: Cell) returns (idx: seq<nat>)
    ensures |idx| == |Candidates(monster, portal)|
    ensures forall i :: 0 <= i < |idx| ==>
      idx[i] < |DIRECTIONS| && Candidates(monster, portal)[i] == Shift(monster, DIRECTIONS[idx[i]])
    ensures forall i, j :: 0 <= i < j < |idx| ==> idx[i] < idx[j]
    ensures forall i, j :: 0 <= i < j < |idx| ==>
      Candidates(monster, portal)[i] != Candidates(monster, portal)[j]
  {
    assert Candidates(monster, portal) == Filter(Neighbours(monster), IsFree(portal));
    idx := NeighboursFilterInOrder(monster, IsFree(portal));
  }

  /** What the prototype's random index promises: it lies below the number of
      candidates whenever there are candidates to choose from. */
  predicate ChoiceInRange(s: Session, k: nat) {
    s.state == Playing && Candidates(s.monster, s.portal) != [] ==>
      k < |Candidates(s.monster, s.portal)|
  }

  /** One monster step choosing candidate k. Outside 'playing', or with no
      candidate, nothing changes. Otherwise the monster steps to candidate k,
      a cell it may enter, the player and portal stay, and the game is lost
      exactly when the monster lands on the player. */
  function MonsterStepAt(s: Session, k: nat): (r: Session)
    requires ChoiceInRange(s, k)
    ensures r.player == s.player && r.portal == s.portal
    ensures s.state != Playing ==> r == s
    ensures (forall c :: !MonsterMayEnter(s, c)) ==> r == s
    ensures s.state == Playing && Candidates(s.monster, s.portal) != [] ==>
      r.monster == Candidates(s.monster, s.portal)[k]
    ensures s.state == Playing && (exists c :: MonsterMayEnter(s, c)) ==>
      && MonsterMayEnter(s, r.monster)
      && r.state == (if r.monster == s.player then Lost else Playing)
      && r.status == (if r.monster == s.player then LOST_TEXT else s.status)
  {
    var valid := Candidates(s.monster, s.portal);
    if s.state != Playing then s
    else if valid == [] then
      assert forall c :: !MonsterMayEnter(s, c);
      s
    else
      assert valid[k] in valid && MonsterMayEnter(s, valid[k]);
      CheckMonsterCollision(s.(monster := valid[k]))
  }

  /** The values Math.random returns: a real in [0, 1). */
  newtype Unit = u: real | 0.0 <= u < 1.0

  /** floor(u * n): the index the prototype draws among n candidates. */
  function Pick(u: Unit, n: nat): (k: nat)
    requires n > 0
    ensures k < n
  {
    assert 0.0 <= u as real * n as real < n as real;
    (u as real * n as real).Floor
  }

  /** Every index below n is drawn by some random value, so the random walk
      can choose any candidate. */
  lemma PickReachesAll(n: nat, k: nat)
    requires k < n
    ensures exists u: Unit :: Pick(u, n) == k
  {
    var w := k as real / n as real;
    assert w * n as real == k as real;
    var u := w as Unit;
    assert Pick(u, n) == k;
  }

  /** One monster step with the random value u, as the interval timer runs it. */
  function MonsterStep(s: Session, u: Unit): (r: Session)
    ensures r.player == s.player && r.portal == s.portal
    ensures r.monster == s.monster || MonsterMayEnter(s, r.monster)
    ensures s.state != Playing ==> r == s
  {
    var n := |Candidates(s.monster, s.portal)|;
    MonsterStepAt(s, if n == 0 then 0 else Pick(u, n))
  }

  lemma MonsterStepPreservesValid(s: Session, k: nat)
    requires Valid(s) && ChoiceInRange(s, k)
    ensures Valid(MonsterStepAt(s, k))
  {
  }

  /** With exactly one cell to go to, the move is forced, whatever the draw. */
  lemma ForcedMove(s: Session, c: Cell, u: Unit)
    requires s.state == Playing
    requires MonsterMayEnter(s, c)
    requires forall d :: MonsterMayEnter(s, d) ==> d == c
    ensures MonsterStep(s, u).monster == c
  {
  }

  /** With no cell to go to, the monster stays put and nothing changes. */
  lemma Stuck(s: Session, u: Unit)
    requires forall c :: !MonsterMayEnter(s, c)
    ensures MonsterStep(s, u) == s
  {
  }

  /** Every cell the monster may enter is chosen by some random value. */
  lemma EveryCandidateReachable(s: Session, c: Cell)
    requires s.state == Playing && MonsterMayEnter(s, c)
    ensures exists u: Unit :: MonsterStep(s, u).monster == c
  {
    var valid := Candidates(s.monster, s.portal);
    var k :| 0 <= k < |valid| && valid[k] == c;
    PickReachesAll(|valid|, k);
    var u :| Pick(u, |valid|) == k;
    assert MonsterStep(s, u).monster == c;
  }

  // ----- keyboard and restart -----

  /** The keydown handler: outside 'playing', or for a key that is not a
      movement key, nothing changes; otherwise it is the attempted move in
      the key's direction, so the player ends on its old cell or an adjacent
      one. */
  function KeyDown(s: Session, key: string): (r: Session)
    ensures s.state != Playing || key !in MOVEMENT_KEYS ==> r == s
    ensures s.state == Playing && key in MOVEMENT_KEYS ==>
      r == AttemptMovePlayer(s, KeyDelta(key).value.dx, KeyDelta(key).value.dy)
    ensures r.monster == s.monster && r.portal == s.portal
    ensures r.player == s.player || Adjacent(s.player, r.player)
  {
    if s.state != Playing then s
    else
      match KeyDelta(key)
      case None => s
      case Some(d) => AttemptMovePlayer(s, d.dx, d.dy)
  }

  // ----- sessions as runs of events -----

  /** What the environment can do: press a key (already lower-cased), fire
      the monster timer with a random value, or click restart. */
  datatype Event = KeyPress(key: string) | MonsterTimer(u: Unit) | ResetClick

  /** One event: restart always gives the start session; a key press or a
      timer tick changes nothing once the game is over. */
  function Step(s: Session, e: Event): (r: Session)
    ensures e.ResetClick? ==> r == INITIAL
    ensures !e.ResetClick? && s.state != Playing ==> r == s
  {
    match e
    case KeyPress(key) => KeyDown(s, key)
    case MonsterTimer(u) => MonsterStep(s, u)
    case ResetClick => INITIAL
  }

  function Run(s: Session, events: seq<Event>): Session
    decreases |events|
  {
    if events == [] then s else Run(Step(s, events[0]), events[1..])
  }

  /** Restart gives the start session whatever came before. */
  lemma ResetRestores(s: Session)
    ensures Step(s, ResetClick) == INITIAL
    ensures INITIAL.player == Cell(1, 1) && INITIAL.portal == Cell(13, 9)
    ensures INITIAL.monster == Cell(7, 5) && INITIAL.state == Playing
  {
  }

  lemma StepPreservesValid(s: Session, e: Event)
    requires Valid(s)
    ensures Valid(Step(s, e))
  {
    match e
    case KeyPress(key) => {
      match KeyDelta(key)
      case None =>
      case Some(d) => MovePreservesValid(s, d.dx, d.dy);
    }
    case MonsterTimer(u) =>
      var n := |Candidates(s.monster, s.portal)|;
      MonsterStepPreservesValid(s, if n == 0 then 0 else Pick(u, n));
    case ResetClick => InitialValid();
  }

  lemma {:induction false} RunPreservesValid(s: Session, events: seq<Event>)
    requires Valid(s)
    ensures Valid(Run(s, events))
    decreases |events|
  {
    if events != [] {
      StepPreservesValid(s, events[0]);
      RunPreservesValid(Step(s, events[0]), events[1..]);
    }
  }

  /** Every session reachable from start-up satisfies the invariant: player
      and monster on open cells, the monster never on the portal. */
  lemma ReachableValid(events: seq<Event>)
    ensures Valid(Run(INITIAL, events))
  {
    InitialValid();
    RunPreservesValid(INITIAL, events);
  }

  /** 'won' and 'lost' are terminal: no key and no monster step changes
      anything until restart. */
  lemma {:induction false} TerminalAbsorbing(s: Session, events: seq<Event>)
    requires s.state != Playing
    requires forall i :: 0 <= i < |events| ==> !events[i].ResetClick?
    ensures Run(s, events) == s
    decreases |events|
  {
    if events != [] {
      assert Step(s, events[0]) == s;
      TerminalAbsorbing(s, events[1..]);
    }
  }

  /** From the start, one step right succeeds and changes nothing but the
      player. */
  lemma StartStepRight()
    ensures KeyDown(INITIAL, "d") == INITIAL.(player := Cell(2, 1))
  {
    assert AttemptMovePlayer(INITIAL, 1, 0) == INITIAL.(player := Cell(2, 1)) by {
      assert CanMoveTo(2, 1) by { assert MAZE[1][2] == 0; }
    }
    assert KeyDown(INITIAL, "d") == AttemptMovePlayer(INITIAL, 1, 0) by {
      assert KeyDelta("d") == Some(RIGHT);
    }
  }

  /** From the start, one step up hits the wall and changes nothing. */
  lemma StartBumpWall()
    ensures KeyDown(INITIAL, "w") == INITIAL
  {
    assert AttemptMovePlayer(INITIAL, 0, -1) == INITIAL by {
      assert !CanMoveTo(1, 0) by { assert MAZE[0][1] == 1; }
    }
    assert KeyDown(INITIAL, "w") == AttemptMovePlayer(INITIAL, 0, -1) by {
      assert KeyDelta("w") == Some(UP);
    }
  }
}
