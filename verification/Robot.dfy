/**
 The movement thread of the robot (tasks.c) on a square grid: it cleans, turns where
 the way is blocked, steps back when it bumps into something, and returns home.
 */
module Robot {
  import opened Arithmetic

  datatype Direction = Up | Down | Left | Right | Return

  /** 0 unknown, 1 obstacle, 2 cleaned. */
  type Grid = seq<seq<int>>

  /** `armed` says that a move has been completed for which no obstacle was signalled yet. */
  datatype State = State(n: nat, grid: Grid, row: int, col: int, dir: Direction, armed: bool, alive: bool)

  ghost predicate Square(g: Grid, n: nat) {
    |g| == n && forall r :: 0 <= r < n ==> |g[r]| == n
  }

  predicate Inside(n: nat, r: int, c: int) {
    0 <= r < n && 0 <= c < n
  }

  function Marked(g: Grid, r: int, c: int, v: int): Grid
    requires 0 <= r < |g| && 0 <= c < |g[r]|
  {
    g[r := g[r][c := v]]
  }

  function Ahead(r: int, c: int, d: Direction): (int, int) {
    match d
    case Up => (r - 1, c)
    case Down => (r + 1, c)
    case Left => (r, c - 1)
    case Right => (r, c + 1)
    case Return => (r, c)
  }

  function Opposite(d: Direction): Direction {
    match d
    case Up => Down
    case Down => Up
    case Left => Right
    case Right => Left
    case Return => Return
  }

  /** The neighbour in direction d is inside the room and not known to be an obstacle. */
  predicate Open(s: State, d: Direction)
    requires Square(s.grid, s.n)
  {
    var (r, c) := Ahead(s.row, s.col, d);
    Inside(s.n, r, c) && s.grid[r][c] != 1
  }

  /** What find_new_position tries: any direction but straight back. */
  predicate Candidate(s: State, d: Direction)
    requires Square(s.grid, s.n)
  {
    d != Return && s.dir != Opposite(d) && Open(s, d)
  }

  datatype Choice = Go(d: Direction) | Stuck

  /** The order in which it tries them. */
  function Choose(s: State): Choice
    requires Square(s.grid, s.n)
  {
    if Candidate(s, Up) then Go(Up)
    else if Candidate(s, Down) then Go(Down)
    else if Candidate(s, Left) then Go(Left)
    else if Candidate(s, Right) then Go(Right)
    else Stuck
  }

  function Moved(s: State, d: Direction): State {
    var (r, c) := Ahead(s.row, s.col, d);
    s.(row := r, col := c, dir := d, armed := true)
  }

  /** The tile under the robot is signalled as cleaned, once. */
  function Clean(s: State): State
    requires Square(s.grid, s.n) && Inside(s.n, s.row, s.col)
  {
    if s.grid[s.row][s.col] == 0 then s.(grid := Marked(s.grid, s.row, s.col, 2)) else s
  }

  function Decide(s: State): State
    requires Square(s.grid, s.n)
  {
    if s.dir == Return then
      var t := if s.row > 0 then s.(row := s.row - 1) else if s.col > 0 then s.(col := s.col - 1) else s;
      t.(alive := !(t.row == 0 && t.col == 0))
    else if Open(s, s.dir) then Moved(s, s.dir)
    else
      match Choose(s)
      case Go(d) => Moved(s, d)
      case Stuck => s.(alive := false)
  }

  /** One activation of the thread; the mail is the order to come home, which also masks the signal. */
  function Activate(s: State, mail: bool): State
    requires Square(s.grid, s.n) && Inside(s.n, s.row, s.col)
  {
    CleanSquare(if mail then s.(dir := Return, armed := false) else s);
    Decide(Clean(if mail then s.(dir := Return, armed := false) else s))
  }

  lemma CleanSquare(s: State)
    requires Square(s.grid, s.n) && Inside(s.n, s.row, s.col)
    ensures Square(Clean(s).grid, s.n)
  {
  }

  /** The signal handler: mark the obstacle and take the move back. */
  function Bump(s: State): State
    requires Square(s.grid, s.n) && Inside(s.n, s.row, s.col)
  {
    var (r, c) := Ahead(s.row, s.col, Opposite(s.dir));
    s.(grid := Marked(s.grid, s.row, s.col, 1), row := r, col := c, armed := false)
  }

  // ---- Invariant ----

  /**
   The robot is inside the room; until it returns it does not stand on an obstacle, and the
   tile it came from is inside and cleaned.
   */
  ghost predicate Inv(s: State) {
    && s.n > 0 && Square(s.grid, s.n) && Inside(s.n, s.row, s.col)
    && (forall r, c :: Inside(s.n, r, c) ==> 0 <= s.grid[r][c] <= 2)
    && (s.dir != Return ==> s.grid[s.row][s.col] != 1)
    && (s.armed ==> s.dir != Return && BehindCleaned(s))
  }

  ghost predicate BehindCleaned(s: State)
    requires Square(s.grid, s.n)
  {
    var (r, c) := Ahead(s.row, s.col, Opposite(s.dir));
    Inside(s.n, r, c) && s.grid[r][c] == 2
  }

  datatype Action = Activation(mail: bool) | Obstacle

  /** At most one signal per completed move, none before the first and none once it returns. */
  predicate Enabled(s: State, a: Action) {
    match a
    case Activation(_) => s.alive
    case Obstacle => s.alive && s.armed
  }

  function Act(s: State, a: Action): State
    requires Square(s.grid, s.n) && Inside(s.n, s.row, s.col)
  {
    match a
    case Activation(mail) => Activate(s, mail)
    case Obstacle => Bump(s)
  }

  function Start(n: nat): State {
    State(n, seq(n, r => seq(n, c => 0)), 0, 0, Down, false, true)
  }

  lemma StartInv(n: nat)
    requires n > 0
    ensures Inv(Start(n))
  {
  }

  lemma CleanInv(s: State)
    requires Inv(s)
    ensures Inv(Clean(s)) && Clean(s).grid[s.row][s.col] != 0
    ensures s.dir != Return ==> Clean(s).grid[s.row][s.col] == 2
    ensures forall r, c :: Inside(s.n, r, c) && (r != s.row || c != s.col) ==> Clean(s).grid[r][c] == s.grid[r][c]
    ensures s.grid[s.row][s.col] == 1 ==> Clean(s).grid == s.grid
  {
  }

  lemma MovedInv(s: State, d: Direction)
    requires Inv(s) && d != Return && Open(s, d) && s.grid[s.row][s.col] == 2
    ensures Inv(Moved(s, d))
  {
  }

  lemma ActInv(s: State, a: Action)
    requires Inv(s) && Enabled(s, a)
    ensures Inv(Act(s, a))
  {
    match a
    case Activation(mail) =>
      var t := if mail then s.(dir := Return, armed := false) else s;
      CleanInv(t);
      DecideInv(Clean(t));
    case Obstacle =>
      var (r, c) := Ahead(s.row, s.col, Opposite(s.dir));
      assert r != s.row || c != s.col;
  }

  lemma DecideInv(s: State)
    requires Inv(s) && (s.dir != Return ==> s.grid[s.row][s.col] == 2)
    ensures Inv(Decide(s)) && Decide(s).grid == s.grid && Decide(s).n == s.n
  {
    if s.dir != Return {
      if Open(s, s.dir) {
        MovedInv(s, s.dir);
      } else if Choose(s).Go? {
        MovedInv(s, Choose(s).d);
      }
    }
  }

  // ---- Runs ----

  ghost function Next(s: State, a: Action): (t: State)
    requires Inv(s)
    ensures Inv(t)
  {
    if Enabled(s, a) then ActInv(s, a); Act(s, a) else s
  }

  ghost function Run(s: State, actions: seq<Action>): (t: State)
    requires Inv(s)
    ensures Inv(t)
    decreases |actions|
  {
    if actions == [] then s else Run(Next(s, actions[0]), actions[1..])
  }

  /** Only the tile under the robot changes, to cleaned or to obstacle, and never back. */
  lemma NextGrid(s: State, a: Action)
    requires Inv(s)
    ensures Next(s, a).n == s.n
    ensures forall r, c :: Inside(s.n, r, c) ==>
      && (s.grid[r][c] == 1 ==> Next(s, a).grid[r][c] == 1)
      && (s.grid[r][c] != 0 ==> Next(s, a).grid[r][c] != 0)
  {
    hide Decide;
    if Enabled(s, a) && a.Activation? {
      var t := if a.mail then s.(dir := Return, armed := false) else s;
      CleanInv(t);
      DecideInv(Clean(t));
    }
  }

  /** Obstacle marks are permanent. */
  lemma {:induction false} ObstaclesStay(s: State, actions: seq<Action>, r: int, c: int)
    requires Inv(s) && Inside(s.n, r, c) && s.grid[r][c] == 1
    ensures Run(s, actions).n == s.n && Run(s, actions).grid[r][c] == 1
    decreases |actions|
  {
    hide Next;
    if actions != [] {
      NextGrid(s, actions[0]);
      ObstaclesStay(Next(s, actions[0]), actions[1..], r, c);
    }
  }

  /** Whether an action signals the tile under the robot as cleaned. */
  predicate Cleans(s: State, a: Action)
    requires Square(s.grid, s.n) && Inside(s.n, s.row, s.col)
  {
    Enabled(s, a) && a.Activation? && s.grid[s.row][s.col] == 0
  }

  /** How often tile (r, c) is signalled as cleaned in a run. */
  ghost function TimesCleaned(s: State, actions: seq<Action>, r: int, c: int): nat
    requires Inv(s)
    decreases |actions|
  {
    if actions == [] then 0
    else
      (if Cleans(s, actions[0]) && s.row == r && s.col == c then 1 else 0)
      + TimesCleaned(Next(s, actions[0]), actions[1..], r, c)
  }

  lemma CleansMarks(s: State, a: Action)
    requires Inv(s) && Cleans(s, a)
    ensures Next(s, a).n == s.n && Next(s, a).grid[s.row][s.col] != 0
  {
    hide Decide;
    var t := if a.mail then s.(dir := Return, armed := false) else s;
    CleanInv(t);
    DecideInv(Clean(t));
  }

  /** Every tile is cleaned at most once, and not at all once it is known. */
  lemma {:induction false} CleanedOnce(s: State, actions: seq<Action>, r: int, c: int)
    requires Inv(s) && Inside(s.n, r, c)
    ensures TimesCleaned(s, actions, r, c) <= if s.grid[r][c] == 0 then 1 else 0
    decreases |actions|
  {
    hide Next;
    if actions != [] {
      NextGrid(s, actions[0]);
      CleanedOnce(Next(s, actions[0]), actions[1..], r, c);
      if Cleans(s, actions[0]) && s.row == r && s.col == c {
        CleansMarks(s, actions[0]);
      }
    }
  }

  /** A decision that does not end the thread is a move by one tile in the direction the robot then has. */
  lemma DecideMoves(s: State)
    requires Square(s.grid, s.n) && s.dir != Return && Decide(s).alive
    ensures var m := Decide(s);
      && m.dir != Return && m.armed && m.grid == s.grid && m.n == s.n && (s.alive ==> m.alive)
      && Ahead(m.row, m.col, Opposite(m.dir)) == (s.row, s.col) && (m.row, m.col) != (s.row, s.col)
  {
    hide Open;
  }

  /** The handler after a move restores the position exactly and marks the tile that was bumped into, and only it. */
  lemma BumpUndoesMove(s: State)
    requires Inv(s) && s.alive && s.dir != Return && Activate(s, false).alive
    ensures var m := Activate(s, false);
      && Inv(m) && Enabled(m, Obstacle) && (m.row, m.col) != (s.row, s.col)
      && var b := Bump(m);
      && b.row == s.row && b.col == s.col && b.dir == m.dir && b.grid == Marked(m.grid, m.row, m.col, 1)
      && b.grid[s.row][s.col] == 2
  {
    hide Decide, Clean;
    ActInv(s, Activation(false));
    CleanInv(s);
    CleanStays(s);
    DecideMoves(Clean(s));
  }

  lemma CleanStays(s: State)
    requires Square(s.grid, s.n) && Inside(s.n, s.row, s.col)
    ensures var t := Clean(s);
      t.n == s.n && t.row == s.row && t.col == s.col && t.dir == s.dir && t.alive == s.alive && t.armed == s.armed
  {
  }

  lemma StandsInside(s: State)
    requires Inv(s)
    ensures Square(s.grid, s.n) && Inside(s.n, s.row, s.col) && (s.armed ==> s.dir != Return)
  {
  }

  /** find_new_position gives up exactly if every neighbour but the one straight back is blocked. */
  lemma StuckIff(s: State)
    requires Square(s.grid, s.n)
    ensures Choose(s) == Stuck <==> forall d :: d != Return && d != Opposite(s.dir) ==> !Open(s, d)
    ensures Choose(s).Go? ==> Open(s, Choose(s).d) && Choose(s).d != Return && Choose(s).d != Opposite(s.dir)
  {
    assert forall d :: s.dir == Opposite(d) <==> d == Opposite(s.dir);
    assert Candidate(s, Up) || Candidate(s, Down) || Candidate(s, Left) || Candidate(s, Right) <==>
      exists d :: Candidate(s, d);
  }

  /** The directions in the order in which find_new_position tries them. */
  const TRIED: seq<Direction> := [Up, Down, Left, Right]

  /** Of the directions that are open and not straight back it takes the first one tried. */
  lemma ChoosesFirst(s: State, i: nat)
    requires Square(s.grid, s.n) && i < |TRIED|
    ensures Choose(s) == Go(TRIED[i]) <==>
      && Open(s, TRIED[i]) && TRIED[i] != Opposite(s.dir)
      && forall j :: 0 <= j < i ==> !Open(s, TRIED[j]) || TRIED[j] == Opposite(s.dir)
  {
    hide Open;
    assert TRIED[0] == Up && TRIED[1] == Down && TRIED[2] == Left && TRIED[3] == Right;
    assert forall d :: s.dir == Opposite(d) <==> d == Opposite(s.dir);
  }

  /** Outside its return the thread ends exactly where every neighbour but the one straight back is blocked. */
  lemma EndsIffCornered(s: State)
    requires Inv(s) && s.alive && s.dir != Return
    ensures !Activate(s, false).alive <==> forall d :: d != Return && d != Opposite(s.dir) ==> !Open(s, d)
    ensures !Activate(s, false).alive ==> Activate(s, false).row == s.row && Activate(s, false).col == s.col
  {
    CleanInv(s);
    var t := Clean(s);
    assert forall d :: d != Return ==> (Open(t, d) <==> Open(s, d));
    StuckIff(t);
    assert s.dir != Opposite(s.dir);
  }

  /** A grid of two by two tiles. */
  function Tiles2(a: int, b: int, c: int, d: int): Grid {
    [[a, b], [c, d]]
  }

  function At2(g: Grid, row: int, col: int, dir: Direction, armed: bool): State {
    State(2, g, row, col, dir, armed, true)
  }

  /** A run on two by two tiles after which every way but the one back is blocked. */
  const ROUND: seq<Action> :=
    [Activation(false), Activation(false), Obstacle, Activation(false), Activation(false), Obstacle, Activation(false)]

  lemma Marks2(a: int, b: int, c: int, d: int, v: int)
    ensures Marked(Tiles2(a, b, c, d), 0, 0, v) == Tiles2(v, b, c, d)
    ensures Marked(Tiles2(a, b, c, d), 0, 1, v) == Tiles2(a, v, c, d)
    ensures Marked(Tiles2(a, b, c, d), 1, 0, v) == Tiles2(a, b, v, d)
    ensures Marked(Tiles2(a, b, c, d), 1, 1, v) == Tiles2(a, b, c, v)
  {
    assert [a, b][0 := v] == [v, b] && [a, b][1 := v] == [a, v];
    assert [c, d][0 := v] == [v, d] && [c, d][1 := v] == [c, v];
  }

  /** Down from the first tile, right from the second, and back because of an obstacle there. */
  lemma FirstSteps()
    ensures var s0, s1 := Start(2), At2(Tiles2(2, 0, 0, 0), 1, 0, Down, true);
      var s2, s3 := At2(Tiles2(2, 0, 2, 0), 1, 1, Right, true), At2(Tiles2(2, 0, 2, 1), 1, 0, Right, false);
      && Act(s0, Activation(false)) == s1 && Act(s1, Activation(false)) == s2 && Act(s2, Obstacle) == s3
  {
    assert seq(2, c => 0) == [0, 0];
    assert seq(2, r => seq(2, c => 0)) == Tiles2(0, 0, 0, 0);
    hide Marked;
    Marks2(0, 0, 0, 0, 2);
    Marks2(2, 0, 0, 0, 2);
    Marks2(2, 0, 2, 0, 1);
  }

  /** Up, right, back because of an obstacle there, and down again. */
  lemma LastSteps()
    ensures var s3, s4 := At2(Tiles2(2, 0, 2, 1), 1, 0, Right, false), At2(Tiles2(2, 0, 2, 1), 0, 0, Up, true);
      var s5, s6 := At2(Tiles2(2, 0, 2, 1), 0, 1, Right, true), At2(Tiles2(2, 1, 2, 1), 0, 0, Right, false);
      var s7 := At2(Tiles2(2, 1, 2, 1), 1, 0, Down, true);
      && Act(s3, Activation(false)) == s4 && Act(s4, Activation(false)) == s5
      && Act(s5, Obstacle) == s6 && Act(s6, Activation(false)) == s7
  {
    Marks2(2, 0, 2, 1, 1);
  }

  /** So the thread can end although the way back is open: a run reaches such a place, and there it ends. */
  lemma EndsWithWayBack()
    ensures Inv(Start(2))
    ensures var s := Run(Start(2), ROUND);
      s.alive && s.dir != Return && Open(s, Opposite(s.dir)) && !Activate(s, false).alive
  {
    StartInv(2);
    FirstSteps();
    LastSteps();
  }

  /** k activations in a row, with or without further mail. */
  ghost function Activations(s: State, mails: seq<bool>): (t: State)
    requires Inv(s)
    ensures Inv(t)
    decreases |mails|
  {
    if mails == [] then s else Activations(Next(s, Activation(mails[0])), mails[1..])
  }

  lemma ReturnStep(s: State, mail: bool)
    requires Inv(s) && s.alive && s.dir == Return
    ensures var t := Next(s, Activation(mail));
      && t.dir == Return
      && t.row == (if s.row > 0 then s.row - 1 else 0)
      && t.col == (if s.row == 0 && s.col > 0 then s.col - 1 else s.col)
      && (t.alive <==> t.row + t.col > 0)
  {
  }

  /**
   On its way home the robot goes up to the first row and then left along it; from row + column d > 0 it is
   there after exactly d activations, and not before.
   */
  lemma {:induction false} ReturnsInExactly(s: State, mails: seq<bool>)
    requires Inv(s) && s.alive && s.dir == Return && |mails| <= s.row + s.col && s.row + s.col > 0
    ensures var t, k := Activations(s, mails), |mails|;
      && t.row == (if k < s.row then s.row - k else 0) && t.col == (if k < s.row then s.col else s.col + s.row - k)
      && (t.alive <==> k < s.row + s.col)
      && (k == s.row + s.col ==> t.row == 0 && t.col == 0)
    decreases |mails|
  {
    hide Next;
    if mails != [] {
      ReturnStep(s, mails[0]);
      var t := Next(s, Activation(mails[0]));
      if mails[1..] != [] {
        ReturnsInExactly(t, mails[1..]);
      }
    }
  }

  /** The mail sends the robot home: it gets there after as many activations as its row and column say. */
  lemma MailSendsHome(s: State, mails: seq<bool>)
    requires Inv(s) && s.alive && mails != [] && mails[0]
    requires |mails| == Max(1, s.row + s.col)
    ensures var t := Activations(s, mails);
      t.row == 0 && t.col == 0 && !t.alive && t.dir == Return
  {
    hide Activate, Next;
    var t := Next(s, Activation(true));
    MailTurns(s);
    assert mails[1..] == [] || t.row + t.col > 0;
    if mails[1..] != [] {
      ReturnsInExactly(t, mails[1..]);
      StaysReturning(t, mails[1..]);
    }
  }

  lemma MailTurns(s: State)
    requires Inv(s) && s.alive
    ensures var t := Next(s, Activation(true));
      && t.dir == Return && (t.alive <==> t.row + t.col > 0)
      && t.row + t.col == if s.row + s.col > 0 then s.row + s.col - 1 else 0
  {
  }

  lemma {:induction false} StaysReturning(s: State, mails: seq<bool>)
    requires Inv(s) && s.dir == Return
    ensures Activations(s, mails).dir == Return
    decreases |mails|
  {
    hide Next;
    if mails != [] {
      if s.alive {
        ReturnStep(s, mails[0]);
      } else {
        DeadStays(s, mails[0]);
      }
      StaysReturning(Next(s, Activation(mails[0])), mails[1..]);
    }
  }

  lemma DeadStays(s: State, mail: bool)
    requires Inv(s) && !s.alive
    ensures Next(s, Activation(mail)) == s
  {
  }

  // ---- The round without obstacles ----

  /** How many tiles the border of the room has. */
  function Lap(n: nat): nat
    requires n >= 2
  {
    4 * (n - 1)
  }

  /** The tile of the border j steps from (0, 0): down, right, up and left again. */
  function Place(n: nat, j: nat): (int, int)
    requires n >= 2 && j < Lap(n)
  {
    var m := n - 1;
    if j <= m then (j, 0)
    else if j <= 2 * m then (m, j - m)
    else if j <= 3 * m then (3 * m - j, m)
    else (0, 4 * m - j)
  }

  /** The direction in which that tile is reached; the round starts downwards. */
  predicate Heads(n: nat, j: nat, d: Direction)
    requires n >= 2 && j < Lap(n)
  {
    var m := n - 1;
    if j == 0 then d == Left || d == Down
    else if j <= m then d == Down
    else if j <= 2 * m then d == Right
    else if j <= 3 * m then d == Up
    else d == Left
  }

  predicate OnBorder(n: nat, r: int, c: int) {
    r == 0 || c == 0 || r == n - 1 || c == n - 1
  }

  /** Where the robot is after k activations. */
  function PlaceAfter(n: nat, k: nat): (int, int)
    requires n >= 2
  {
    Place(n, k % Lap(n))
  }

  ghost predicate Visited(n: nat, k: nat, r: int, c: int)
    requires n >= 2
  {
    exists i: nat :: i < k && PlaceAfter(n, i) == (r, c)
  }

  /** After k activations: cleaned is what has been visited, and nothing else is known. */
  ghost predicate InRound(s: State, k: nat) {
    && s.n >= 2 && Inv(s) && s.alive
    && (s.row, s.col) == PlaceAfter(s.n, k) && Heads(s.n, k % Lap(s.n), s.dir)
    && forall r, c :: Inside(s.n, r, c) ==> s.grid[r][c] == if Visited(s.n, k, r, c) then 2 else 0
  }

  /** One decision in a room without obstacles goes on along the border. */
  lemma DecideOnBorder(s: State, j: nat)
    requires s.n >= 2 && Square(s.grid, s.n) && s.alive && j < Lap(s.n)
    requires (s.row, s.col) == Place(s.n, j) && Heads(s.n, j, s.dir)
    requires forall r, c :: Inside(s.n, r, c) ==> s.grid[r][c] != 1
    ensures var t, next := Decide(s), if j + 1 == Lap(s.n) then 0 else j + 1;
      t.alive && t.n == s.n && t.grid == s.grid && (t.row, t.col) == Place(s.n, next) && Heads(s.n, next, t.dir)
  {
    hide Square;
    assert forall d :: Open(s, d) <==> Inside(s.n, Ahead(s.row, s.col, d).0, Ahead(s.row, s.col, d).1);
  }

  lemma NextOnLap(p: nat, k: nat)
    requires p > 0
    ensures (k + 1) % p == if k % p + 1 == p then 0 else k % p + 1
  {
    var q, r := k / p, k % p;
    assert k == q * p + r;
    if r + 1 == p {
      RemainderIs(k + 1, p, q + 1, 0);
    } else {
      RemainderIs(k + 1, p, q, r + 1);
    }
  }

  lemma VisitedNext(n: nat, k: nat, r: int, c: int)
    requires n >= 2
    ensures Visited(n, k + 1, r, c) <==> Visited(n, k, r, c) || PlaceAfter(n, k) == (r, c)
  {
    hide PlaceAfter;
  }

  lemma RoundStep(s: State, k: nat)
    requires InRound(s, k)
    ensures InRound(Next(s, Activation(false)), k + 1)
  {
    hide Visited, Place, Heads, Decide;
    var t, p := Clean(s), Lap(s.n);
    CleanInv(s);
    CleanStays(s);
    forall r, c | Inside(s.n, r, c)
      ensures t.grid[r][c] == if Visited(s.n, k + 1, r, c) then 2 else 0
    {
      VisitedNext(s.n, k, r, c);
    }
    NextOnLap(p, k);
    DecideOnBorder(t, k % p);
  }

  /** Without obstacles and mail the robot goes round the border for ever: after k activations it is k steps along. */
  lemma {:induction false} GoesRound(s: State, k: nat, mails: seq<bool>)
    requires InRound(s, k) && forall i :: 0 <= i < |mails| ==> !mails[i]
    ensures InRound(Activations(s, mails), k + |mails|)
    decreases |mails|
  {
    hide InRound, Next;
    if mails != [] {
      assert Inv(s) by {
        RoundInv(s, k);
      }
      RoundStep(s, k);
      GoesRound(Next(s, Activation(mails[0])), k + 1, mails[1..]);
    }
  }

  lemma RoundInv(s: State, k: nat)
    requires InRound(s, k)
    ensures Inv(s)
  {
  }

  /** The tiles of the round are those of the border. */
  lemma PlaceOnBorder(n: nat, j: nat)
    requires n >= 2 && j < Lap(n)
    ensures var (r, c) := Place(n, j); Inside(n, r, c) && OnBorder(n, r, c)
  {
  }

  lemma BorderPlace(n: nat, r: int, c: int) returns (j: nat)
    requires n >= 2 && Inside(n, r, c) && OnBorder(n, r, c)
    ensures j < Lap(n) && Place(n, j) == (r, c)
  {
    var m := n - 1;
    j := if c == 0 then r else if r == m then m + c else if c == m then 3 * m - r else 4 * m - c;
  }

  /** No tile off the border is known. */
  ghost predicate InnerUnknown(s: State) {
    Square(s.grid, s.n) && forall r, c :: Inside(s.n, r, c) && !OnBorder(s.n, r, c) ==> s.grid[r][c] == 0
  }

  ghost predicate BorderIsCleaned(s: State) {
    Square(s.grid, s.n) && forall r, c :: Inside(s.n, r, c) && OnBorder(s.n, r, c) ==> s.grid[r][c] == 2
  }

  lemma RoundGrid(s: State, k: nat)
    requires InRound(s, k)
    ensures s.alive && (s.row, s.col) == PlaceAfter(s.n, k)
    ensures InnerUnknown(s) && (k >= Lap(s.n) ==> BorderIsCleaned(s))
  {
    hide Place, PlaceAfter, Heads, Visited, OnBorder, Lap, BehindCleaned;
    forall r, c | Inside(s.n, r, c)
      ensures !OnBorder(s.n, r, c) ==> s.grid[r][c] == 0
      ensures OnBorder(s.n, r, c) && k >= Lap(s.n) ==> s.grid[r][c] == 2
    {
      VisitedIsBorder(s.n, k, r, c);
    }
  }

  /**
   In a room of two by two tiles or more without obstacles, as long as no mail arrives: the thread never
   ends, no tile off the border is ever cleaned, and after one lap every tile of the border is.
   */
  lemma OnlyBorderCleaned(n: nat, mails: seq<bool>)
    requires n >= 2 && forall i :: 0 <= i < |mails| ==> !mails[i]
    ensures Inv(Start(n))
    ensures var t := Activations(Start(n), mails);
      && t.n == n && t.alive && (t.row, t.col) == PlaceAfter(n, |mails|)
      && InnerUnknown(t) && (|mails| >= Lap(n) ==> BorderIsCleaned(t))
  {
    hide InRound, PlaceAfter, Lap, InnerUnknown, BorderIsCleaned, Inv, Start, Activations;
    StartsRound(n);
    GoesRound(Start(n), 0, mails);
    SameSide(Start(n), mails);
    RoundGrid(Activations(Start(n), mails), |mails|);
  }

  lemma StartsRound(n: nat)
    requires n >= 2
    ensures InRound(Start(n), 0) && Inv(Start(n)) && Start(n).n == n
  {
    SmallRemainder(0, Lap(n));
  }

  lemma VisitedIsBorder(n: nat, k: nat, r: int, c: int)
    requires n >= 2 && Inside(n, r, c)
    ensures Visited(n, k, r, c) ==> OnBorder(n, r, c)
    ensures OnBorder(n, r, c) && k >= Lap(n) ==> Visited(n, k, r, c)
  {
    hide Place, OnBorder;
    if i: nat :| i < k && PlaceAfter(n, i) == (r, c) {
      PlaceOnBorder(n, i % Lap(n));
    }
    if OnBorder(n, r, c) && k >= Lap(n) {
      var j := BorderPlace(n, r, c);
      SmallRemainder(j, Lap(n));
      assert PlaceAfter(n, j) == (r, c);
    }
  }

  lemma {:induction false} SameSide(s: State, mails: seq<bool>)
    requires Inv(s)
    ensures Activations(s, mails).n == s.n
    decreases |mails|
  {
    hide Next;
    if mails != [] {
      NextGrid(s, Activation(mails[0]));
      SameSide(Next(s, Activation(mails[0])), mails[1..]);
    }
  }

  // ---- The thread ----

  class MovementControl {
    const side: nat
    const map': array2<int>
    var row: int
    var col: int
    var direction: Direction
    /** Whether the handler may run: no signal yet for the last completed move, signal not masked. */
    ghost var armed: bool
    var alive: bool

    ghost predicate Sized() {
      map'.Length0 == side && map'.Length1 == side
    }

    ghost function Tiles(): (g: Grid)
      requires Sized()
      reads map'
      ensures Square(g, side) && forall r, c :: Inside(side, r, c) ==> g[r][c] == map'[r, c]
    {
      var m, n := map', side;
      seq(n, r requires 0 <= r < n && m.Length0 == n && m.Length1 == n reads m =>
        seq(n, c requires 0 <= c < n && 0 <= r < n && m.Length0 == n && m.Length1 == n reads m => m[r, c]))
    }

    ghost function View(): (s: State)
      requires Sized()
      reads this, map'
    {
      State(side, Tiles(), row, col, direction, armed, alive)
    }

    ghost predicate Valid()
      reads this, map'
    {
      Sized() && Inv(View())
    }

    /** The initialisation in movement_control_entry. */
    constructor (side: nat)
      requires side > 0
      ensures Valid() && View() == Start(side) && fresh(map')
    {
      this.side := side;
      map' := new int[side, side]((i, j) => 0);
      row, col, direction, alive := 0, 0, Down, true;
      armed := false;
      new;
      FreshTiles();
    }

    lemma FreshTiles()
      requires Sized() && side > 0 && forall r, c :: Inside(side, r, c) ==> map'[r, c] == 0
      ensures Tiles() == Start(side).grid
      ensures Inv(Start(side))
    {
      var g := Start(side).grid;
      forall r | 0 <= r < side
        ensures Tiles()[r] == g[r]
      {
        assert forall c :: 0 <= c < side ==> Tiles()[r][c] == g[r][c];
      }
      StartInv(side);
    }

    /** What the tests on position and map mean. */
    lemma Opens()
      requires Sized() && Inside(side, row, col)
      ensures Open(View(), Up) <==> row > 0 && map'[row - 1, col] != 1
      ensures Open(View(), Down) <==> row < side - 1 && map'[row + 1, col] != 1
      ensures Open(View(), Left) <==> col > 0 && map'[row, col - 1] != 1
      ensures Open(View(), Right) <==> col < side - 1 && map'[row, col + 1] != 1
    {
    }

    method Mark(r: nat, c: nat, v: int)
      requires Sized() && r < side && c < side
      modifies map'
      ensures View() == old(View()).(grid := Marked(old(View()).grid, r, c, v))
    {
      map'[r, c] := v;
      ghost var g := Marked(old(Tiles()), r, c, v);
      forall i | 0 <= i < side
        ensures Tiles()[i] == g[i]
      {
        assert forall j :: 0 <= j < side ==> Tiles()[i][j] == g[i][j];
      }
    }

    /** find_new_position: 1 if there is nowhere to go. */
    method FindNewPosition() returns (stuck: int)
      requires Sized() && Inside(side, row, col)
      modifies this`row, this`col, this`direction, this`armed
      ensures stuck == 1 <==> Choose(old(View())) == Stuck
      ensures stuck == 0 || stuck == 1
      ensures View() == match Choose(old(View())) case Go(d) => Moved(old(View()), d) case Stuck => old(View())
    {
      hide Open, Tiles;
      Opens();
      if direction != Down && row > 0 && map'[row - 1, col] != 1 {
        row := row - 1;
        direction := Up;
        armed := true;
        return 0;
      }
      if direction != Up && row < side - 1 && map'[row + 1, col] != 1 {
        row := row + 1;
        direction := Down;
        armed := true;
        return 0;
      }
      if direction != Right && col > 0 && map'[row, col - 1] != 1 {
        col := col - 1;
        direction := Left;
        armed := true;
        return 0;
      }
      if direction != Left && col < side - 1 && map'[row, col + 1] != 1 {
        col := col + 1;
        direction := Right;
        armed := true;
        return 0;
      }
      return 1;
    }

    /** movement_control_obstacle_handler. */
    method ObstacleHandler()
      requires Valid() && Enabled(View(), Obstacle)
      modifies this, map'
      ensures Valid() && View() == Act(old(View()), Obstacle)
    {
      hide Inv, Tiles, Marked;
      ActInv(View(), Obstacle);
      StandsInside(View());
      Mark(row, col, 1);
      match direction {
        case Up => row := row + 1;
        case Down => row := row - 1;
        case Left => col := col + 1;
        case Right => col := col - 1;
        case Return =>
      }
      armed := false;
    }

    /** Straight on if the way is open, else wherever find_new_position leads. */
    method Advance() returns (stuck: int)
      requires Sized() && Inside(side, row, col) && alive && direction != Return
      modifies this`row, this`col, this`direction, this`armed
      ensures stuck == 0 || stuck == 1
      ensures View().(alive := stuck == 0) == Decide(old(View())) && direction != Return
    {
      hide Open, Tiles, Choose;
      Opens();
      StuckIff(View());
      stuck := 0;
      match direction {
        case Up =>
          if row > 0 && map'[row - 1, col] != 1 {
            row := row - 1;
            armed := true;
            return;
          }
        case Down =>
          if row < side - 1 && map'[row + 1, col] != 1 {
            row := row + 1;
            armed := true;
            return;
          }
        case Left =>
          if col > 0 && map'[row, col - 1] != 1 {
            col := col - 1;
            armed := true;
            return;
          }
        case Right =>
          if col < side - 1 && map'[row, col + 1] != 1 {
            col := col + 1;
            armed := true;
            return;
          }
        case Return =>
      }
      stuck := FindNewPosition();
    }

    /** One round of the loop of movement_control_entry; afterwards `alive` tells whether it goes on. */
    method Activation(mail: bool)
      requires Valid() && alive
      modifies this, map'
      ensures Valid() && View() == Act(old(View()), Action.Activation(mail))
    {
      hide Inv, Tiles, Marked, Decide;
      ActInv(View(), Action.Activation(mail));
      StandsInside(View());
      if mail {
        direction := Return;
        armed := false;
      }
      if map'[row, col] == 0 {
        Mark(row, col, 2);
      }
      var stuck := 0;
      if direction == Return {
        GoHome();
      } else {
        stuck := Advance();
      }
      if stuck == 1 {
        alive := false;
      }
      if direction == Return && row == 0 && col == 0 {
        alive := false;
      }
    }

    /** The RETURN branch: up to the first row, then along it. */
    method GoHome()
      requires Sized() && Inside(side, row, col) && direction == Return && alive
      modifies this`row, this`col
      ensures View().(alive := !(row == 0 && col == 0)) == Decide(old(View()))
    {
      if row > 0 {
        row := row - 1;
      } else if col > 0 {
        col := col - 1;
      }
    }
  }
}
