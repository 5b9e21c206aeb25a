/** The pinball table of game.js as values: the ball, the bumpers, the
    score and the balls left, and one call of `updateBall` as the function
    `Tick`, phase by phase. `Math.sqrt` behind `distanceTo` is the
    parameter `sqrt`; the lemmas show the bumper test is the squared test
    `DistSq < 9`, and state what a tick does to score, balls and ball. */
module PinballRules {
  import opened Geometry

  datatype Vec3 = Vec3(x: real, y: real, z: real)

  const StartScore: int := 0
  const StartBalls: int := 3
  /** Where a new ball is placed, and the velocity it is given. */
  const BallStart: Vec3 := Vec3(0.0, 2.0, 20.0)
  const LaunchVelocity: Vec3 := Vec3(0.1, 0.0, -0.2)
  /** The three bumpers' centres, in the order they are created. */
  const Bumpers: seq<Vec3> := [Vec3(-10.0, 2.0, 0.0), Vec3(10.0, 2.0, -10.0), Vec3(0.0, 2.0, -20.0)]
  const BumperReach: real := 3.0
  const BumperPoints: int := 500
  /** Wall lines: the side walls at |x| = 18, the top at z = -28, the
      drain at z = 30. */
  const SideWall: real := 18.0
  const TopWall: real := -28.0
  const DrainLine: real := 30.0
  /** A flipper reaches the ball beyond z = 23 and 7 units off the middle. */
  const FlipperLine: real := 23.0
  const FlipperReach: real := 7.0
  const FlipKick: real := 0.4
  const FlipLift: real := -0.5

  function Add(a: Vec3, b: Vec3): Vec3 { Vec3(a.x + b.x, a.y + b.y, a.z + b.z) }

  /** The squared distance between two points. */
  function DistSq(a: Vec3, b: Vec3): real {
    (a.x - b.x) * (a.x - b.x) + (a.y - b.y) * (a.y - b.y) + (a.z - b.z) * (a.z - b.z)
  }

  /** `a.distanceTo(b)`. */
  function DistanceTo(sqrt: real -> real, a: Vec3, b: Vec3): real {
    sqrt(DistSq(a, b))
  }

  /** A squared distance is never negative. */
  lemma DistSqNonNegative(a: Vec3, b: Vec3)
    ensures 0.0 <= DistSq(a, b)
  {
    var dx, dy, dz := a.x - b.x, a.y - b.y, a.z - b.z;
    var v := dx * dx + dy * dy;
    SumOfSquaresNonNegative(dx, dy, v);
    var w := dz * dz;
    SquareNonNegative(dz, w);
    assert DistSq(a, b) == v + w;
  }

  /** The sqrt-free bumper test: centre strictly within reach. */
  predicate InReach(p: Vec3, b: Vec3) { DistSq(p, b) < BumperReach * BumperReach }

  /** The source's test `distanceTo < 3` is the squared test. */
  lemma InReachIffDistance(sqrt: real -> real, p: Vec3, b: Vec3)
    requires IsSqrt(sqrt)
    ensures DistanceTo(sqrt, p, b) < BumperReach <==> InReach(p, b)
  {
    DistSqNonNegative(p, b);
    RootBelowIff(sqrt, DistSq(p, b), BumperReach);
  }

  /** A point within reach of a bumper lies within 3 of it along x and z. */
  lemma InReachBox(p: Vec3, b: Vec3)
    requires InReach(p, b)
    ensures -BumperReach < p.x - b.x < BumperReach
    ensures -BumperReach < p.z - b.z < BumperReach
  {
    var dx, dy, dz := p.x - b.x, p.y - b.y, p.z - b.z;
    var sx, sy, sz := dx * dx, dy * dy, dz * dz;
    SquareNonNegative(dx, sx);
    SquareNonNegative(dy, sy);
    SquareNonNegative(dz, sz);
    assert DistSq(p, b) == sx + sy + sz;
    SquareBelowBound(dx, sx, BumperReach);
    SquareBelowBound(dz, sz, BumperReach);
  }

  /** The number of bumpers within reach of `p`. */
  function NearCount(p: Vec3, bs: seq<Vec3>): (n: nat)
    ensures n <= |bs|
  {
    if bs == [] then 0
    else (if InReach(p, bs[0]) then 1 else 0) + NearCount(p, bs[1..])
  }

  /** The bumpers are more than twice the reach apart along x, so no point
      is within reach of two of them. */
  lemma AtMostOneBumper(p: Vec3)
    ensures NearCount(p, Bumpers) <= 1
  {
    var b0, b1, b2 := Bumpers[0], Bumpers[1], Bumpers[2];
    assert Bumpers[1..][1..] == [b2];
    assert NearCount(p, [b2]) == if InReach(p, b2) then 1 else 0;
    if InReach(p, b0) { InReachBox(p, b0); }
    if InReach(p, b1) { InReachBox(p, b1); }
    if InReach(p, b2) { InReachBox(p, b2); }
  }

  /** The ball's start is out of every bumper's reach. */
  lemma StartOutOfReach()
    ensures NearCount(BallStart, Bumpers) == 0
  {
    var b0, b1, b2 := Bumpers[0], Bumpers[1], Bumpers[2];
    assert Bumpers[1..][1..] == [b2];
    assert NearCount(BallStart, [b2]) == if InReach(BallStart, b2) then 1 else 0;
    if InReach(BallStart, b0) { InReachBox(BallStart, b0); }
    if InReach(BallStart, b1) { InReachBox(BallStart, b1); }
    if InReach(BallStart, b2) { InReachBox(BallStart, b2); }
  }

  // ---------------------------------------------------------------- one tick

  /** The table's state: score, balls left, the ball, and whether the game
      was declared over (where the source alerts and reloads the page). */
  datatype Table = Table(score: int, balls: int, position: Vec3, velocity: Vec3, over: bool)

  /** The state the page starts in. */
  const Start: Table := Table(StartScore, StartBalls, BallStart, LaunchVelocity, false)

  /** The ball moves by its velocity. */
  function Moved(t: Table): Table
  {
    t.(position := Add(t.position, t.velocity))
  }

  /** The walls: beyond a side wall the x velocity is negated, beyond the
      top the z velocity; the speed along each axis is kept. */
  function Walled(t: Table): (r: Table)
    ensures r.position == t.position && r.velocity.y == t.velocity.y
    ensures Abs(r.velocity.x) == Abs(t.velocity.x) && Abs(r.velocity.z) == Abs(t.velocity.z)
    ensures SideWall < Abs(t.position.x) ==> r.velocity.x == -t.velocity.x
    ensures Abs(t.position.x) <= SideWall ==> r.velocity.x == t.velocity.x
    ensures t.position.z < TopWall ==> r.velocity.z == -t.velocity.z
    ensures TopWall <= t.position.z ==> r.velocity.z == t.velocity.z
    ensures r.score == t.score && r.balls == t.balls && r.over == t.over
  {
    var vx := if Abs(t.position.x) > SideWall then t.velocity.x * -1.0 else t.velocity.x;
    var vz := if t.position.z < TopWall then t.velocity.z * -1.0 else t.velocity.z;
    t.(velocity := Vec3(vx, t.velocity.y, vz))
  }

  /** A ball past the drain line costs a ball; if none is left the game is
      over, otherwise the ball is placed back at the start. Afterwards the
      ball is on the table unless the game is over. */
  function Drained(t: Table): (r: Table)
    ensures r.score == t.score
    ensures r.balls == (if t.position.z > DrainLine then t.balls - 1 else t.balls)
    ensures r.over <==> t.over || (t.position.z > DrainLine && t.balls - 1 <= 0)
    ensures r.position.z <= DrainLine || r.over
    ensures t.position.z <= DrainLine ==> r == t
  {
    if t.position.z > DrainLine then
      var balls := t.balls - 1;
      if balls <= 0 then t.(balls := balls, over := true)
      else t.(balls := balls, position := BallStart, velocity := LaunchVelocity)
    else t
  }

  /** One bumper: within reach, it reverses the z velocity and scores;
      only the score and the z velocity can change. */
  function Hit(sqrt: real -> real, t: Table, b: Vec3): (r: Table)
    requires IsSqrt(sqrt)
    ensures r.position == t.position && r.balls == t.balls && r.over == t.over
    ensures r.velocity.x == t.velocity.x && r.velocity.y == t.velocity.y
    ensures r.score == t.score + (if InReach(t.position, b) then BumperPoints else 0)
    ensures r.velocity.z == (if InReach(t.position, b) then -t.velocity.z else t.velocity.z)
  {
    InReachIffDistance(sqrt, t.position, b);
    if DistanceTo(sqrt, t.position, b) < BumperReach then
      t.(velocity := t.velocity.(z := t.velocity.z * -1.0), score := t.score + BumperPoints)
    else t
  }

  /** The bumpers in turn: the ball stays put, its speed along z is kept,
      and the score rises by at most 500 per bumper. */
  function Bumped(sqrt: real -> real, t: Table, bs: seq<Vec3>): (r: Table)
    requires IsSqrt(sqrt)
    ensures r.position == t.position && r.balls == t.balls && r.over == t.over
    ensures r.velocity.x == t.velocity.x && r.velocity.y == t.velocity.y
    ensures Abs(r.velocity.z) == Abs(t.velocity.z)
    ensures t.score <= r.score <= t.score + BumperPoints * |bs|
    decreases |bs|
  {
    if bs == [] then t else Bumped(sqrt, Hit(sqrt, t, bs[0]), bs[1..])
  }

  /** The table after `n` bumper hits: 500 points each, and the z
      velocity reversed once per hit. */
  function AfterHits(t: Table, n: nat): Table
  {
    t.(score := t.score + BumperPoints * n,
       velocity := t.velocity.(z := if n % 2 == 0 then t.velocity.z else -t.velocity.z))
  }

  /** The bumper pass scores 500 per bumper in reach and reverses the z
      velocity once per such bumper; nothing else changes. */
  lemma {:induction false} BumpedCounts(sqrt: real -> real, t: Table, bs: seq<Vec3>)
    requires IsSqrt(sqrt)
    ensures Bumped(sqrt, t, bs) == AfterHits(t, NearCount(t.position, bs))
    decreases |bs|
  {
    if bs != [] {
      var h := Hit(sqrt, t, bs[0]);
      var m := NearCount(t.position, bs[1..]);
      BumpedCounts(sqrt, h, bs[1..]);
      assert Bumped(sqrt, t, bs) == AfterHits(h, m);
      if InReach(t.position, bs[0]) {
        assert h == AfterHits(t, 1);
        AfterHitsAdd(t, m);
      } else {
        assert h == t;
      }
    }
  }

  /** One hit and then `m` more are `m + 1` hits. */
  lemma AfterHitsAdd(t: Table, m: nat)
    ensures AfterHits(AfterHits(t, 1), m) == AfterHits(t, m + 1)
  {
    assert (m + 1) % 2 == 0 <==> m % 2 != 0;
  }

  predicate LeftFires(left: bool, p: Vec3) { left && p.z > FlipperLine && p.x < -FlipperReach }

  predicate RightFires(right: bool, p: Vec3) { right && p.z > FlipperLine && p.x > FlipperReach }

  /** The two flippers can never fire in the same tick. */
  lemma FlippersExclusive(left: bool, right: bool, p: Vec3)
    ensures !(LeftFires(left, p) && RightFires(right, p))
  {}

  /** The flippers: a pressed flipper near the ball overwrites the x and z
      velocity; only the velocity can change, and never its y part. */
  function Flipped(left: bool, right: bool, t: Table): (r: Table)
    ensures r.position == t.position && r.score == t.score && r.balls == t.balls && r.over == t.over
    ensures r.velocity.y == t.velocity.y
    ensures LeftFires(left, t.position) ==> r.velocity.x == FlipKick && r.velocity.z == FlipLift
    ensures RightFires(right, t.position) ==> r.velocity.x == -FlipKick && r.velocity.z == FlipLift
    ensures !LeftFires(left, t.position) && !RightFires(right, t.position) ==> r == t
  {
    var t1 := if LeftFires(left, t.position)
              then t.(velocity := t.velocity.(x := FlipKick, z := FlipLift)) else t;
    if RightFires(right, t1.position)
    then t1.(velocity := t1.velocity.(x := -FlipKick, z := FlipLift)) else t1
  }

  /** One call of `updateBall` with the flipper buttons as given: the
      score rises by 0 or 500, a drain costs exactly one ball, and a game
      over is never taken back. */
  function Tick(sqrt: real -> real, left: bool, right: bool, t: Table): (r: Table)
    requires IsSqrt(sqrt)
    ensures r.score == t.score || r.score == t.score + BumperPoints
    ensures r.balls == (if Drains(t) then t.balls - 1 else t.balls)
    ensures t.over ==> r.over
  {
    var d := Drained(Walled(Moved(t)));
    BumpedCounts(sqrt, d, Bumpers);
    AtMostOneBumper(d.position);
    Flipped(left, right, Bumped(sqrt, d, Bumpers))
  }

  /** A drain happens when the moved ball is past the drain line. */
  predicate Drains(t: Table) { t.position.z + t.velocity.z > DrainLine }

  /** The score rises by 500 per bumper within reach of the ball after the
      walls and the drain, which is at most one bumper: by 0 or by 500. */
  lemma TickScore(sqrt: real -> real, left: bool, right: bool, t: Table)
    requires IsSqrt(sqrt)
    ensures var r := Tick(sqrt, left, right, t);
            r.score == t.score + BumperPoints * NearCount(Drained(Walled(Moved(t))).position, Bumpers)
            && (r.score == t.score || r.score == t.score + BumperPoints)
  {
    var d := Drained(Walled(Moved(t)));
    BumpedCounts(sqrt, d, Bumpers);
    AtMostOneBumper(d.position);
  }

  /** A drain costs exactly one ball, and the game is over after a tick
      exactly when it was before or a drain took the last ball. */
  lemma TickBalls(sqrt: real -> real, left: bool, right: bool, t: Table)
    requires IsSqrt(sqrt)
    ensures var r := Tick(sqrt, left, right, t);
            r.balls == (if Drains(t) then t.balls - 1 else t.balls)
            && (r.over <==> t.over || (Drains(t) && t.balls - 1 <= 0))
  {
    var d := Drained(Walled(Moved(t)));
    BumpedCounts(sqrt, d, Bumpers);
  }

  /** A drain with balls to spare ends the tick with a fresh ball at the
      start: no bumper is in reach there and no flipper reaches it. */
  lemma TickResetsBall(sqrt: real -> real, left: bool, right: bool, t: Table)
    requires IsSqrt(sqrt)
    requires Drains(t) && t.balls - 1 > 0
    ensures var r := Tick(sqrt, left, right, t);
            r.position == BallStart && r.velocity == LaunchVelocity
  {
    var d := Drained(Walled(Moved(t)));
    assert d.position == BallStart && d.velocity == LaunchVelocity;
    BumpedCounts(sqrt, d, Bumpers);
    StartOutOfReach();
  }

  /** The ball stays in the plane y = 2 with no y velocity. */
  lemma TickKeepsPlane(sqrt: real -> real, left: bool, right: bool, t: Table)
    requires IsSqrt(sqrt)
    requires t.position.y == 2.0 && t.velocity.y == 0.0
    ensures var r := Tick(sqrt, left, right, t);
            r.position.y == 2.0 && r.velocity.y == 0.0
  {
    var d := Drained(Walled(Moved(t)));
    BumpedCounts(sqrt, d, Bumpers);
  }

  /** Score, balls and plane as the table keeps them from its start. */
  ghost predicate Playing(t: Table)
  {
    0 <= t.score && t.score % BumperPoints == 0 && t.position.y == 2.0 && t.velocity.y == 0.0
  }

  lemma StartPlaying()
    ensures Playing(Start)
  {}

  /** Every tick keeps the table's invariant, and never takes back a game
      over. */
  lemma TickKeepsPlaying(sqrt: real -> real, left: bool, right: bool, t: Table)
    requires IsSqrt(sqrt)
    requires Playing(t)
    ensures Playing(Tick(sqrt, left, right, t))
    ensures t.over ==> Tick(sqrt, left, right, t).over
  {
    TickScore(sqrt, left, right, t);
    TickKeepsPlane(sqrt, left, right, t);
    TickBalls(sqrt, left, right, t);
  }
}
