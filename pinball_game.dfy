/** The pinball page's mutable state (game.js) as a class: the score, the
    balls left and the ball's position and velocity are fields that
    `UpdateBall` changes in place, as the source's `updateBall` does; the
    bumpers are the fixed list `Bumpers`. Game over, where the source shows
    an alert and reloads the page, sets the flag `over`. */
module PinballGame {
  import opened Geometry
  import opened PinballRules

  class Pinball {
    var score: int
    var balls: int
    var position: Vec3
    var velocity: Vec3
    var over: bool

    /** The fields as one value. */
    function State(): Table
      reads this
    {
      Table(score, balls, position, velocity, over)
    }

    /** Score never negative and a multiple of the bumper points; the ball
        in the plane y = 2 without y velocity. */
    ghost predicate Valid()
      reads this
    {
      Playing(State())
    }

    /** The page as loaded: score 0, three balls, the ball at its start with
        the launch velocity. */
    constructor ()
      ensures Valid()
      ensures State() == Start
    {
      score := StartScore;
      balls := StartBalls;
      position := BallStart;
      velocity := LaunchVelocity;
      over := false;
    }

    /** The bumper pass: every bumper in reach of the ball reverses the
        ball's z velocity and adds its points. */
    method HitBumpers(sqrt: real -> real)
      requires IsSqrt(sqrt)
      modifies this`velocity, this`score
      ensures State() == Bumped(sqrt, old(State()), Bumpers)
    {
      var i := 0;
      while i < |Bumpers|
        invariant 0 <= i <= |Bumpers|
        invariant Bumped(sqrt, State(), Bumpers[i..]) == Bumped(sqrt, old(State()), Bumpers)
        invariant position == old(position) && balls == old(balls) && over == old(over)
      {
        ghost var before := State();
        var dist := DistanceTo(sqrt, position, Bumpers[i]);
        if dist < BumperReach {
          velocity := velocity.(z := velocity.z * -1.0);
          score := score + BumperPoints;
        }
        assert State() == Hit(sqrt, before, Bumpers[i]);
        assert Bumpers[i..][1..] == Bumpers[i + 1..];
        i := i + 1;
      }
    }

    /** The first part of `updateBall`: move the ball, bounce it off the
        walls, and take a ball on a drain. */
    method MoveBall()
      modifies this
      ensures State() == Drained(Walled(Moved(old(State()))))
    {
      position := Add(position, velocity);

      if Abs(position.x) > SideWall { velocity := velocity.(x := velocity.x * -1.0); }
      if position.z < TopWall { velocity := velocity.(z := velocity.z * -1.0); }
      if position.z > DrainLine {
        balls := balls - 1;
        if balls <= 0 {
          over := true;
        } else {
          position := BallStart;
          velocity := LaunchVelocity;
        }
      }
    }

    /** The last part of `updateBall`: a pressed flipper near the ball
        overwrites its velocity. */
    method Flip(leftPressed: bool, rightPressed: bool)
      modifies this`velocity
      ensures State() == Flipped(leftPressed, rightPressed, old(State()))
    {
      if leftPressed && position.z > FlipperLine && position.x < -FlipperReach {
        velocity := velocity.(x := FlipKick, z := FlipLift);
      }
      if rightPressed && position.z > FlipperLine && position.x > FlipperReach {
        velocity := velocity.(x := -FlipKick, z := FlipLift);
      }
    }

    /** One call of `updateBall` with the flipper buttons as given: move,
        bounce off the walls, drain, bumpers, flippers. */
    method UpdateBall(sqrt: real -> real, leftPressed: bool, rightPressed: bool)
      requires IsSqrt(sqrt)
      requires Valid()
      modifies this
      ensures Valid()
      ensures State() == Tick(sqrt, leftPressed, rightPressed, old(State()))
    {
      ghost var t := State();
      MoveBall();
      HitBumpers(sqrt);
      Flip(leftPressed, rightPressed);
      TickKeepsPlaying(sqrt, leftPressed, rightPressed, t);
    }
  }
}
