/** The arena shooter's mutable state (script.js) as a class: the player,
    the safe zone's radius and the bullet and enemy arrays are fields that
    `Update` changes phase by phase, as the source's `update` does. Each
    phase is proved to leave the fields as the corresponding function of
    module ArenaRules says, and `Update` as a whole to perform `Tick`. */
module ArenaGame {
  import opened Geometry
  import opened ArenaRules

  class Arena {
    const width: real
    const height: real
    var playerX: real
    var playerY: real
    var health: real
    var radius: real
    var bullets: seq<Bullet>
    var enemies: seq<Enemy>

    /** Health stays between 0 and full. */
    ghost predicate Valid()
      reads this
    {
      0.0 <= health <= FullHealth
    }

    /** The fields as one value. */
    function State(): World
      reads this
    {
      World(playerX, playerY, health, radius, bullets, enemies)
    }

    /** A fresh game on a `w` by `h` canvas: the player and the zone at the
        centre, the zone as wide as the shorter side, full health, no
        bullets, and one enemy per spawn point (drawn at random by the
        source, so given here). */
    constructor (w: real, h: real, spawn: seq<(real, real)>)
      requires |spawn| == EnemyCount
      ensures Valid()
      ensures width == w && height == h
      ensures playerX == w / 2.0 && playerY == h / 2.0 && health == FullHealth
      ensures radius == (if w < h then w else h) / 2.0
      ensures bullets == []
      ensures |enemies| == EnemyCount
      ensures forall i :: 0 <= i < |enemies| ==>
                enemies[i] == Enemy(spawn[i].0, spawn[i].1, EnemySize, EnemySpeed)
    {
      width := w;
      height := h;
      playerX := w / 2.0;
      playerY := h / 2.0;
      health := FullHealth;
      radius := (if w < h then w else h) / 2.0;
      bullets := [];
      var es: seq<Enemy> := [];
      var i := 0;
      while i < EnemyCount
        invariant 0 <= i <= EnemyCount
        invariant |es| == i
        invariant forall k :: 0 <= k < i ==> es[k] == Enemy(spawn[k].0, spawn[k].1, EnemySize, EnemySpeed)
      {
        es := es + [Enemy(spawn[i].0, spawn[i].1, EnemySize, EnemySpeed)];
        i := i + 1;
      }
      enemies := es;
    }

    /** Movement: each held direction moves the player by its speed. */
    method MovePlayer(keys: Keys)
      modifies this`playerX, this`playerY
      ensures playerX == MoveAxis(old(playerX), LeftHeld(keys), RightHeld(keys), PlayerSpeed)
      ensures playerY == MoveAxis(old(playerY), UpHeld(keys), DownHeld(keys), PlayerSpeed)
      ensures State() == Moved(keys, old(State()))
    {
      if UpHeld(keys) { playerY := playerY - PlayerSpeed; }
      if DownHeld(keys) { playerY := playerY + PlayerSpeed; }
      if LeftHeld(keys) { playerX := playerX - PlayerSpeed; }
      if RightHeld(keys) { playerX := playerX + PlayerSpeed; }
    }

    /** Boundaries: the player's corner is kept inside the canvas, less the
        player's size on the far sides. */
    method ClampPlayer()
      modifies this`playerX, this`playerY
      ensures playerX == ClampAxis(old(playerX), width - PlayerSize)
      ensures playerY == ClampAxis(old(playerY), height - PlayerSize)
      ensures State() == Clamped(width, height, old(State()))
    {
      if playerX < 0.0 { playerX := 0.0; }
      if playerY < 0.0 { playerY := 0.0; }
      if playerX > width - PlayerSize { playerX := width - PlayerSize; }
      if playerY > height - PlayerSize { playerY := height - PlayerSize; }
    }

    /** Safe zone: shrink the radius, then damage a player whose corner is
        farther from the centre than the radius. */
    method ShrinkZone(sqrt: real -> real)
      requires IsSqrt(sqrt)
      modifies this`radius, this`health
      ensures radius == ShrinkRadius(old(radius))
      ensures health == ZoneHealth(old(health),
                          OutsideZone(playerX - width / 2.0, playerY - height / 2.0, radius))
      ensures State() == Zoned(width, height, old(State()))
    {
      radius := Max(MinRadius, radius - ShrinkRate);
      var dx := playerX - width / 2.0;
      var dy := playerY - height / 2.0;
      OutsideZoneIffDistance(sqrt, dx, dy, radius);
      var distance := Distance(sqrt, dx, dy);
      if distance > radius {
        health := health - ZoneDamage;
        if health < 0.0 { health := 0.0; }
      }
    }

    /** Bullets: the array is walked as `forEach` walks it (indices below
        the length it had on entry, skipping those past its current end);
        each bullet is advanced and spliced out if it left the canvas. */
    method MoveBullets()
      modifies this`bullets
      ensures bullets == Swept(old(bullets), width, height)
      ensures State() == BulletsSwept(width, height, old(State()))
    {
      ghost var done: seq<Bullet> := [];
      ghost var rest := bullets;
      var n := |bullets|;
      var i := 0;
      while i < n
        invariant |done| + |rest| <= |old(bullets)|
        invariant bullets == done + rest
        invariant Swept(old(bullets), width, height) == done + Swept(rest, width, height)
        invariant |done| <= i && (|done| < i ==> rest == [])
      {
        if i < |bullets| {
          assert i == |done| && rest != [] && bullets[i] == rest[0];
          ReplaceAfter(done, rest, Advance(rest[0]));
          RemoveAfter(done, [Advance(rest[0])] + rest[1..]);
          assert ([Advance(rest[0])] + rest[1..])[1..] == rest[1..];
          AdvanceOne(i);
          done, rest := SweptStep(rest, width, height, done);
        }
        i := i + 1;
      }
    }

    /** The body of the bullet pass for the bullet at slot `i`: advance it,
        and splice it out if it left the canvas. */
    method AdvanceOne(i: nat)
      requires i < |bullets|
      modifies this`bullets
      ensures var moved := old(bullets)[i := Advance(old(bullets)[i])];
              bullets == if OffScreen(Advance(old(bullets)[i]), width, height)
                         then moved[..i] + moved[i + 1..] else moved
    {
      var b := bullets[i];
      b := b.(x := b.x + b.dx, y := b.y + b.dy);
      bullets := bullets[i := b];
      if b.x < 0.0 || b.y < 0.0 || b.x > width || b.y > height {
        bullets := bullets[..i] + bullets[i + 1..];
      }
    }

    /** The inner pass of bullet collision: bullet `b`, which sat at slot
        `bi`, is tested against each enemy as `forEach` walks the enemy
        array; on a hit the enemy is spliced out and the bullet array is
        spliced at `bi`. */
    method StrikeEnemies(b: Bullet, bi: nat)
      modifies this`enemies, this`bullets
      ensures enemies == Strike(b, old(enemies)).0
      ensures bullets == SpliceTimes(old(bullets), bi, Strike(b, old(enemies)).1)
    {
      ghost var done: seq<Enemy> := [];
      ghost var rest := enemies;
      ghost var hits: nat := 0;
      var n := |enemies|;
      var ei := 0;
      while ei < n
        invariant |done| + |rest| <= |old(enemies)|
        invariant enemies == done + rest
        invariant Strike(b, old(enemies)).0 == done + Strike(b, rest).0
        invariant Strike(b, old(enemies)).1 == hits + Strike(b, rest).1
        invariant bullets == SpliceTimes(old(bullets), bi, hits)
        invariant |done| <= ei && (|done| < ei ==> rest == [])
      {
        if ei < |enemies| {
          assert ei == |done| && rest != [] && enemies[ei] == rest[0];
          RemoveAfter(done, rest);
          SpliceTimesSucc(old(bullets), bi, hits);
          ghost var hit := Overlaps(b, enemies[ei]);
          HitTest(b, bi, ei);
          if hit {
            hits := hits + 1;
          }
          done, rest := StrikeStep(b, rest, done);
        }
        ei := ei + 1;
      }
      assert rest == [];
      assert Strike(b, rest) == ([], 0);
    }

    /** The body of the inner pass for the enemy at slot `ei`: on overlap,
        splice that enemy out and splice the bullet array at `bi`. */
    method HitTest(b: Bullet, bi: nat, ei: nat)
      requires ei < |enemies|
      modifies this`enemies, this`bullets
      ensures Overlaps(b, old(enemies)[ei]) ==>
                enemies == old(enemies)[..ei] + old(enemies)[ei + 1..] && bullets == Splice(old(bullets), bi)
      ensures !Overlaps(b, old(enemies)[ei]) ==> enemies == old(enemies) && bullets == old(bullets)
    {
      var en := enemies[ei];
      if b.x < en.x + en.size && b.x + b.size > en.x && b.y < en.y + en.size && b.y + b.size > en.y {
        enemies := enemies[..ei] + enemies[ei + 1..];
        bullets := Splice(bullets, bi);
      }
    }

    /** Bullet collision: the outer pass walks the bullet array as
        `forEach` does, running the inner pass for each bullet it reaches. */
    method CollideBullets()
      modifies this`enemies, this`bullets
      ensures bullets == Collide(old(bullets), old(enemies)).0
      ensures enemies == Collide(old(bullets), old(enemies)).1
      ensures State() == Collided(old(State()))
    {
      ghost var done: seq<Bullet> := [];
      ghost var rest := bullets;
      var n := |bullets|;
      var bi := 0;
      while bi < n
        invariant |done| + |rest| <= |old(bullets)|
        invariant bullets == done + rest
        invariant Collide(old(bullets), old(enemies)).0 == done + Collide(rest, enemies).0
        invariant Collide(old(bullets), old(enemies)).1 == Collide(rest, enemies).1
        invariant |done| <= bi && (|done| < bi ==> rest == [])
      {
        if bi < |bullets| {
          assert bi == |done| && rest != [] && bullets[bi] == rest[0];
          var b := bullets[bi];
          ghost var es := enemies;
          StrikeEnemies(b, bi);
          done, rest := CollideStep(rest, es, done);
        }
        bi := bi + 1;
      }
    }

    /** Enemy AI: each enemy in turn steps towards the player, then costs
        contact damage if its box overlaps the player's. */
    method ChaseEnemies(sqrt: real -> real)
      requires IsSqrt(sqrt)
      modifies this`enemies, this`health
      ensures enemies == ChasedAll(sqrt, old(enemies), playerX, playerY)
      ensures health == ContactHealth(enemies, playerX, playerY, old(health))
      ensures State() == Chased(sqrt, old(State()))
    {
      ghost var target := ChasedAll(sqrt, enemies, playerX, playerY);
      var k := 0;
      while k < |enemies|
        invariant |enemies| == |target| && 0 <= k <= |target|
        invariant forall i :: 0 <= i < k ==> enemies[i] == target[i]
        invariant forall i :: k <= i < |enemies| ==> enemies[i] == old(enemies)[i]
        invariant health == ContactHealth(target[..k], playerX, playerY, old(health))
      {
        ChaseOne(sqrt, k);
        assert enemies[k] == target[k];
        assert target[..k + 1][..k] == target[..k] && target[..k + 1][k] == target[k];
        assert health == ContactHealth(target[..k + 1], playerX, playerY, old(health));
        k := k + 1;
      }
      assert enemies == target;
      assert target[..k] == target;
    }

    /** The body of the enemy pass for the enemy at slot `k`. */
    method ChaseOne(sqrt: real -> real, k: nat)
      requires IsSqrt(sqrt)
      requires k < |enemies|
      modifies this`enemies, this`health
      ensures enemies == old(enemies)[k := Chase(sqrt, old(enemies)[k], playerX, playerY)]
      ensures health == if Touches(playerX, playerY, enemies[k])
                        then Damaged(old(health), ContactDamage) else old(health)
    {
      var en := enemies[k];
      var dx := playerX - en.x;
      var dy := playerY - en.y;
      var dist := Distance(sqrt, dx, dy);
      if dist > 0.0 {
        en := en.(x := en.x + en.speed * (dx / dist), y := en.y + en.speed * (dy / dist));
      }
      assert en == Chase(sqrt, enemies[k], playerX, playerY);
      enemies := enemies[k := en];
      if playerX < en.x + en.size && playerX + PlayerSize > en.x
         && playerY < en.y + en.size && playerY + PlayerSize > en.y {
        health := health - ContactDamage;
        if health < 0.0 { health := 0.0; }
      }
    }

    /** One call of the update: every phase in the source's order. */
    method Update(keys: Keys, sqrt: real -> real)
      requires IsSqrt(sqrt)
      requires Valid()
      modifies this
      ensures Valid()
      ensures State() == Tick(sqrt, keys, width, height, old(State()))
    {
      ghost var w := State();
      MovePlayer(keys);
      ClampPlayer();
      ShrinkZone(sqrt);
      MoveBullets();
      CollideBullets();
      ChaseEnemies(sqrt);
      TickIsPhases(sqrt, keys, width, height, w);
    }

    /** One frame of the game loop: update, then decide whether the game
        is lost, won, or goes on. */
    method Frame(keys: Keys, sqrt: real -> real) returns (v: Verdict)
      requires IsSqrt(sqrt)
      requires Valid()
      modifies this
      ensures Valid()
      ensures State() == Tick(sqrt, keys, width, height, old(State()))
      ensures v == Decide(health, |enemies|)
    {
      Update(keys, sqrt);
      if health <= 0.0 {
        v := Defeat;
      } else if |enemies| == 0 {
        v := Victory;
      } else {
        v := Continue;
      }
    }

    /** A click or tap at (tx, ty) fires a bullet from the player's corner
        towards that point. */
    method Shoot(sqrt: real -> real, tx: real, ty: real)
      requires IsSqrt(sqrt)
      requires tx != playerX || ty != playerY
      modifies this`bullets
      ensures bullets == old(bullets) + [Shot(sqrt, playerX, playerY, tx, ty)]
    {
      var dx := tx - playerX;
      var dy := ty - playerY;
      DistancePositive(sqrt, dx, dy);
      var dist := Distance(sqrt, dx, dy);
      assert dx * dx + dy * dy == (tx - playerX) * (tx - playerX) + (ty - playerY) * (ty - playerY);
      var speed := BulletSpeed;
      bullets := bullets + [Bullet(playerX, playerY, BulletSize, (dx / dist) * speed, (dy / dist) * speed)];
    }
  }
}
