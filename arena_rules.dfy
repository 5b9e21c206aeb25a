/** The rules of one tick of the arena shooter (script.js), as functions of
    values. The class in module ArenaGame runs the same tick step by step on
    its fields; each of its methods is proved equal to a function here, and
    the lemmas here state what the game promises about those functions. */
module ArenaRules {
  import opened Geometry

  const PlayerSize: real := 25.0
  const PlayerSpeed: real := 5.0
  const FullHealth: real := 100.0
  const EnemySize: real := 25.0
  const EnemySpeed: real := 1.3
  const EnemyCount: nat := 5
  const BulletSize: real := 6.0
  const BulletSpeed: real := 7.0
  const MinRadius: real := 50.0
  const ShrinkRate: real := 0.05
  const ZoneDamage: real := 0.2
  const ContactDamage: real := 0.5

  /** A bullet: top-left corner, side of its square, and its fixed velocity. */
  datatype Bullet = Bullet(x: real, y: real, size: real, dx: real, dy: real)

  /** An enemy: top-left corner, side of its square, and its chase speed. */
  datatype Enemy = Enemy(x: real, y: real, size: real, speed: real)

  /** What the game loop does after a tick. */
  datatype Verdict = Defeat | Victory | Continue

  /** The key-state map: a key that was never pressed is absent. */
  type Keys = map<string, bool>

  predicate Held(keys: Keys, key: string) { key in keys && keys[key] }

  predicate UpHeld(keys: Keys) { Held(keys, "ArrowUp") || Held(keys, "w") || Held(keys, "up") }
  predicate DownHeld(keys: Keys) { Held(keys, "ArrowDown") || Held(keys, "s") || Held(keys, "down") }
  predicate LeftHeld(keys: Keys) { Held(keys, "ArrowLeft") || Held(keys, "a") || Held(keys, "left") }
  predicate RightHeld(keys: Keys) { Held(keys, "ArrowRight") || Held(keys, "d") || Held(keys, "right") }

  // ---------------------------------------------------------------- movement

  /** One movement axis: the key towards smaller coordinates subtracts
      `speed`, then the key towards larger coordinates adds it. */
  function MoveAxis(v: real, back: bool, forward: bool, speed: real): (r: real)
    requires 0.0 <= speed
    ensures Abs(r - v) <= speed
    ensures back == forward ==> r == v
    ensures back != forward ==> Abs(r - v) == speed && (r < v <==> back && 0.0 < speed)
  {
    var afterBack := if back then v - speed else v;
    if forward then afterBack + speed else afterBack
  }

  /** Keeps one coordinate of the player on the canvas: first raised to 0,
      then lowered to `limit` (the canvas extent minus the player's size). */
  function ClampAxis(v: real, limit: real): (r: real)
    ensures r <= limit
    ensures 0.0 <= limit ==> 0.0 <= r
    ensures 0.0 <= v <= limit ==> r == v
    ensures r == v || r == 0.0 || r == limit
  {
    var raised := if v < 0.0 then 0.0 else v;
    if raised > limit then limit else raised
  }

  /** Clamping twice is clamping once. */
  lemma ClampAxisIdempotent(v: real, limit: real)
    requires 0.0 <= limit
    ensures ClampAxis(ClampAxis(v, limit), limit) == ClampAxis(v, limit)
  {}

  // ---------------------------------------------------------------- safe zone

  /** The zone's radius after one tick: reduced by the shrink rate, but
      never below the minimum radius. */
  function ShrinkRadius(r: real): (r': real)
    ensures MinRadius <= r'
    ensures r - ShrinkRate >= MinRadius ==> r' == r - ShrinkRate
    ensures r - ShrinkRate < MinRadius ==> r' == MinRadius
    ensures MinRadius <= r ==> r' <= r
  {
    Max(MinRadius, r - ShrinkRate)
  }

  /** The radius after `n` ticks. */
  function RadiusAfter(r: real, n: nat): real
  {
    if n == 0 then r else ShrinkRadius(RadiusAfter(r, n - 1))
  }

  /** From a radius at or above the minimum, `n` ticks leave
      max(minimum, r - n * rate): the radius only falls, and stops at the
      minimum. */
  lemma {:induction false} RadiusAfterTicks(r: real, n: nat)
    requires MinRadius <= r
    ensures RadiusAfter(r, n) == Max(MinRadius, r - (n as real) * ShrinkRate)
  {
    if n > 0 {
      RadiusAfterTicks(r, n - 1);
    }
  }

  /** A zone of radius 300 has shrunk to the minimum after 5000 ticks. */
  lemma RadiusAfter5000Ticks()
    ensures RadiusAfter(300.0, 5000) == MinRadius
  {
    RadiusAfterTicks(300.0, 5000);
  }

  /** A player whose corner lies at offset (dx, dy) from the zone's centre
      is strictly outside the zone circle (compared on squared distances;
      the radius is non-negative where this is used). */
  predicate OutsideZone(dx: real, dy: real, radius: real)
  {
    dx * dx + dy * dy > radius * radius
  }

  /** The source's test `sqrt(dx² + dy²) > radius` is `OutsideZone` for a
      non-negative radius; a player exactly on the boundary is inside. */
  lemma OutsideZoneIffDistance(sqrt: real -> real, dx: real, dy: real, radius: real)
    requires IsSqrt(sqrt)
    requires 0.0 <= radius
    ensures 0.0 <= dx * dx + dy * dy
    ensures Distance(sqrt, dx, dy) > radius <==> OutsideZone(dx, dy, radius)
  {
    var v := dx * dx + dy * dy;
    SumOfSquaresNonNegative(dx, dy, v);
    RootExceedsIff(sqrt, v, radius);
  }

  // ---------------------------------------------------------------- health

  /** Health after losing `amount`, raised back to 0 if it went negative. */
  function Damaged(health: real, amount: real): (r: real)
    ensures 0.0 <= r
    ensures 0.0 <= amount && 0.0 <= health ==> r <= health
    ensures amount <= health ==> r == health - amount
    ensures health < amount ==> r == 0.0
  {
    var h := health - amount;
    if h < 0.0 then 0.0 else h
  }

  /** Health after the safe-zone check. */
  function ZoneHealth(health: real, outside: bool): (r: real)
    ensures 0.0 <= health ==> 0.0 <= r <= health
    ensures !outside ==> r == health
    ensures outside && 0.0 <= health ==> r == Max(0.0, health - ZoneDamage)
  {
    if outside then Damaged(health, ZoneDamage) else health
  }

  // ---------------------------------------------------------------- bullets

  function Advance(b: Bullet): Bullet
  {
    b.(x := b.x + b.dx, y := b.y + b.dy)
  }

  /** A bullet strictly outside [0, width] x [0, height]. */
  predicate OffScreen(b: Bullet, width: real, height: real)
  {
    b.x < 0.0 || b.y < 0.0 || b.x > width || b.y > height
  }

  /** The bullet pass, as it acts on the array: the head is advanced; if it
      left the screen it is spliced out, the next bullet shifts into its
      slot and is passed over (neither advanced nor checked this tick). */
  function Swept(bs: seq<Bullet>, width: real, height: real): (r: seq<Bullet>)
    ensures |r| <= |bs|
    decreases |bs|
  {
    if bs == [] then []
    else if !OffScreen(Advance(bs[0]), width, height) then
      [Advance(bs[0])] + Swept(bs[1..], width, height)
    else if |bs| == 1 then []
    else [bs[1]] + Swept(bs[2..], width, height)
  }

  /** One step of the bullet pass on the live array `done + bs`, whose slot
      `|done|` holds `bs[0]`: advancing that bullet, and splicing it out if
      it left, gives `done' + rest'`, where `done'` is what the pass has now
      passed over; what is still to come from `Swept` is unchanged. */
  lemma {:induction false} SweptStep(bs: seq<Bullet>, width: real, height: real, done: seq<Bullet>)
    returns (done': seq<Bullet>, rest': seq<Bullet>)
    requires bs != []
    ensures |done'| + |rest'| <= |done| + |bs|
    ensures |done'| == |done| + 1 || (|done'| == |done| && rest' == [])
    ensures OffScreen(Advance(bs[0]), width, height) ==> done + bs[1..] == done' + rest'
    ensures !OffScreen(Advance(bs[0]), width, height) ==>
              done + ([Advance(bs[0])] + bs[1..]) == done' + rest'
    ensures done + Swept(bs, width, height) == done' + Swept(rest', width, height)
  {
    if !OffScreen(Advance(bs[0]), width, height) {
      done', rest' := done + [Advance(bs[0])], bs[1..];
      AppendAssoc(done, [Advance(bs[0])], bs[1..]);
      AppendAssoc(done, [Advance(bs[0])], Swept(bs[1..], width, height));
    } else if 1 < |bs| {
      done', rest' := done + [bs[1]], bs[2..];
      assert bs[1..] == [bs[1]] + bs[2..];
      AppendAssoc(done, [bs[1]], bs[2..]);
      AppendAssoc(done, [bs[1]], Swept(bs[2..], width, height));
    } else {
      done', rest' := done, [];
      assert bs[1..] == [];
    }
  }

  lemma AppendAssoc<T>(a: seq<T>, b: seq<T>, c: seq<T>)
    ensures a + (b + c) == (a + b) + c
  {}

  /** Every bullet advanced, none removed. */
  function AllAdvanced(bs: seq<Bullet>): seq<Bullet>
  {
    seq(|bs|, i requires 0 <= i < |bs| => Advance(bs[i]))
  }

  /** How many bullets are off-screen once advanced. */
  function CountLeaving(bs: seq<Bullet>, width: real, height: real): nat
  {
    if bs == [] then 0
    else (if OffScreen(Advance(bs[0]), width, height) then 1 else 0) + CountLeaving(bs[1..], width, height)
  }

  /** Where an entry of the swept array comes from: bullet `i`, advanced and
      still on screen; or bullet `i` unadvanced, because bullet `i - 1` left
      the screen and was spliced out from under it. */
  predicate SweptFrom(bs: seq<Bullet>, i: int, r: Bullet, width: real, height: real)
    requires 0 <= i < |bs|
  {
    (r == Advance(bs[i]) && !OffScreen(r, width, height))
    || (0 < i && r == bs[i] && OffScreen(Advance(bs[i - 1]), width, height))
  }

  /** Each surviving bullet is an advanced on-screen bullet or a skipped one. */
  lemma {:induction false} SweptEntries(bs: seq<Bullet>, width: real, height: real, k: int)
    requires 0 <= k < |Swept(bs, width, height)|
    ensures exists i :: 0 <= i < |bs| && SweptFrom(bs, i, Swept(bs, width, height)[k], width, height)
  {
    var r := Swept(bs, width, height);
    if !OffScreen(Advance(bs[0]), width, height) {
      if k == 0 {
        assert SweptFrom(bs, 0, r[k], width, height);
      } else {
        SweptEntries(bs[1..], width, height, k - 1);
        var i :| 0 <= i < |bs[1..]| && SweptFrom(bs[1..], i, r[k], width, height);
        assert SweptFrom(bs, i + 1, r[k], width, height);
      }
    } else {
      if k == 0 {
        assert SweptFrom(bs, 1, r[k], width, height);
      } else {
        SweptEntries(bs[2..], width, height, k - 1);
        var i :| 0 <= i < |bs[2..]| && SweptFrom(bs[2..], i, r[k], width, height);
        assert bs[2..][i] == bs[i + 2] && (0 < i ==> bs[2..][i - 1] == bs[i + 1]);
        assert SweptFrom(bs, i + 2, r[k], width, height);
      }
    }
  }

  /** When no bullet leaves the screen, every bullet is advanced and kept. */
  lemma {:induction false} SweptAllOnScreen(bs: seq<Bullet>, width: real, height: real)
    requires forall i :: 0 <= i < |bs| ==> !OffScreen(Advance(bs[i]), width, height)
    ensures Swept(bs, width, height) == AllAdvanced(bs)
  {
    if bs != [] {
      SweptAllOnScreen(bs[1..], width, height);
      assert AllAdvanced(bs) == [Advance(bs[0])] + AllAdvanced(bs[1..]);
    }
  }

  /** Each bullet removed is paid for by a bullet that left the screen. */
  lemma {:induction false} SweptRemovesOnlyLeaving(bs: seq<Bullet>, width: real, height: real)
    ensures |bs| - |Swept(bs, width, height)| <= CountLeaving(bs, width, height)
  {
    if bs != [] {
      SweptRemovesOnlyLeaving(bs[1..], width, height);
      if OffScreen(Advance(bs[0]), width, height) && |bs| > 1 {
        SweptRemovesOnlyLeaving(bs[2..], width, height);
        assert bs[1..][1..] == bs[2..];
      }
    }
  }

  /** Every index of `t` moved up by `n`. */
  function Shifted(t: seq<int>, n: int): seq<int>
  {
    seq(|t|, k requires 0 <= k < |t| => t[k] + n)
  }

  /** Entry `k` of `r` stems from bullet `idx[k]` of `bs`: advanced, or
      skipped behind a leaver. */
  ghost predicate TracedTo(bs: seq<Bullet>, r: seq<Bullet>, idx: seq<int>, width: real, height: real)
  {
    |idx| == |r|
    && forall k :: 0 <= k < |idx| ==> 0 <= idx[k] < |bs| && SweptFrom(bs, idx[k], r[k], width, height)
  }

  ghost predicate Increasing(idx: seq<int>)
  {
    forall k, l :: 0 <= k < l < |idx| ==> idx[k] < idx[l]
  }

  /** Every bullet of `bs` with no entry in `idx` left the screen. */
  ghost predicate OnlyLeaversDropped(bs: seq<Bullet>, idx: seq<int>, width: real, height: real)
  {
    forall i :: 0 <= i < |bs| && i !in idx ==> OffScreen(Advance(bs[i]), width, height)
  }

  /** The swept array traced back to the input, in order: the pass loses
      no bullet that is on screen once advanced, and keeps the survivors in
      their order. */
  lemma {:induction false} SweptOrigins(bs: seq<Bullet>, width: real, height: real)
    returns (idx: seq<int>)
    ensures TracedTo(bs, Swept(bs, width, height), idx, width, height)
    ensures Increasing(idx)
    ensures OnlyLeaversDropped(bs, idx, width, height)
    decreases |bs|
  {
    if bs == [] {
      idx := [];
    } else if !OffScreen(Advance(bs[0]), width, height) {
      var t := SweptOrigins(bs[1..], width, height);
      idx := [0] + Shifted(t, 1);
      TracedShifted(bs, 1, 0, Advance(bs[0]), Swept(bs[1..], width, height), t, width, height);
      IncreasingShifted(t, 1, 0, |bs[1..]|);
      DroppedShifted(bs, 1, 0, t, width, height);
    } else if |bs| == 1 {
      idx := [];
    } else {
      var t := SweptOrigins(bs[2..], width, height);
      idx := [1] + Shifted(t, 2);
      TracedShifted(bs, 2, 1, bs[1], Swept(bs[2..], width, height), t, width, height);
      IncreasingShifted(t, 2, 1, |bs[2..]|);
      DroppedShifted(bs, 2, 1, t, width, height);
    }
  }

  /** A trace of the bullets from `n` on, moved up by `n`, with entry `e`
      from bullet `h` in front. */
  lemma {:induction false} TracedShifted(bs: seq<Bullet>, n: nat, h: nat, e: Bullet, rt: seq<Bullet>,
                                         t: seq<int>, width: real, height: real)
    requires n <= |bs| && h < |bs| && SweptFrom(bs, h, e, width, height)
    requires TracedTo(bs[n..], rt, t, width, height)
    ensures TracedTo(bs, [e] + rt, [h] + Shifted(t, n), width, height)
  {
    var idx, r := [h] + Shifted(t, n), [e] + rt;
    forall k | 0 < k < |idx|
      ensures 0 <= idx[k] < |bs| && SweptFrom(bs, idx[k], r[k], width, height)
    {
      var j := t[k - 1];
      assert idx[k] == j + n && r[k] == rt[k - 1];
      assert bs[n..][j] == bs[j + n] && (0 < j ==> bs[n..][j - 1] == bs[j + n - 1]);
    }
  }

  lemma {:induction false} IncreasingShifted(t: seq<int>, n: int, h: int, m: int)
    requires Increasing(t) && h < n
    requires forall k :: 0 <= k < |t| ==> 0 <= t[k] < m
    ensures Increasing([h] + Shifted(t, n))
  {
    var idx := [h] + Shifted(t, n);
    forall k, l | 0 <= k < l < |idx|
      ensures idx[k] < idx[l]
    {
      assert idx[l] == t[l - 1] + n;
      if 0 < k {
        assert idx[k] == t[k - 1] + n;
      }
    }
  }

  /** The bullets before `n` other than `h` left the screen, and only
      leavers were dropped from `n` on. */
  lemma {:induction false} DroppedShifted(bs: seq<Bullet>, n: nat, h: nat, t: seq<int>, width: real, height: real)
    requires h < n <= |bs|
    requires forall i :: 0 <= i < n && i != h ==> OffScreen(Advance(bs[i]), width, height)
    requires OnlyLeaversDropped(bs[n..], t, width, height)
    ensures OnlyLeaversDropped(bs, [h] + Shifted(t, n), width, height)
  {
    var idx := [h] + Shifted(t, n);
    assert idx[0] == h;
    forall i | n <= i < |bs|
      ensures i in idx || OffScreen(Advance(bs[i]), width, height)
    {
      if i - n in t {
        var k :| 0 <= k < |t| && t[k] == i - n;
        assert idx[k + 1] == i;
      } else {
        assert bs[n..][i - n] == bs[i];
      }
    }
  }

  /** A bullet still on screen once advanced survives the pass: advanced,
      or unadvanced where it was skipped behind a leaver. */
  lemma SweptKeepsOnScreen(bs: seq<Bullet>, width: real, height: real, i: int)
    requires 0 <= i < |bs| && !OffScreen(Advance(bs[i]), width, height)
    ensures Advance(bs[i]) in Swept(bs, width, height) || bs[i] in Swept(bs, width, height)
  {
    var idx := SweptOrigins(bs, width, height);
    assert i in idx;
    var k :| 0 <= k < |idx| && idx[k] == i;
    assert SweptFrom(bs, i, Swept(bs, width, height)[k], width, height);
  }

  /** The pass consumes `p` in whole steps: each bullet either stays, or
      leaves together with the bullet that shifts into its slot. */
  predicate WholeSteps(p: seq<Bullet>, width: real, height: real)
    decreases |p|
  {
    p == []
    || (!OffScreen(Advance(p[0]), width, height) && WholeSteps(p[1..], width, height))
    || (OffScreen(Advance(p[0]), width, height) && 2 <= |p| && WholeSteps(p[2..], width, height))
  }

  /** After a prefix consumed in whole steps, the pass goes on over the rest
      as if the rest were the whole array. */
  lemma {:induction false} SweptSplit(p: seq<Bullet>, q: seq<Bullet>, width: real, height: real)
    requires WholeSteps(p, width, height)
    ensures Swept(p + q, width, height) == Swept(p, width, height) + Swept(q, width, height)
    decreases |p|
  {
    if p == [] {
      assert p + q == q;
    } else if !OffScreen(Advance(p[0]), width, height) {
      assert (p + q)[0] == p[0] && (p + q)[1..] == p[1..] + q;
      SweptSplit(p[1..], q, width, height);
      AppendAssoc([Advance(p[0])], Swept(p[1..], width, height), Swept(q, width, height));
    } else {
      assert (p + q)[0] == p[0] && (p + q)[1] == p[1] && (p + q)[2..] == p[2..] + q;
      SweptSplit(p[2..], q, width, height);
      AppendAssoc([p[1]], Swept(p[2..], width, height), Swept(q, width, height));
    }
  }

  /** Splice-in-forEach at any position of the pass: when the bullet the
      pass has reached leaves, it is spliced out and the bullet behind it,
      shifted into its slot, is kept as it was, neither advanced nor
      checked, even if it too is about to leave. */
  lemma SkipAnywhere(p: seq<Bullet>, q: seq<Bullet>, width: real, height: real)
    requires WholeSteps(p, width, height)
    requires 2 <= |q| && OffScreen(Advance(q[0]), width, height)
    ensures Swept(p + q, width, height)
            == Swept(p, width, height) + ([q[1]] + Swept(q[2..], width, height))
  {
    SweptSplit(p, q, width, height);
  }

  /** Splice-in-forEach: when a bullet is removed, the bullet behind it is
      left where it was, unadvanced, even if it too is about to leave. */
  lemma ShiftedBulletSkipped(b0: Bullet, b1: Bullet, width: real, height: real)
    requires OffScreen(Advance(b0), width, height)
    ensures Swept([b0, b1], width, height) == [b1]
  {}

  // ---------------------------------------------------------------- collisions

  /** Axis-aligned box overlap of a bullet and an enemy; all four
      comparisons are strict, so boxes that only touch do not collide. */
  predicate Overlaps(b: Bullet, en: Enemy)
  {
    b.x < en.x + en.size && b.x + b.size > en.x && b.y < en.y + en.size && b.y + b.size > en.y
  }

  /** Boxes that share an edge do not collide. */
  lemma TouchingIsNoHit(b: Bullet, en: Enemy)
    requires b.x + b.size == en.x || en.x + en.size == b.x
             || b.y + b.size == en.y || en.y + en.size == b.y
    ensures !Overlaps(b, en)
  {}

  /** One bullet `b` tested against the enemy array in place: an enemy it
      overlaps is spliced out (a hit), and the enemy that shifts into its
      slot is passed over. Returns the remaining enemies and the hit count. */
  function Strike(b: Bullet, es: seq<Enemy>): (r: (seq<Enemy>, nat))
    ensures |r.0| + r.1 == |es|
    decreases |es|
  {
    if es == [] then ([], 0)
    else if !Overlaps(b, es[0]) then
      var t := Strike(b, es[1..]);
      ([es[0]] + t.0, t.1)
    else if |es| == 1 then ([], 1)
    else
      var t := Strike(b, es[2..]);
      ([es[1]] + t.0, t.1 + 1)
  }

  /** The inner pass only removes enemies. */
  lemma {:induction false} StrikeOnlyRemoves(b: Bullet, es: seq<Enemy>)
    ensures multiset(Strike(b, es).0) <= multiset(es)
    decreases |es|
  {
    if es != [] {
      if !Overlaps(b, es[0]) {
        StrikeOnlyRemoves(b, es[1..]);
        assert es == [es[0]] + es[1..];
      } else if |es| > 1 {
        StrikeOnlyRemoves(b, es[2..]);
        assert es == [es[0], es[1]] + es[2..];
      }
    }
  }

  /** The inner pass removes only enemies the bullet overlaps: an enemy it
      does not overlap is kept as often as it occurs. */
  lemma {:induction false} StrikeRemovesOnlyHit(b: Bullet, es: seq<Enemy>, e: Enemy)
    requires !Overlaps(b, e)
    ensures multiset(Strike(b, es).0)[e] == multiset(es)[e]
    decreases |es|
  {
    if es != [] {
      if !Overlaps(b, es[0]) {
        StrikeRemovesOnlyHit(b, es[1..], e);
        assert es == [es[0]] + es[1..];
      } else if |es| > 1 {
        StrikeRemovesOnlyHit(b, es[2..], e);
        assert es == [es[0], es[1]] + es[2..];
        assert es[0] != e;
      } else {
        assert es == [es[0]] && es[0] != e;
      }
    }
  }

  /** An enemy the bullet misses survives the inner pass. */
  lemma StrikeKeepsMisses(b: Bullet, es: seq<Enemy>, j: int)
    requires 0 <= j < |es| && !Overlaps(b, es[j])
    ensures es[j] in Strike(b, es).0
  {
    StrikeRemovesOnlyHit(b, es, es[j]);
    assert es[j] in multiset(es);
  }

  /** One step of the inner collision pass on the live enemy array
      `done + es`, whose slot `|done|` holds `es[0]`: splicing that enemy
      out on a hit gives `done' + rest'`; the hits still to come from
      `Strike` drop by this step's hit. */
  lemma {:induction false} StrikeStep(b: Bullet, es: seq<Enemy>, done: seq<Enemy>)
    returns (done': seq<Enemy>, rest': seq<Enemy>)
    requires es != []
    ensures |done'| + |rest'| <= |done| + |es|
    ensures |done'| == |done| + 1 || (|done'| == |done| && rest' == [])
    ensures Overlaps(b, es[0]) ==> done + es[1..] == done' + rest'
    ensures !Overlaps(b, es[0]) ==> done + es == done' + rest'
    ensures done + Strike(b, es).0 == done' + Strike(b, rest').0
    ensures Strike(b, es).1 == (if Overlaps(b, es[0]) then 1 else 0) + Strike(b, rest').1
  {
    if !Overlaps(b, es[0]) {
      done', rest' := done + [es[0]], es[1..];
      assert es == [es[0]] + es[1..];
      AppendAssoc(done, [es[0]], es[1..]);
      AppendAssoc(done, [es[0]], Strike(b, es[1..]).0);
    } else if 1 < |es| {
      done', rest' := done + [es[1]], es[2..];
      assert es[1..] == [es[1]] + es[2..];
      AppendAssoc(done, [es[1]], es[2..]);
      AppendAssoc(done, [es[1]], Strike(b, es[2..]).0);
    } else {
      done', rest' := done, [];
      assert es[1..] == [];
    }
  }

  /** A bullet scores no hit exactly when it overlaps no enemy. */
  lemma {:induction false} StrikeMissIff(b: Bullet, es: seq<Enemy>)
    ensures Strike(b, es).1 == 0 <==> forall j :: 0 <= j < |es| ==> !Overlaps(b, es[j])
  {
    if es != [] && !Overlaps(b, es[0]) {
      StrikeMissIff(b, es[1..]);
      assert forall j :: 1 <= j < |es| ==> es[j] == es[1..][j - 1];
    }
  }

  /** The collision pass, as it acts on the arrays. A bullet with `h` hits
      splices the bullet array at its own slot `h` times: itself, then the
      bullets that shift into that slot (none once the slot is past the end).
      The bullet that then sits in the slot is passed over. */
  function Collide(bs: seq<Bullet>, es: seq<Enemy>): (r: (seq<Bullet>, seq<Enemy>))
    ensures |r.0| <= |bs| && |r.1| <= |es|
    ensures |bs| - |r.0| <= |es| - |r.1|
    decreases |bs|
  {
    if bs == [] then ([], es)
    else
      var s := Strike(bs[0], es);
      if s.1 == 0 then
        var t := Collide(bs[1..], s.0);
        ([bs[0]] + t.0, t.1)
      else if s.1 >= |bs| then ([], s.0)
      else
        var t := Collide(bs[s.1 + 1..], s.0);
        ([bs[s.1]] + t.0, t.1)
  }

  /** One step of the outer collision pass on the live bullet array
      `done + bs`, whose slot `|done|` holds `bs[0]`: after the inner pass
      splices that slot once per hit, the array is `done' + rest'`, where
      `done'` is what the outer pass has now passed over, and what is still
      to come from `Collide` is unchanged. */
  lemma {:induction false} CollideStep(bs: seq<Bullet>, es: seq<Enemy>, done: seq<Bullet>)
    returns (done': seq<Bullet>, rest': seq<Bullet>)
    requires bs != []
    ensures |done'| + |rest'| <= |done| + |bs|
    ensures |done'| == |done| + 1 || (|done'| == |done| && rest' == [])
    ensures SpliceTimes(done + bs, |done|, Strike(bs[0], es).1) == done' + rest'
    ensures done + Collide(bs, es).0 == done' + Collide(rest', Strike(bs[0], es).0).0
    ensures Collide(bs, es).1 == Collide(rest', Strike(bs[0], es).0).1
  {
    var h := Strike(bs[0], es).1;
    if h == 0 {
      done', rest' := done + [bs[0]], bs[1..];
      CollideMissStep(bs, es, done);
    } else if h < |bs| {
      done', rest' := done + [bs[h]], bs[h + 1..];
      CollideHitStep(bs, es, done, h);
    } else {
      done', rest' := done, [];
      CollideAllStep(bs, es, done);
    }
  }

  lemma {:induction false} CollideMissStep(bs: seq<Bullet>, es: seq<Enemy>, done: seq<Bullet>)
    requires bs != [] && Strike(bs[0], es).1 == 0
    ensures SpliceTimes(done + bs, |done|, 0) == (done + [bs[0]]) + bs[1..]
    ensures done + Collide(bs, es).0 == (done + [bs[0]]) + Collide(bs[1..], Strike(bs[0], es).0).0
    ensures Collide(bs, es).1 == Collide(bs[1..], Strike(bs[0], es).0).1
  {
    var c := Collide(bs[1..], Strike(bs[0], es).0);
    assert Collide(bs, es).0 == [bs[0]] + c.0;
    assert bs == [bs[0]] + bs[1..];
    AppendAssoc(done, [bs[0]], bs[1..]);
    AppendAssoc(done, [bs[0]], c.0);
  }

  lemma {:induction false} CollideHitStep(bs: seq<Bullet>, es: seq<Enemy>, done: seq<Bullet>, h: nat)
    requires bs != [] && h == Strike(bs[0], es).1 && 0 < h < |bs|
    ensures SpliceTimes(done + bs, |done|, h) == (done + [bs[h]]) + bs[h + 1..]
    ensures done + Collide(bs, es).0 == (done + [bs[h]]) + Collide(bs[h + 1..], Strike(bs[0], es).0).0
    ensures Collide(bs, es).1 == Collide(bs[h + 1..], Strike(bs[0], es).0).1
  {
    HitSplices(done, bs, h);
    var s := Strike(bs[0], es);
    CollideKeepsSlot(bs, es, s);
    AppendAssoc(done, [bs[h]], Collide(bs[h + 1..], s.0).0);
  }

  /** Splicing slot `|done|` of `done + bs` `h` times, with `h` short of
      the length of `bs`, leaves `bs[h]` in that slot. */
  lemma {:induction false} HitSplices(done: seq<Bullet>, bs: seq<Bullet>, h: nat)
    requires 0 < h < |bs|
    ensures SpliceTimes(done + bs, |done|, h) == (done + [bs[h]]) + bs[h + 1..]
  {
    SpliceTimesCut(done + bs, |done|, h);
    CutAfter(done, bs, h);
  }

  /** `SpliceTimesRemoves` when all `h` slots exist. */
  lemma {:induction false} SpliceTimesCut<T>(s: seq<T>, i: nat, h: nat)
    requires i + h <= |s|
    ensures SpliceTimes(s, i, h) == s[..i] + s[i + h..]
  {
    SpliceTimesRemoves(s, i, h);
  }

  /** Cutting `h` elements out of `done + bs` right after `done`. */
  lemma {:induction false} CutAfter<T>(done: seq<T>, bs: seq<T>, h: nat)
    requires h < |bs|
    ensures (done + bs)[..|done|] + (done + bs)[|done| + h..] == (done + [bs[h]]) + bs[h + 1..]
  {
    var s := done + bs;
    assert s[..|done|] == done;
    assert s[|done| + h..] == [bs[h]] + bs[h + 1..];
    AppendAssoc(done, [bs[h]], bs[h + 1..]);
  }

  lemma {:induction false} CollideAllStep(bs: seq<Bullet>, es: seq<Enemy>, done: seq<Bullet>)
    requires bs != [] && |bs| <= Strike(bs[0], es).1
    ensures SpliceTimes(done + bs, |done|, Strike(bs[0], es).1) == done + []
    ensures done + Collide(bs, es).0 == done + Collide([], Strike(bs[0], es).0).0
    ensures Collide(bs, es).1 == Collide([], Strike(bs[0], es).0).1
  {
    SpliceTimesRemoves(done + bs, |done|, Strike(bs[0], es).1);
    assert (done + bs)[..|done|] == done;
    assert (done + bs)[|done + bs|..] == [];
  }

  /** The collision pass only removes bullets: what is left of the bullet
      array is a sub-multiset of what was there. */
  lemma {:induction false} CollideOnlyRemovesBullets(bs: seq<Bullet>, es: seq<Enemy>)
    ensures multiset(Collide(bs, es).0) <= multiset(bs)
    decreases |bs|
  {
    if bs != [] {
      var s := Strike(bs[0], es);
      if s.1 < |bs| {
        var t := Collide(bs[s.1 + 1..], s.0);
        CollideKeepsSlot(bs, es, s);
        CollideOnlyRemovesBullets(bs[s.1 + 1..], s.0);
        KeptAfterRemoval(bs, s.1, t.0);
      }
    }
  }

  /** The bullet kept by one step of the collision pass sits in the slot
      numbered by the hits of the first bullet, with or without hits. */
  lemma {:induction false} CollideKeepsSlot(bs: seq<Bullet>, es: seq<Enemy>, s: (seq<Enemy>, nat))
    requires bs != [] && s == Strike(bs[0], es) && s.1 < |bs|
    ensures Collide(bs, es).0 == [bs[s.1]] + Collide(bs[s.1 + 1..], s.0).0
    ensures Collide(bs, es).1 == Collide(bs[s.1 + 1..], s.0).1
  {
    if s.1 == 0 {
      assert bs[s.1 + 1..] == bs[1..];
    }
  }

  /** Keeping element `i` and a sub-multiset of what follows it keeps a
      sub-multiset of the whole sequence. */
  lemma {:induction false} KeptAfterRemoval<T>(s: seq<T>, i: nat, t: seq<T>)
    requires i < |s| && multiset(t) <= multiset(s[i + 1..])
    ensures multiset([s[i]] + t) <= multiset(s)
  {
    assert s == s[..i] + ([s[i]] + s[i + 1..]);
    assert multiset([s[i]] + t) == multiset([s[i]]) + multiset(t);
    assert multiset(s) == multiset(s[..i]) + multiset([s[i]]) + multiset(s[i + 1..]);
  }

  /** The collision pass only removes enemies. */
  lemma {:induction false} CollideOnlyRemovesEnemies(bs: seq<Bullet>, es: seq<Enemy>)
    ensures multiset(Collide(bs, es).1) <= multiset(es)
    decreases |bs|
  {
    if bs != [] {
      var s := Strike(bs[0], es);
      StrikeOnlyRemoves(bs[0], es);
      if s.1 == 0 {
        var t := Collide(bs[1..], s.0);
        assert Collide(bs, es).1 == t.1;
        CollideOnlyRemovesEnemies(bs[1..], s.0);
        SubMultisetTrans(multiset(t.1), multiset(s.0), multiset(es));
      } else if s.1 < |bs| {
        var t := Collide(bs[s.1 + 1..], s.0);
        assert Collide(bs, es).1 == t.1;
        CollideOnlyRemovesEnemies(bs[s.1 + 1..], s.0);
        SubMultisetTrans(multiset(t.1), multiset(s.0), multiset(es));
      }
    }
  }

  /** The collision pass removes only enemies some bullet overlaps: an
      enemy no bullet overlaps is kept as often as it occurs. */
  lemma {:induction false} CollideRemovesOnlyHit(bs: seq<Bullet>, es: seq<Enemy>, e: Enemy)
    requires forall i :: 0 <= i < |bs| ==> !Overlaps(bs[i], e)
    ensures multiset(Collide(bs, es).1)[e] == multiset(es)[e]
    decreases |bs|
  {
    if bs != [] {
      var s := Strike(bs[0], es);
      StrikeRemovesOnlyHit(bs[0], es, e);
      if s.1 == 0 {
        assert Collide(bs, es).1 == Collide(bs[1..], s.0).1;
        CollideRemovesOnlyHit(bs[1..], s.0, e);
      } else if s.1 < |bs| {
        assert Collide(bs, es).1 == Collide(bs[s.1 + 1..], s.0).1;
        CollideRemovesOnlyHit(bs[s.1 + 1..], s.0, e);
      }
    }
  }

  lemma SubMultisetTrans<T>(a: multiset<T>, b: multiset<T>, c: multiset<T>)
    requires a <= b && b <= c
    ensures a <= c
  {}

  /** Without any overlapping pair the collision pass changes nothing. */
  lemma {:induction false} CollideNoOverlap(bs: seq<Bullet>, es: seq<Enemy>)
    requires forall i, j :: 0 <= i < |bs| && 0 <= j < |es| ==> !Overlaps(bs[i], es[j])
    ensures Collide(bs, es) == (bs, es)
    decreases |bs|
  {
    if bs != [] {
      var b := bs[0];
      assert forall j :: 0 <= j < |es| ==> !Overlaps(b, es[j]);
      StrikeKeepsAll(b, es);
      var rest := bs[1..];
      assert forall i :: 0 <= i < |rest| ==> rest[i] == bs[i + 1];
      CollideNoOverlap(rest, es);
      assert bs == [b] + rest;
    }
  }

  /** A bullet that overlaps nothing leaves the enemies as they are. */
  lemma {:induction false} StrikeKeepsAll(b: Bullet, es: seq<Enemy>)
    requires forall j :: 0 <= j < |es| ==> !Overlaps(b, es[j])
    ensures Strike(b, es) == (es, 0)
  {
    if es != [] {
      StrikeKeepsAll(b, es[1..]);
      assert es == [es[0]] + es[1..];
    }
  }

  /** Overwriting the slot right after a prefix `d`. */
  lemma {:induction false} ReplaceAfter<T>(d: seq<T>, r: seq<T>, y: T)
    requires 0 < |r|
    ensures (d + r)[|d| := y] == d + ([y] + r[1..])
  {
    assert r == [r[0]] + r[1..];
  }

  /** Removing the slot right after a prefix `d`. */
  lemma {:induction false} RemoveAfter<T>(d: seq<T>, r: seq<T>)
    requires 0 < |r|
    ensures (d + r)[..|d|] + (d + r)[|d| + 1..] == d + r[1..]
  {
    assert (d + r)[..|d|] == d;
    assert (d + r)[|d| + 1..] == r[1..];
  }

  /** JavaScript's `splice(i, 1)`: removes the element at `i`, or nothing
      when `i` is past the end. */
  function Splice<T>(s: seq<T>, i: nat): (r: seq<T>)
    ensures |s| <= i ==> r == s
    ensures i < |s| ==> |r| == |s| - 1
    ensures forall k :: 0 <= k < i && k < |r| ==> r[k] == s[k]
    ensures i < |s| ==> forall k :: i <= k < |r| ==> r[k] == s[k + 1]
  {
    if i < |s| then s[..i] + s[i + 1..] else s
  }

  /** `h` successive `splice(i, 1)` calls. */
  function SpliceTimes<T>(s: seq<T>, i: nat, h: nat): seq<T>
  {
    if h == 0 then s else SpliceTimes(Splice(s, i), i, h - 1)
  }

  /** Splicing slot `i` `h` times removes the `h` elements from `i` on (as
      many as there are), and removes nothing when `i` is past the end. */
  lemma {:induction false} SpliceTimesRemoves<T>(s: seq<T>, i: nat, h: nat)
    ensures i <= |s| ==> SpliceTimes(s, i, h) == s[..i] + s[if i + h <= |s| then i + h else |s|..]
    ensures |s| <= i ==> SpliceTimes(s, i, h) == s
  {
    if h > 0 {
      SpliceTimesRemoves(Splice(s, i), i, h - 1);
      if i < |s| {
        var t := Splice(s, i);
        assert t[..i] == s[..i];
        assert t[if i + (h - 1) <= |t| then i + (h - 1) else |t|..]
            == s[if i + h <= |s| then i + h else |s|..];
      }
    }
  }

  /** One more splice at the same slot, taken last. */
  lemma {:induction false} SpliceTimesSucc<T>(s: seq<T>, i: nat, h: nat)
    ensures SpliceTimes(s, i, h + 1) == Splice(SpliceTimes(s, i, h), i)
    decreases h
  {
    if h > 0 {
      SpliceTimesSucc(Splice(s, i), i, h - 1);
    }
  }

  // ---------------------------------------------------------------- enemies

  /** One chase step: an enemy moves `speed` along the unit vector towards
      the player's corner, unless it already stands on it. */
  function Chase(sqrt: real -> real, en: Enemy, px: real, py: real): (r: Enemy)
    requires IsSqrt(sqrt)
    ensures r.size == en.size && r.speed == en.speed
  {
    var dx := px - en.x;
    var dy := py - en.y;
    var dist := Distance(sqrt, dx, dy);
    if dist > 0.0 then
      en.(x := en.x + en.speed * (dx / dist), y := en.y + en.speed * (dy / dist))
    else en
  }

  /** An enemy standing on the player's corner does not move. */
  lemma ChaseStaysOnPlayer(sqrt: real -> real, en: Enemy)
    requires IsSqrt(sqrt)
    ensures Chase(sqrt, en, en.x, en.y) == en
  {
    RootPositiveIff(sqrt, 0.0);
  }

  /** A chasing enemy away from the player moves towards it on each axis:
      each coordinate moves the way the player lies, or not at all when it
      already matches the player's. */
  lemma ChaseMovesToward(sqrt: real -> real, en: Enemy, px: real, py: real)
    requires IsSqrt(sqrt)
    requires 0.0 < en.speed
    requires en.x != px || en.y != py
    ensures var r := Chase(sqrt, en, px, py);
            (en.x < r.x <==> en.x < px) && (r.x < en.x <==> px < en.x)
            && (en.y < r.y <==> en.y < py) && (r.y < en.y <==> py < en.y)
  {
    var dx, dy := px - en.x, py - en.y;
    DistancePositive(sqrt, dx, dy);
    var dist := Distance(sqrt, dx, dy);
    ScaledSign(en.speed, dx, dist);
    ScaledSign(en.speed, dy, dist);
  }

  /** Player at (100, 100), enemy at (100, 300) with speed 1: one step
      brings the enemy to (100, 299). */
  lemma ChaseOneUnit(sqrt: real -> real)
    requires IsSqrt(sqrt)
    ensures Chase(sqrt, Enemy(100.0, 300.0, EnemySize, 1.0), 100.0, 100.0)
            == Enemy(100.0, 299.0, EnemySize, 1.0)
  {
    RootOfSquare(sqrt, 200.0);
    assert (100.0 - 100.0) * (100.0 - 100.0) + (100.0 - 300.0) * (100.0 - 300.0) == 200.0 * 200.0;
  }

  /** An enemy away from the player's corner steps exactly `speed` along
      the offset to the player: the step is parallel to that offset and its
      squared length is `speed * speed`. */
  lemma ChaseStepLength(sqrt: real -> real, en: Enemy, px: real, py: real)
    requires IsSqrt(sqrt)
    requires en.x != px || en.y != py
    ensures var r := Chase(sqrt, en, px, py);
            (r.x - en.x) * (py - en.y) == (r.y - en.y) * (px - en.x)
            && (r.x - en.x) * (r.x - en.x) + (r.y - en.y) * (r.y - en.y) == en.speed * en.speed
  {
    var dx, dy := px - en.x, py - en.y;
    DistancePositive(sqrt, dx, dy);
    var dist := Distance(sqrt, dx, dy);
    ScaledParallel(en.speed, dx, dy, dist);
    ScaledUnitLength(sqrt, dx, dy, en.speed);
    var r := Chase(sqrt, en, px, py);
    assert r.x - en.x == en.speed * (dx / dist) && r.y - en.y == en.speed * (dy / dist);
  }

  /** Every enemy after one chase step. */
  function ChasedAll(sqrt: real -> real, es: seq<Enemy>, px: real, py: real): seq<Enemy>
    requires IsSqrt(sqrt)
  {
    seq(|es|, i requires 0 <= i < |es| => Chase(sqrt, es[i], px, py))
  }

  /** The player's box overlaps an enemy's box (strict comparisons). */
  predicate Touches(px: real, py: real, en: Enemy)
  {
    px < en.x + en.size && px + PlayerSize > en.x && py < en.y + en.size && py + PlayerSize > en.y
  }

  /** Number of enemies touching the player. */
  function Contacts(es: seq<Enemy>, px: real, py: real): (n: nat)
    ensures n <= |es|
  {
    if es == [] then 0
    else Contacts(es[..|es| - 1], px, py) + (if Touches(px, py, es[|es| - 1]) then 1 else 0)
  }

  /** Health after the contact checks, enemy by enemy in array order:
      each touching enemy costs the contact damage, clamped at 0. */
  function ContactHealth(es: seq<Enemy>, px: real, py: real, health: real): (r: real)
    ensures 0.0 <= health ==> 0.0 <= r <= health
    decreases |es|
  {
    if es == [] then health
    else
      var before := ContactHealth(es[..|es| - 1], px, py, health);
      if Touches(px, py, es[|es| - 1]) then Damaged(before, ContactDamage) else before
  }

  /** Clamping after every step is clamping once: each touching enemy costs
      the contact damage in the same tick, down to 0. */
  lemma {:induction false} ContactHealthTotal(es: seq<Enemy>, px: real, py: real, health: real)
    requires 0.0 <= health
    ensures ContactHealth(es, px, py, health)
            == Max(0.0, health - (Contacts(es, px, py) as real) * ContactDamage)
  {
    if es != [] {
      ContactHealthTotal(es[..|es| - 1], px, py, health);
    }
  }

  // ---------------------------------------------------------------- one tick

  /** Everything one tick reads and writes besides the canvas size: the
      player's corner and health, the zone's radius, and the two arrays. */
  datatype World = World(px: real, py: real, health: real, radius: real,
                         bullets: seq<Bullet>, enemies: seq<Enemy>)

  /** One call of the update, phase by phase in the source's order: move,
      clamp to the canvas, shrink the zone centred on the canvas and apply
      its damage, sweep the bullets, resolve collisions, then chase and
      apply contact damage. */
  function Tick(sqrt: real -> real, keys: Keys, width: real, height: real, w: World): (r: World)
    requires IsSqrt(sqrt)
    ensures r.px <= width - PlayerSize && r.py <= height - PlayerSize
    ensures PlayerSize <= width ==> 0.0 <= r.px
    ensures PlayerSize <= height ==> 0.0 <= r.py
    ensures MinRadius <= r.radius
    ensures MinRadius <= w.radius ==> r.radius <= w.radius
    ensures 0.0 <= w.health ==> 0.0 <= r.health <= w.health
    ensures |r.bullets| <= |w.bullets| && |r.enemies| <= |w.enemies|
  {
    var px := ClampAxis(MoveAxis(w.px, LeftHeld(keys), RightHeld(keys), PlayerSpeed), width - PlayerSize);
    var py := ClampAxis(MoveAxis(w.py, UpHeld(keys), DownHeld(keys), PlayerSpeed), height - PlayerSize);
    var radius := ShrinkRadius(w.radius);
    var health := ZoneHealth(w.health, OutsideZone(px - width / 2.0, py - height / 2.0, radius));
    var collided := Collide(Swept(w.bullets, width, height), w.enemies);
    var enemies := ChasedAll(sqrt, collided.1, px, py);
    World(px, py, ContactHealth(enemies, px, py, health), radius, collided.0, enemies)
  }

  // The phases of a tick, each on the whole world, in the source's order.

  function Moved(keys: Keys, w: World): World {
    w.(px := MoveAxis(w.px, LeftHeld(keys), RightHeld(keys), PlayerSpeed),
       py := MoveAxis(w.py, UpHeld(keys), DownHeld(keys), PlayerSpeed))
  }

  function Clamped(width: real, height: real, w: World): World {
    w.(px := ClampAxis(w.px, width - PlayerSize), py := ClampAxis(w.py, height - PlayerSize))
  }

  function Zoned(width: real, height: real, w: World): World {
    var radius := ShrinkRadius(w.radius);
    w.(radius := radius,
       health := ZoneHealth(w.health, OutsideZone(w.px - width / 2.0, w.py - height / 2.0, radius)))
  }

  function BulletsSwept(width: real, height: real, w: World): World {
    w.(bullets := Swept(w.bullets, width, height))
  }

  function Collided(w: World): World {
    var c := Collide(w.bullets, w.enemies);
    w.(bullets := c.0, enemies := c.1)
  }

  function Chased(sqrt: real -> real, w: World): World
    requires IsSqrt(sqrt)
  {
    var enemies := ChasedAll(sqrt, w.enemies, w.px, w.py);
    w.(enemies := enemies, health := ContactHealth(enemies, w.px, w.py, w.health))
  }

  /** The tick is its six phases run one after the other. */
  lemma {:induction false} TickIsPhases(sqrt: real -> real, keys: Keys, width: real, height: real, w: World)
    requires IsSqrt(sqrt)
    ensures Tick(sqrt, keys, width, height, w)
            == Chased(sqrt, Collided(BulletsSwept(width, height,
                 Zoned(width, height, Clamped(width, height, Moved(keys, w))))))
  {}

  /** The most a tick can cost: the zone damage once, plus the contact
      damage once per enemy alive at the start of the tick. */
  lemma {:induction false} TickDamageBound(sqrt: real -> real, keys: Keys, width: real, height: real, w: World)
    requires IsSqrt(sqrt)
    requires 0.0 <= w.health
    ensures Tick(sqrt, keys, width, height, w).health
            >= w.health - ZoneDamage - (|w.enemies| as real) * ContactDamage
  {
    var r := Tick(sqrt, keys, width, height, w);
    var px, py := r.px, r.py;
    var health := ZoneHealth(w.health, OutsideZone(px - width / 2.0, py - height / 2.0, r.radius));
    assert r.health == ContactHealth(r.enemies, px, py, health);
    assert health >= w.health - ZoneDamage;
    ContactHealthTotal(r.enemies, px, py, health);
    var n := Contacts(r.enemies, px, py);
    assert n <= |w.enemies|;
    assert (n as real) * ContactDamage <= (|w.enemies| as real) * ContactDamage;
  }

  /** A player who holds no key and stands on the canvas, inside the zone,
      with no enemy near, keeps position and health. */
  lemma {:induction false} TickIdleSafe(sqrt: real -> real, keys: Keys, width: real, height: real, w: World)
    requires IsSqrt(sqrt)
    requires !UpHeld(keys) && !DownHeld(keys) && !LeftHeld(keys) && !RightHeld(keys)
    requires 0.0 <= w.px <= width - PlayerSize && 0.0 <= w.py <= height - PlayerSize
    requires !OutsideZone(w.px - width / 2.0, w.py - height / 2.0, ShrinkRadius(w.radius))
    requires w.enemies == []
    ensures var r := Tick(sqrt, keys, width, height, w);
            r.px == w.px && r.py == w.py && r.health == w.health && r.enemies == []
  {
    var collided := Collide(Swept(w.bullets, width, height), w.enemies);
    assert |collided.1| <= |w.enemies|;
  }

  // ---------------------------------------------------------------- game loop

  /** The game loop's decision after a tick: defeat takes precedence over
      victory; the loop continues only if neither holds. */
  function Decide(health: real, enemiesLeft: nat): (v: Verdict)
    ensures v == Defeat <==> health <= 0.0
    ensures v == Victory <==> 0.0 < health && enemiesLeft == 0
    ensures v == Continue <==> 0.0 < health && 0 < enemiesLeft
  {
    if health <= 0.0 then Defeat
    else if enemiesLeft == 0 then Victory
    else Continue
  }

  // ---------------------------------------------------------------- shooting

  /** The bullet fired from the player's corner (px, py) towards a target
      point: velocity is the unit vector to the target scaled by the bullet
      speed. The source divides by the distance without a guard, so the
      target must differ from the player's corner. */
  function Shot(sqrt: real -> real, px: real, py: real, tx: real, ty: real): (b: Bullet)
    requires IsSqrt(sqrt)
    requires tx != px || ty != py
    ensures b.x == px && b.y == py && b.size == BulletSize
    ensures b.dx * (ty - py) == b.dy * (tx - px)
    ensures b.dx * b.dx + b.dy * b.dy == BulletSpeed * BulletSpeed
  {
    var dx := tx - px;
    var dy := ty - py;
    DistancePositive(sqrt, dx, dy);
    var dist := Distance(sqrt, dx, dy);
    ScaledParallel(BulletSpeed, dx, dy, dist);
    ScaledUnitLength(sqrt, dx, dy, BulletSpeed);
    assert (dx / dist) * BulletSpeed == BulletSpeed * (dx / dist);
    assert (dy / dist) * BulletSpeed == BulletSpeed * (dy / dist);
    Bullet(px, py, BulletSize, (dx / dist) * BulletSpeed, (dy / dist) * BulletSpeed)
  }

  /** A shot heads towards its target: each velocity component has the sign
      of the target's offset on that axis. */
  lemma ShotHeadsToTarget(sqrt: real -> real, px: real, py: real, tx: real, ty: real)
    requires IsSqrt(sqrt)
    requires tx != px || ty != py
    ensures var b := Shot(sqrt, px, py, tx, ty);
            (0.0 < b.dx <==> px < tx) && (b.dx < 0.0 <==> tx < px)
            && (0.0 < b.dy <==> py < ty) && (b.dy < 0.0 <==> ty < py)
  {
    var dx, dy := tx - px, ty - py;
    DistancePositive(sqrt, dx, dy);
    var dist := Distance(sqrt, dx, dy);
    ScaledSign(BulletSpeed, dx, dist);
    ScaledSign(BulletSpeed, dy, dist);
    assert (dx / dist) * BulletSpeed == BulletSpeed * (dx / dist);
    assert (dy / dist) * BulletSpeed == BulletSpeed * (dy / dist);
  }
}
