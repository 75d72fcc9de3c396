/** The gameplay state of the shooter and the operations that change it. */
module Game {
  import opened Geometry
  import opened Splice
  import opened InstantHits
  import opened BulletSweep
  import opened Jump
  import opened Ammo

  /** Targets placed at the start of a session. */
  const TargetCount: nat := 10
  /** Score for each target removed. */
  const PointsPerTarget: int := 10
  /** Health the player starts with; nothing in the game changes it. */
  const StartHealth: int := 100
  /** Speed of a fired bullet, in units per second along the aim. */
  const BulletSpeed: real := 50.0

  /**
   * Where a target is placed for a pair of random draws in [0, 1): each horizontal coordinate is
   * spread over [-40, 40) and the target rests at height 2.
   */
  function SpawnAt(roll: (real, real)): (p: Vec3)
    requires 0.0 <= roll.0 < 1.0 && 0.0 <= roll.1 < 1.0
    ensures -40.0 <= p.x < 40.0 && -40.0 <= p.z < 40.0
    ensures p.y == 2.0
  {
    Vec3(roll.0 * 80.0 - 40.0, 2.0, roll.1 * 80.0 - 40.0)
  }

  class FPSGame {
    var score: int
    const health: int
    var ammo: int
    var isGameOver: bool
    var targets: seq<Vec3>
    var bullets: seq<Bullet>
    var isJumping: bool
    var velocityY: real
    /** Height of the camera; its horizontal position belongs to the movement code and is passed in. */
    var cameraY: real

    function VerticalState(): Vertical
      reads this
    {
      Vertical(isJumping, velocityY, cameraY)
    }

    /**
     * The session invariant: the magazine is legal, every removed target scored exactly
     * PointsPerTarget, the game is over exactly when no target is left, and the camera stands on
     * or above the ground.
     */
    ghost predicate Valid()
      reads this
    {
      && 0 <= ammo <= MaxAmmo
      && |targets| <= TargetCount
      && score == PointsPerTarget * (TargetCount - |targets|)
      && (isGameOver <==> targets == [])
      && Settled(VerticalState())
    }

    /** A fresh session with the ten targets placed from the given random draws. */
    constructor (rolls: seq<(real, real)>)
      requires |rolls| == TargetCount
      requires forall i :: 0 <= i < |rolls| ==> 0.0 <= rolls[i].0 < 1.0 && 0.0 <= rolls[i].1 < 1.0
      ensures Valid()
      ensures |targets| == TargetCount
      ensures forall i :: 0 <= i < TargetCount ==> targets[i] == SpawnAt(rolls[i])
      ensures bullets == [] && score == 0 && ammo == MaxAmmo && health == StartHealth
      ensures !isGameOver && VerticalState() == Vertical(false, 0.0, GroundY)
    {
      score := 0;
      health := StartHealth;
      ammo := MaxAmmo;
      isGameOver := false;
      targets := [];
      bullets := [];
      isJumping := false;
      velocityY := 0.0;
      cameraY := GroundY;
      new;
      CreateTargets(rolls);
    }

    /** Appends TargetCount targets, one per pair of random draws. */
    method CreateTargets(rolls: seq<(real, real)>)
      requires |rolls| == TargetCount
      requires forall i :: 0 <= i < |rolls| ==> 0.0 <= rolls[i].0 < 1.0 && 0.0 <= rolls[i].1 < 1.0
      modifies this`targets
      ensures |targets| == |old(targets)| + TargetCount
      ensures targets[..|old(targets)|] == old(targets)
      ensures forall i :: 0 <= i < TargetCount ==> targets[|old(targets)| + i] == SpawnAt(rolls[i])
    {
      var i := 0;
      while i < TargetCount
        invariant 0 <= i <= TargetCount
        invariant |targets| == |old(targets)| + i
        invariant targets[..|old(targets)|] == old(targets)
        invariant forall k :: 0 <= k < i ==> targets[|old(targets)| + k] == SpawnAt(rolls[k])
      {
        targets := targets + [SpawnAt(rolls[i])];
        i := i + 1;
      }
    }

    /**
     * Fires from the camera along aim (the camera's unit view direction). With an empty magazine
     * nothing changes; otherwise one round is spent, the bullet joins the end of the list and the
     * fire-time hit test runs from the muzzle.
     */
    method Shoot(cameraX: real, cameraZ: real, aim: Vec3)
      requires Valid()
      modifies this`ammo, this`bullets, this`targets, this`score, this`isGameOver
      ensures Valid()
      ensures ammo == AmmoAfter(old(ammo), Fire)
      ensures old(ammo) <= 0 ==>
        bullets == old(bullets) && targets == old(targets) && score == old(score) && isGameOver == old(isGameOver)
      ensures old(ammo) > 0 ==>
        var muzzle := Vec3(cameraX, cameraY, cameraZ);
        && bullets == old(bullets) + [Bullet(muzzle, Scale(aim, BulletSpeed))]
        && targets == Survivors(old(targets), muzzle)
        && score == old(score) + PointsPerTarget * (|old(targets)| - |targets|)
        && isGameOver == (targets == [])
    {
      if ammo <= 0 {
        return;
      }
      ammo := ammo - 1;
      var bullet := Bullet(Vec3(cameraX, cameraY, cameraZ), Scale(aim, BulletSpeed));
      bullets := bullets + [bullet];
      CheckBulletHits(bullet);
      SurvivorsRemovalBound(old(targets), bullet.pos);
    }

    /**
     * The fire-time hit test: one pass over the targets, removing each one it finds within
     * HitRadius of the bullet and scoring it; the game is won when the last target goes.
     */
    method CheckBulletHits(bullet: Bullet)
      modifies this`targets, this`score, this`isGameOver
      ensures targets == Survivors(old(targets), bullet.pos)
      ensures score == old(score) + PointsPerTarget * (|old(targets)| - |targets|)
      ensures isGameOver == (old(isGameOver) || (old(targets) != [] && targets == []))
    {
      ghost var start := targets;
      var p := bullet.pos;
      var n := |targets|;
      var index := 0;
      PassBegins(start, p);
      while index < n
        invariant 0 <= index <= n
        invariant PassUnderWay(start, p, targets, index)
        invariant score == old(score) + PointsPerTarget * (n - |targets|)
        invariant isGameOver == (old(isGameOver) || (n > 0 && targets == []))
      {
        if index < |targets| {
          PassVisits(start, p, targets, index);
          if Hit(p, targets[index]) {
            targets := Remove(targets, index);
            score := score + PointsPerTarget;
            if |targets| == 0 {
              GameOver();
            }
          }
        } else {
          PassPasses(start, p, targets, index);
        }
        index := index + 1;
      }
      PassEnds(start, p, targets, index);
    }

    /** Refills the magazine when it is not full; a full magazine is left alone. */
    method Reload()
      requires Valid()
      modifies this`ammo
      ensures Valid()
      ensures ammo == AmmoAfter(old(ammo), Refill)
      ensures old(ammo) < MaxAmmo ==> ammo == MaxAmmo
      ensures old(ammo) >= MaxAmmo ==> ammo == old(ammo)
    {
      if ammo < MaxAmmo {
        ammo := MaxAmmo;
      }
    }

    /** Ends the session; calling it again keeps it ended. */
    method GameOver()
      modifies this`isGameOver
      ensures isGameOver
    {
      isGameOver := true;
    }

    /** Starts a jump unless one is under way. */
    method StartJump()
      requires Valid()
      modifies this`isJumping, this`velocityY
      ensures Valid()
      ensures VerticalState() == Launch(old(VerticalState()))
      ensures old(isJumping) ==> isJumping == old(isJumping) && velocityY == old(velocityY)
      ensures !old(isJumping) ==> isJumping && velocityY == JumpForce
    {
      if !isJumping {
        isJumping := true;
        velocityY := JumpForce;
      }
    }

    /** The jump and gravity step of a frame: rise or fall by the vertical speed, landing on the floor. */
    method ApplyGravity()
      modifies this`isJumping, this`velocityY, this`cameraY
      ensures VerticalState() == Fall(old(VerticalState()))
      ensures old(cameraY) >= GroundY ==> cameraY >= GroundY
    {
      if isJumping || cameraY > GroundY {
        velocityY := velocityY - Gravity;
        cameraY := cameraY + velocityY;
        if cameraY < GroundY {
          cameraY := GroundY;
          velocityY := 0.0;
          isJumping := false;
        }
      }
    }

    /** The index of the highest target in contact with p, or -1; the targets are scanned from the end. */
    method FindContact(p: Vec3) returns (j: int)
      ensures -1 <= j < |targets|
      ensures j >= 0 ==> Contact(p, targets[j])
      ensures forall i :: j < i < |targets| ==> !Contact(p, targets[i])
      ensures j == LastContact(p, targets)
    {
      j := |targets| - 1;
      while j >= 0 && !Contact(p, targets[j])
        invariant -1 <= j < |targets|
        invariant forall i :: j < i < |targets| ==> !Contact(p, targets[i])
        decreases j + 1
      {
        j := j - 1;
      }
      LastContactUnique(p, targets, j);
    }

    /**
     * The bullet pass of a frame: each visited bullet moves by its velocity times delta; the first
     * target in contact, scanning from the end, is removed and scored and the bullet goes with it;
     * a bullet that hit nothing and is out of range is removed.
     */
    method UpdateBullets(delta: real, camera: Vec3)
      modifies this`bullets, this`targets, this`score
      ensures Swept(bullets, targets) == SweepBullets(old(bullets), old(targets), delta, camera)
      ensures score == old(score) + PointsPerTarget * (|old(targets)| - |targets|)
    {
      ghost var start, pool := bullets, targets;
      var n := |bullets|;
      var index := 0;
      SweepBegins(start, pool, delta, camera);
      while index < n
        invariant 0 <= index <= n
        invariant SweepUnderWay(start, pool, delta, camera, bullets, targets, index)
        invariant |targets| <= |pool|
        invariant score == old(score) + PointsPerTarget * (|pool| - |targets|)
      {
        if index < |bullets| {
          SweepVisits(start, pool, delta, camera, bullets, targets, index);
          var bullet := Advance(bullets[index], delta);
          bullets := bullets[index := bullet];
          var j := FindContact(bullet.pos);
          if j >= 0 {
            targets := Remove(targets, j);
            score := score + PointsPerTarget;
            bullets := Remove(bullets, index);
          } else if OutOfRange(bullet.pos, camera) {
            bullets := Remove(bullets, index);
          }
        } else {
          SweepPasses(start, pool, delta, camera, bullets, targets, index);
        }
        index := index + 1;
      }
      SweepEnds(start, pool, delta, camera, bullets, targets, index);
    }

    /**
     * One animation frame. gravityActive says whether the jump and gravity step runs this frame
     * (the desktop view with the pointer locked); cameraX and cameraZ are where the movement code
     * left the camera. Then the bullet pass runs, and the game is won when no target is left.
     */
    method Animate(delta: real, gravityActive: bool, cameraX: real, cameraZ: real)
      requires Valid()
      modifies this`isJumping, this`velocityY, this`cameraY, this`bullets, this`targets, this`score, this`isGameOver
      ensures Valid()
      ensures VerticalState() == if gravityActive then Fall(old(VerticalState())) else old(VerticalState())
      ensures Swept(bullets, targets) == SweepBullets(old(bullets), old(targets), delta, Vec3(cameraX, cameraY, cameraZ))
      ensures score == old(score) + PointsPerTarget * (|old(targets)| - |targets|)
      ensures isGameOver == (targets == [])
    {
      if gravityActive {
        ApplyGravity();
      }
      var camera := Vec3(cameraX, cameraY, cameraZ);
      UpdateBullets(delta, camera);
      SweepOneTargetPerBullet(old(bullets), old(targets), delta, camera);
      if |targets| == 0 {
        GameOver();
      }
    }
  }
}
