/** Vertical motion of the player: a jump starts with a fixed upward speed and gravity pulls it back to the ground. */
module Jump {

  /** Upward speed given by a jump, in units per frame. */
  const JumpForce: real := 0.3
  /** Speed lost to gravity in each frame. */
  const Gravity: real := 0.01
  /** Camera height when the player stands on the floor. */
  const GroundY: real := 2.0

  /** The player's vertical state: jumping flag, vertical speed and camera height. */
  datatype Vertical = Vertical(jumping: bool, velocity: real, height: real)

  /** Never below the ground, and at rest with zero speed on the ground unless jumping. */
  predicate Settled(v: Vertical) {
    v.height >= GroundY && (!v.jumping ==> v.height == GroundY && v.velocity == 0.0)
  }

  /** The player just after a jump is started from v. */
  function Launch(v: Vertical): (r: Vertical)
    ensures r.jumping
    ensures Settled(v) ==> Settled(r)
    ensures v.jumping ==> r == v
    ensures !v.jumping ==> r.velocity == JumpForce && r.height == v.height
  {
    if v.jumping then v else Vertical(true, JumpForce, v.height)
  }

  /** One frame of gravity: airborne, the speed drops and the height follows; below the floor, the player lands. */
  function Fall(v: Vertical): (r: Vertical)
    ensures v.height >= GroundY ==> r.height >= GroundY
    ensures Settled(v) ==> Settled(r)
    ensures v.jumping && !r.jumping ==> r.height == GroundY && r.velocity == 0.0
    ensures Settled(v) && !v.jumping ==> r == v
    ensures (v.jumping || v.height > GroundY) && v.height + v.velocity - Gravity < GroundY ==>
      r == Vertical(false, 0.0, GroundY)
    ensures r.jumping ==> r.velocity == v.velocity - Gravity && r.height == v.height + r.velocity
  {
    if v.jumping || v.height > GroundY then
      var velocity := v.velocity - Gravity;
      var height := v.height + velocity;
      if height < GroundY then Vertical(false, 0.0, GroundY)
      else Vertical(v.jumping, velocity, height)
    else v
  }

  /** n frames of gravity starting from v. */
  function FallFor(v: Vertical, n: nat): Vertical {
    if n == 0 then v else Fall(FallFor(v, n - 1))
  }

  lemma NonNegativeProduct(a: real, b: real)
    requires 0.0 <= a && 0.0 <= b
    ensures 0.0 <= a * b
  {
  }

  /** The course of a jump from the ground: after k <= 59 frames the player is still in the air. */
  lemma {:induction false} JumpCourse(k: nat)
    requires k <= 59
    ensures FallFor(Launch(Vertical(false, 0.0, GroundY)), k) ==
      Vertical(true, JumpForce - Gravity * (k as real), GroundY + (k as real) * (59.0 - (k as real)) / 200.0)
  {
    if k > 0 {
      JumpCourse(k - 1);
      var m := (k - 1) as real;
      assert 0.0 <= m + 1.0 && 0.0 <= 58.0 - m;
      NonNegativeProduct(m + 1.0, 58.0 - m);
      assert m * (59.0 - m) / 200.0 + JumpForce - Gravity * (m + 1.0) == (m + 1.0) * (58.0 - m) / 200.0;
    }
  }

  /** A jump from the ground keeps the player in the air for 59 frames and lands on the 60th. */
  lemma JumpLastsSixtyFrames()
    ensures forall k :: 1 <= k < 60 ==> FallFor(Launch(Vertical(false, 0.0, GroundY)), k).jumping
    ensures FallFor(Launch(Vertical(false, 0.0, GroundY)), 60) == Vertical(false, 0.0, GroundY)
  {
    forall k | 1 <= k < 60
      ensures FallFor(Launch(Vertical(false, 0.0, GroundY)), k).jumping
    {
      JumpCourse(k);
    }
    JumpCourse(59);
  }
}
