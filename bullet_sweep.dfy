/**
 * The bullet pass of one animation frame. Every bullet the pass visits moves one step; the
 * targets are then scanned from the highest index down, and the first one in contact is removed
 * together with the bullet. A bullet that hits nothing and is too far from the camera is removed
 * as well. The pass is a `forEach` that splices the list it walks, so the bullet right behind a
 * removed one is neither moved nor tested in that frame: `SweepBullets` states this on the
 * original list.
 */
module BulletSweep {
  import opened Geometry
  import opened Splice

  /** A bullet closer than this to a target hits it. */
  const ContactRadius: real := 1.0
  /** A bullet farther than this from the camera is discarded. */
  const MaxRange: real := 100.0

  predicate Contact(p: Vec3, t: Vec3) {
    Within(p, t, ContactRadius)
  }

  predicate OutOfRange(p: Vec3, camera: Vec3) {
    Beyond(p, camera, MaxRange)
  }

  /** The highest index of a target in contact with p, or -1 when there is none. */
  function LastContact(p: Vec3, ts: seq<Vec3>): (j: int)
    ensures -1 <= j < |ts|
    ensures j >= 0 ==> Contact(p, ts[j])
    ensures forall i :: j < i < |ts| ==> !Contact(p, ts[i])
    decreases |ts|
  {
    if ts == [] then -1
    else if Contact(p, ts[|ts| - 1]) then |ts| - 1
    else LastContact(p, ts[..|ts| - 1])
  }

  /** The three properties of LastContact determine it. */
  lemma LastContactUnique(p: Vec3, ts: seq<Vec3>, j: int)
    requires -1 <= j < |ts|
    requires j >= 0 ==> Contact(p, ts[j])
    requires forall i :: j < i < |ts| ==> !Contact(p, ts[i])
    ensures j == LastContact(p, ts)
  {
  }

  /** The bullets and targets a frame's pass leaves. */
  datatype Swept = Swept(bullets: seq<Bullet>, targets: seq<Vec3>)

  function Prefixed(front: seq<Bullet>, r: Swept): Swept {
    Swept(front + r.bullets, r.targets)
  }

  /** Whether the advanced bullet b leaves the list: it hit a target or went out of range. */
  predicate Leaves(b: Bullet, ts: seq<Vec3>, camera: Vec3) {
    LastContact(b.pos, ts) >= 0 || OutOfRange(b.pos, camera)
  }

  /** The targets left once the advanced bullet b has been tested against ts. */
  function Struck(b: Bullet, ts: seq<Vec3>): seq<Vec3> {
    var j := LastContact(b.pos, ts);
    if j >= 0 then Remove(ts, j) else ts
  }

  /**
   * The outcome of the pass over bs (in list order) against ts, the camera being at camera.
   * When a bullet leaves, the next one is kept as it was, with no move and no test.
   */
  function SweepBullets(bs: seq<Bullet>, ts: seq<Vec3>, delta: real, camera: Vec3): Swept
    decreases |bs|
  {
    if bs == [] then Swept([], ts)
    else
      var b := Advance(bs[0], delta);
      if Leaves(b, ts, camera) then
        if |bs| == 1 then Swept([], Struck(b, ts))
        else Prefixed([bs[1]], SweepBullets(bs[2..], Struck(b, ts), delta, camera))
      else Prefixed([b], SweepBullets(bs[1..], ts, delta, camera))
  }

  /** SweepBullets unfolded at position i of a list, for reasoning about a pass that is under way. */
  lemma SweepFrom(bs: seq<Bullet>, i: nat, ts: seq<Vec3>, delta: real, camera: Vec3)
    requires i < |bs|
    ensures SweepBullets(bs[i..], ts, delta, camera) ==
      var b := Advance(bs[i], delta);
      if !Leaves(b, ts, camera) then Prefixed([b], SweepBullets(bs[i + 1..], ts, delta, camera))
      else if i + 1 == |bs| then Swept([], Struck(b, ts))
      else Prefixed([bs[i + 1]], SweepBullets(bs[i + 2..], Struck(b, ts), delta, camera))
  {
    assert bs[i..][1..] == bs[i + 1..];
    if i + 1 < |bs| {
      assert bs[i..][2..] == bs[i + 2..];
    }
  }

  /**
   * The state of a frame's pass over start that is under way: index is the next slot visited, bs
   * and ts the lists as they stand. Before index the bullets are final; from index on, bs is the
   * untouched tail of start. Past the end of bs the pass has nothing left to do.
   */
  ghost predicate SweepUnderWay(start: seq<Bullet>, pool: seq<Vec3>, delta: real, camera: Vec3,
                                bs: seq<Bullet>, ts: seq<Vec3>, index: nat) {
    && |bs| <= |start|
    && (index <= |bs| ==>
          && bs[index..] == start[index + |start| - |bs|..]
          && SweepBullets(start, pool, delta, camera) ==
             Prefixed(bs[..index], SweepBullets(start[index + |start| - |bs|..], ts, delta, camera)))
    && (index > |bs| ==> Swept(bs, ts) == SweepBullets(start, pool, delta, camera))
  }

  lemma SweepBegins(start: seq<Bullet>, pool: seq<Vec3>, delta: real, camera: Vec3)
    ensures SweepUnderWay(start, pool, delta, camera, start, pool, 0)
  {
    assert start[0..] == start;
  }

  /**
   * Visiting slot index: the bullet there is advanced in place; if it leaves, it is spliced out and
   * the target it struck (if any) with it.
   */
  lemma SweepVisits(start: seq<Bullet>, pool: seq<Vec3>, delta: real, camera: Vec3,
                    bs: seq<Bullet>, ts: seq<Vec3>, index: nat)
    requires SweepUnderWay(start, pool, delta, camera, bs, ts, index) && index < |bs|
    ensures var b := Advance(bs[index], delta);
      SweepUnderWay(start, pool, delta, camera,
                    if Leaves(b, ts, camera) then Remove(bs[index := b], index) else bs[index := b],
                    Struck(b, ts), index + 1)
  {
    var m := index + |start| - |bs|;
    SweepFrom(start, m, ts, delta, camera);
    assert bs[index] == start[m];
    var b := Advance(bs[index], delta);
    if Leaves(b, ts, camera) {
      var after := Remove(bs[index := b], index);
      if m + 1 < |start| {
        assert after[..index + 1] == bs[..index] + [start[m + 1]];
        assert after[index + 1..] == start[m + 2..];
      } else {
        assert after == bs[..index];
      }
    } else {
      var after := bs[index := b];
      assert after[..index + 1] == bs[..index] + [b];
      assert after[index + 1..] == start[m + 1..];
    }
  }

  /** A slot beyond the end of the list is not visited. */
  lemma SweepPasses(start: seq<Bullet>, pool: seq<Vec3>, delta: real, camera: Vec3,
                    bs: seq<Bullet>, ts: seq<Vec3>, index: nat)
    requires SweepUnderWay(start, pool, delta, camera, bs, ts, index) && index >= |bs|
    ensures SweepUnderWay(start, pool, delta, camera, bs, ts, index + 1)
  {
    if index == |bs| {
      assert start[|start|..] == [];
      assert bs[..index] == bs;
    }
  }

  /** After the last slot of the original list the pass has produced SweepBullets. */
  lemma SweepEnds(start: seq<Bullet>, pool: seq<Vec3>, delta: real, camera: Vec3,
                  bs: seq<Bullet>, ts: seq<Vec3>, index: nat)
    requires SweepUnderWay(start, pool, delta, camera, bs, ts, index) && index >= |start|
    ensures Swept(bs, ts) == SweepBullets(start, pool, delta, camera)
  {
    if index <= |bs| {
      assert start[|start|..] == [];
      assert bs[..index] == bs;
    }
  }

  /** The targets that survive the pass keep their relative order. */
  lemma {:induction false} SweepKeepsTargetOrder(bs: seq<Bullet>, ts: seq<Vec3>, delta: real, camera: Vec3)
    ensures IsSubsequence(SweepBullets(bs, ts, delta, camera).targets, ts)
    decreases |bs|
  {
    if bs == [] {
      SubsequenceOfSelf(ts);
    } else {
      var b := Advance(bs[0], delta);
      var left := Struck(b, ts);
      assert IsSubsequence(left, ts) by {
        var j := LastContact(b.pos, ts);
        if j >= 0 { RemoveIsSubsequence(ts, j); } else { SubsequenceOfSelf(ts); }
      }
      if Leaves(b, ts, camera) {
        if |bs| == 1 {
        } else {
          SweepKeepsTargetOrder(bs[2..], left, delta, camera);
          SubsequenceTransitive(SweepBullets(bs[2..], left, delta, camera).targets, left, ts);
        }
      } else {
        SweepKeepsTargetOrder(bs[1..], ts, delta, camera);
      }
    }
  }

  /**
   * Each bullet removes at most one target, and a bullet that removes one is gone itself:
   * the targets lost never outnumber the bullets lost.
   */
  lemma {:induction false} SweepOneTargetPerBullet(bs: seq<Bullet>, ts: seq<Vec3>, delta: real, camera: Vec3)
    ensures |SweepBullets(bs, ts, delta, camera).bullets| <= |bs|
    ensures |SweepBullets(bs, ts, delta, camera).targets| <= |ts|
    ensures |ts| - |SweepBullets(bs, ts, delta, camera).targets| <= |bs| - |SweepBullets(bs, ts, delta, camera).bullets|
    decreases |bs|
  {
    if bs != [] {
      var b := Advance(bs[0], delta);
      if Leaves(b, ts, camera) {
        if |bs| > 1 {
          SweepOneTargetPerBullet(bs[2..], Struck(b, ts), delta, camera);
        }
      } else {
        SweepOneTargetPerBullet(bs[1..], ts, delta, camera);
      }
    }
  }

  /** Testing one bullet removes no copy of a target it is not in contact with. */
  lemma StruckKeepsUntouched(b: Bullet, ts: seq<Vec3>, t: Vec3)
    requires !Contact(b.pos, t)
    ensures multiset(Struck(b, ts))[t] == multiset(ts)[t]
  {
    var j := LastContact(b.pos, ts);
    if j >= 0 {
      MultisetRemove(ts, j);
    }
  }

  /** A target that no bullet of the list, once advanced by delta, comes into contact with survives the pass, with all its copies. */
  lemma {:induction false} SweepKeepsUntouched(bs: seq<Bullet>, ts: seq<Vec3>, delta: real, camera: Vec3, t: Vec3)
    requires forall i :: 0 <= i < |bs| ==> !Contact(Advance(bs[i], delta).pos, t)
    ensures multiset(SweepBullets(bs, ts, delta, camera).targets)[t] == multiset(ts)[t]
    decreases |bs|
  {
    if bs != [] {
      var b := Advance(bs[0], delta);
      StruckKeepsUntouched(b, ts, t);
      if Leaves(b, ts, camera) {
        if |bs| > 1 {
          assert forall i :: 0 <= i < |bs[2..]| ==> bs[2..][i] == bs[i + 2];
          SweepKeepsUntouched(bs[2..], Struck(b, ts), delta, camera, t);
        }
      } else {
        assert forall i :: 0 <= i < |bs[1..]| ==> bs[1..][i] == bs[i + 1];
        SweepKeepsUntouched(bs[1..], ts, delta, camera, t);
      }
    }
  }

  /**
   * When no bullet hits anything or goes out of range, every bullet moves exactly once, in place,
   * and no target is touched.
   */
  lemma {:induction false} SweepAllFlying(bs: seq<Bullet>, ts: seq<Vec3>, delta: real, camera: Vec3)
    requires forall i :: 0 <= i < |bs| ==> !Leaves(Advance(bs[i], delta), ts, camera)
    ensures SweepBullets(bs, ts, delta, camera).targets == ts
    ensures |SweepBullets(bs, ts, delta, camera).bullets| == |bs|
    ensures forall i :: 0 <= i < |bs| ==> SweepBullets(bs, ts, delta, camera).bullets[i] == Advance(bs[i], delta)
    decreases |bs|
  {
    if bs != [] {
      assert forall i :: 0 <= i < |bs[1..]| ==> bs[1..][i] == bs[i + 1];
      SweepAllFlying(bs[1..], ts, delta, camera);
    }
  }

  /**
   * When the first bullet leaves, the one behind it ends up first in the list exactly as it was:
   * not moved and not tested, even if it is out of range.
   */
  lemma SweepSkipsNext(bs: seq<Bullet>, ts: seq<Vec3>, delta: real, camera: Vec3)
    requires |bs| >= 2 && Leaves(Advance(bs[0], delta), ts, camera)
    ensures SweepBullets(bs, ts, delta, camera).bullets != []
    ensures SweepBullets(bs, ts, delta, camera).bullets[0] == bs[1]
  {
  }
}
