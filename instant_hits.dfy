/**
 * The hit test made at the moment of firing (`checkBulletHits`): one `forEach` pass over the
 * targets that splices out every target it finds within the hit radius. Because the pass keeps
 * its index running after a splice, the target that shifts into the vacated slot is never looked
 * at; `Survivors` states the outcome directly on the original list.
 */
module InstantHits {
  import opened Geometry
  import opened Splice

  /** Targets closer than this to the muzzle are hit when the shot is fired. */
  const HitRadius: real := 2.0

  predicate Hit(p: Vec3, t: Vec3) {
    Within(p, t, HitRadius)
  }

  /**
   * The targets left after one pass fired from p. Walking the original list: a target out of range
   * is kept; a target in range is removed, and the one right behind it is kept without a test.
   */
  function Survivors(ts: seq<Vec3>, p: Vec3): seq<Vec3>
    decreases |ts|
  {
    if ts == [] then []
    else if Hit(p, ts[0]) then
      if |ts| == 1 then [] else [ts[1]] + Survivors(ts[2..], p)
    else [ts[0]] + Survivors(ts[1..], p)
  }

  /** Survivors unfolded at position i of a list, for reasoning about a pass that is under way. */
  lemma SurvivorsFrom(ts: seq<Vec3>, i: nat, p: Vec3)
    requires i < |ts|
    ensures Survivors(ts[i..], p) ==
      if !Hit(p, ts[i]) then [ts[i]] + Survivors(ts[i + 1..], p)
      else if i + 1 == |ts| then []
      else [ts[i + 1]] + Survivors(ts[i + 2..], p)
  {
    assert ts[i..][1..] == ts[i + 1..];
    if i + 1 < |ts| {
      assert ts[i..][2..] == ts[i + 2..];
    }
  }

  /**
   * The state of a pass over start that is under way: index is the next slot the pass visits and
   * ts the list as it stands. Everything before index is final; from index on, ts is the untouched
   * tail of start. Once index has passed the end of ts, the pass has nothing left to do.
   */
  ghost predicate PassUnderWay(start: seq<Vec3>, p: Vec3, ts: seq<Vec3>, index: nat) {
    && |ts| <= |start|
    && (index <= |ts| ==>
          && ts[index..] == start[index + |start| - |ts|..]
          && Survivors(start, p) == ts[..index] + Survivors(start[index + |start| - |ts|..], p))
    && (index > |ts| ==> ts == Survivors(start, p))
  }

  lemma PassBegins(start: seq<Vec3>, p: Vec3)
    ensures PassUnderWay(start, p, start, 0)
  {
    assert start[0..] == start;
  }

  /** Visiting slot index: a target in range is spliced out, any other is kept; either way the index moves on. */
  lemma PassVisits(start: seq<Vec3>, p: Vec3, ts: seq<Vec3>, index: nat)
    requires PassUnderWay(start, p, ts, index) && index < |ts|
    ensures Hit(p, ts[index]) ==> PassUnderWay(start, p, Remove(ts, index), index + 1)
    ensures !Hit(p, ts[index]) ==> PassUnderWay(start, p, ts, index + 1)
  {
    var m := index + |start| - |ts|;
    SurvivorsFrom(start, m, p);
    assert ts[index] == start[m];
    if Hit(p, ts[index]) {
      var after := Remove(ts, index);
      if m + 1 < |start| {
        assert after[..index + 1] == ts[..index] + [start[m + 1]];
        assert after[index + 1..] == start[m + 2..];
      } else {
        assert after == ts[..index];
      }
    } else {
      assert ts[..index + 1] == ts[..index] + [start[m]];
    }
  }

  /** A slot beyond the end of the list is not visited. */
  lemma PassPasses(start: seq<Vec3>, p: Vec3, ts: seq<Vec3>, index: nat)
    requires PassUnderWay(start, p, ts, index) && index >= |ts|
    ensures PassUnderWay(start, p, ts, index + 1)
  {
    if index == |ts| {
      assert start[|start|..] == [];
      assert ts[..index] == ts;
    }
  }

  /** After the last slot of the original list the pass has produced Survivors. */
  lemma PassEnds(start: seq<Vec3>, p: Vec3, ts: seq<Vec3>, index: nat)
    requires PassUnderWay(start, p, ts, index) && index >= |start|
    ensures ts == Survivors(start, p)
  {
    if index <= |ts| {
      assert start[|start|..] == [];
      assert ts[..index] == ts;
    }
  }

  /** The surviving targets keep their relative order. */
  lemma {:induction false} SurvivorsKeepOrder(ts: seq<Vec3>, p: Vec3)
    ensures IsSubsequence(Survivors(ts, p), ts)
    decreases |ts|
  {
    if ts == [] {
    } else if Hit(p, ts[0]) {
      if |ts| == 1 {
      } else {
        SurvivorsKeepOrder(ts[2..], p);
        SubsequenceCons(ts[1], Survivors(ts[2..], p), ts[2..]);
        assert [ts[1]] + ts[2..] == ts[1..];
        SubsequenceSkip(ts[0], [ts[1]] + Survivors(ts[2..], p), ts[1..]);
        assert [ts[0]] + ts[1..] == ts;
      }
    } else {
      SurvivorsKeepOrder(ts[1..], p);
      SubsequenceCons(ts[0], Survivors(ts[1..], p), ts[1..]);
      assert [ts[0]] + ts[1..] == ts;
    }
  }

  /**
   * Only targets within the hit radius are removed: every target out of range survives with all
   * of its copies, and no target is gained.
   */
  lemma {:induction false} SurvivorsKeepMisses(ts: seq<Vec3>, p: Vec3, t: Vec3)
    requires !Hit(p, t)
    ensures multiset(Survivors(ts, p))[t] == multiset(ts)[t]
    ensures multiset(Survivors(ts, p)) <= multiset(ts)
  {
    SurvivorsCountMiss(ts, p, t);
    SurvivorsKeepOrder(ts, p);
    SubsequenceMultiset(Survivors(ts, p), ts);
  }

  lemma {:induction false} SurvivorsCountMiss(ts: seq<Vec3>, p: Vec3, t: Vec3)
    requires !Hit(p, t)
    ensures multiset(Survivors(ts, p))[t] == multiset(ts)[t]
    decreases |ts|
  {
    if ts == [] {
    } else if Hit(p, ts[0]) {
      assert ts[0] != t;
      if |ts| == 1 {
        assert ts == [ts[0]];
      } else {
        var rest := Survivors(ts[2..], p);
        SurvivorsCountMiss(ts[2..], p, t);
        assert ts == [ts[0]] + ([ts[1]] + ts[2..]);
        assert multiset(ts)[t] == multiset(ts[2..])[t] + (if ts[1] == t then 1 else 0);
      }
    } else {
      SurvivorsCountMiss(ts[1..], p, t);
      assert ts == [ts[0]] + ts[1..];
    }
  }

  /** The pass removes at most every other target: no more than half of them, rounded up. */
  lemma {:induction false} SurvivorsRemovalBound(ts: seq<Vec3>, p: Vec3)
    ensures |Survivors(ts, p)| <= |ts|
    ensures 2 * |Survivors(ts, p)| + 1 >= |ts|
    decreases |ts|
  {
    if ts == [] {
    } else if Hit(p, ts[0]) {
      if |ts| > 1 {
        SurvivorsRemovalBound(ts[2..], p);
      }
    } else {
      SurvivorsRemovalBound(ts[1..], p);
    }
  }

  /** If any target is in range, the pass removes at least one (the first in range is always examined). */
  lemma {:induction false} SurvivorsFirstHitRemoved(ts: seq<Vec3>, p: Vec3, i: nat)
    requires i < |ts| && Hit(p, ts[i])
    ensures |Survivors(ts, p)| < |ts|
    decreases |ts|
  {
    if Hit(p, ts[0]) {
      if |ts| > 1 {
        SurvivorsRemovalBound(ts[2..], p);
      }
    } else {
      SurvivorsFirstHitRemoved(ts[1..], p, i - 1);
    }
  }

  /** With no target in range the pass changes nothing. */
  lemma {:induction false} SurvivorsWhenNoneHit(ts: seq<Vec3>, p: Vec3)
    requires forall i :: 0 <= i < |ts| ==> !Hit(p, ts[i])
    ensures Survivors(ts, p) == ts
    decreases |ts|
  {
    if ts != [] {
      SurvivorsWhenNoneHit(ts[1..], p);
      assert [ts[0]] + ts[1..] == ts;
    }
  }

  /** The target right behind a removed one is kept unexamined, even when it is in range too. */
  lemma SurvivorsSkipNext(t: Vec3, u: Vec3, rest: seq<Vec3>, p: Vec3)
    requires Hit(p, t)
    ensures Survivors([t, u] + rest, p) == [u] + Survivors(rest, p)
  {
    assert ([t, u] + rest)[2..] == rest;
  }
}
