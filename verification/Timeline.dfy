// Random access in time over consecutive pieces with a cached current piece: a player moves
// forward from the piece it has, and goes back to the first one when that is already too late.
module Timeline {
  import opened Basics
  import opened TrajectoryFormat

  /** A query time in seconds; playback may be asked for the end of time. */
  datatype Time = Finite(t: real) | Infinite

  const UINT32_MAX: nat := 0xFFFF_FFFF

  function Sec(msec: nat): real { msec as real / 1000.0 }

  /** When piece k starts, in milliseconds; piece |ds| is the hold after the last one. */
  function StartMsec(ds: seq<nat>, k: nat): nat
    requires k <= |ds|
  {
    Sum(ds[..k])
  }

  predicate StartsAfter(ds: seq<nat>, k: nat, t: Time)
    requires k <= |ds|
  {
    t.Finite? && Sec(StartMsec(ds, k)) > t.t
  }

  predicate EndsBefore(ds: seq<nat>, k: nat, t: Time)
    requires k <= |ds|
  {
    k < |ds| && (t.Infinite? || Sec(StartMsec(ds, k + 1)) < t.t)
  }

  function Forward(ds: seq<nat>, k: nat, t: Time): (j: nat)
    requires k <= |ds|
    ensures k <= j <= |ds|
    decreases |ds| - k
  {
    if EndsBefore(ds, k, t) then Forward(ds, k + 1, t) else k
  }

  /** The piece that a player with piece k at hand ends up with. */
  function Land(ds: seq<nat>, k: nat, t: Time): (j: nat)
    requires k <= |ds|
    ensures j <= |ds|
  {
    if StartsAfter(ds, k, t) then Forward(ds, 0, t) else Forward(ds, k, t)
  }

  /** A negative time counts as zero. */
  function Clip(t: Time): Time { if t.Finite? && t.t <= 0.0 then Finite(0.0) else t }

  ghost predicate Contains(ds: seq<nat>, k: nat, t: Time) {
    k <= |ds| && !StartsAfter(ds, k, t) && !EndsBefore(ds, k, t)
  }

  ghost predicate Positive(ds: seq<nat>) { forall i :: 0 <= i < |ds| ==> ds[i] > 0 }

  lemma StartStep(ds: seq<nat>, k: nat)
    requires k < |ds|
    ensures StartMsec(ds, k + 1) == StartMsec(ds, k) + ds[k]
  {
    assert ds[..k + 1] == ds[..k] + [ds[k]];
    SumConcat(ds[..k], [ds[k]]);
    assert [ds[k]][1..] == [];
  }

  lemma StartOfFirst(ds: seq<nat>)
    ensures StartMsec(ds, 0) == 0 && StartMsec(ds, |ds|) == Sum(ds)
  {
    assert ds[..|ds|] == ds;
  }

  lemma {:induction false} StartMonotone(ds: seq<nat>, i: nat, j: nat)
    requires i <= j <= |ds|
    ensures StartMsec(ds, i) <= StartMsec(ds, j)
    ensures Positive(ds) && i < j ==> StartMsec(ds, i) < StartMsec(ds, j)
    decreases j
  {
    if i < j {
      StartMonotone(ds, i, j - 1);
      StartStep(ds, j - 1);
    }
  }

  lemma {:induction false} ForwardContains(ds: seq<nat>, k: nat, t: Time)
    requires k <= |ds| && !StartsAfter(ds, k, t)
    ensures Contains(ds, Forward(ds, k, t), t)
    decreases |ds| - k
  {
    if EndsBefore(ds, k, t) { ForwardContains(ds, k + 1, t); }
  }

  /** From any piece the player ends up with one that contains the time. */
  lemma LandContains(ds: seq<nat>, k: nat, t: Time)
    requires k <= |ds|
    ensures Contains(ds, Land(ds, k, Clip(t)), Clip(t))
  {
    StartOfFirst(ds);
    if StartsAfter(ds, k, Clip(t)) {
      ForwardContains(ds, 0, Clip(t));
    } else {
      ForwardContains(ds, k, Clip(t));
    }
  }

  /** With positive durations two pieces contain the same time only when they are neighbours
      and the time is the joint between them. */
  lemma NeighboursOnly(ds: seq<nat>, i: nat, j: nat, t: Time)
    requires Positive(ds) && i < j && Contains(ds, i, t) && Contains(ds, j, t)
    ensures j == i + 1 && t == Finite(Sec(StartMsec(ds, j)))
  {
    StartMonotone(ds, i + 1, j);
  }

  /** The pieces that contain a time are consecutive. */
  lemma NoGap(ds: seq<nat>, i: nat, m: nat, j: nat, t: Time)
    requires i <= m <= j && Contains(ds, i, t) && Contains(ds, j, t)
    ensures Contains(ds, m, t)
  {
    StartMonotone(ds, m, j);
    if m < j { StartMonotone(ds, i + 1, m + 1); }
  }

  /** If neighbours that contain a time give the same answer, all pieces that contain it do. */
  lemma {:induction false} AgreeAcross(ds: seq<nat>, i: nat, j: nat, t: Time, answer: Answer)
    requires i <= j && Contains(ds, i, t) && Contains(ds, j, t)
    requires forall m: nat :: Contains(ds, m, t) && Contains(ds, m + 1, t) ==> answer(m) == answer(m + 1)
    ensures answer(i) == answer(j)
    decreases j - i
  {
    if i < j {
      NoGap(ds, i, j - 1, j, t);
      AgreeAcross(ds, i, j - 1, t, answer);
      assert Contains(ds, (j - 1) + 1, t);
    }
  }

  // ---- answers, and when they depend on the cached piece ----

  /** Some quantity that a player computes from a piece, by the number of the piece. */
  type Answer = nat -> real

  /** The same answer is given whatever piece is cached. */
  ghost predicate SameAnswer(ds: seq<nat>, t: Time, answer: Answer) {
    forall k: nat :: k <= |ds| ==> AsFresh(ds, k, t, answer)
  }

  ghost predicate AsFresh(ds: seq<nat>, k: nat, t: Time, answer: Answer)
    requires k <= |ds|
  {
    answer(Land(ds, k, Clip(t))) == answer(Land(ds, 0, Clip(t)))
  }

  /** Two neighbours contain the same time exactly at the joint between them. */
  lemma MeetAtJoint(ds: seq<nat>, k: nat, t: Time)
    ensures Contains(ds, k, t) && Contains(ds, k + 1, t)
            <==> k < |ds| && t == Finite(Sec(StartMsec(ds, k + 1)))
  {
    if k < |ds| {
      StartStep(ds, k);
      if k + 1 < |ds| { StartStep(ds, k + 1); }
    }
  }

  /** At a joint the same answer is given whatever is cached only if its two pieces agree. */
  lemma JointAgrees(ds: seq<nat>, k: nat, answer: Answer)
    requires k < |ds| && SameAnswer(ds, Finite(Sec(StartMsec(ds, k + 1))), answer)
    ensures answer(k) == answer(k + 1)
  {
    hide Land, Contains, StartMsec;
    var t := Finite(Sec(StartMsec(ds, k + 1)));
    MeetAtJoint(ds, k, t);
    StaysPut(ds, k, t);
    StaysPut(ds, k + 1, t);
    assert AsFresh(ds, k, t, answer) && AsFresh(ds, k + 1, t, answer);
  }

  /** If the two pieces of the joint at this time agree, for every such joint, the same answer is
      given whatever is cached. */
  lemma JointsSuffice(ds: seq<nat>, t: Time, answer: Answer)
    requires forall m: nat :: m < |ds| && Clip(t) == Finite(Sec(StartMsec(ds, m + 1))) ==> answer(m) == answer(m + 1)
    ensures SameAnswer(ds, t, answer)
    ensures forall m: nat :: Contains(ds, m, Clip(t)) ==> answer(m) == answer(Land(ds, 0, Clip(t)))
  {
    hide Land, Contains, StartMsec;
    forall m: nat | Contains(ds, m, Clip(t)) && Contains(ds, m + 1, Clip(t)) ensures answer(m) == answer(m + 1) {
      MeetAtJoint(ds, m, Clip(t));
    }
    var first := Land(ds, 0, Clip(t));
    LandContains(ds, 0, t);
    forall j: nat | Contains(ds, j, Clip(t)) ensures answer(j) == answer(first) {
      if first <= j { AgreeAcross(ds, first, j, Clip(t), answer); } else { AgreeAcross(ds, j, first, Clip(t), answer); }
    }
    forall k: nat | k <= |ds| ensures AsFresh(ds, k, t, answer) {
      LandContains(ds, k, t);
    }
  }

  lemma StaysPut(ds: seq<nat>, k: nat, t: Time)
    requires Contains(ds, k, t)
    ensures k <= |ds| && Land(ds, k, t) == k
  {
  }

  /** The first piece that contains a time is where a player that starts before it ends up. */
  lemma {:induction false} FirstIsFound(ds: seq<nat>, k: nat, i: nat, t: Time)
    requires Positive(ds) && k <= i && Contains(ds, i, t) && (i == k || !Contains(ds, i - 1, t))
    ensures Forward(ds, k, t) == i
    decreases i - k
  {
    if k < i {
      StartMonotone(ds, k, i);
      if Contains(ds, k, t) { NeighboursOnly(ds, k, i, t); }
      FirstIsFound(ds, k + 1, i, t);
    }
  }

  /** The relative time within piece k; the middle of a piece that takes no time. */
  function RelativeTime(ds: seq<nat>, k: nat, t: Time): real
    requires k <= |ds|
  {
    if t.Infinite? then 1.0
    else if k == |ds| then 0.0
    else if AbsReal(Sec(ds[k])) > 0.000001 then (t.t - Sec(StartMsec(ds, k))) / Sec(ds[k])
    else 0.5
  }

  /** The time, in seconds, at which the fraction u of d ms has passed after the first `start` ms. */
  function Moment(start: nat, u: real, d: nat): (t: Time)
    ensures t.Finite?
  {
    Finite((start as real + Share(u, d as real)) / 1000.0)
  }

  function Share(u: real, d: real): real { u * d }

  /** That fraction of piece k. */
  lemma MomentInside(ds: seq<nat>, k: nat, u: real)
    requires k < |ds| && ds[k] > 0 && 0.0 <= u <= 1.0
    ensures var t := Moment(Sum(ds[..k]), u, ds[k]);
            t.t >= 0.0 && Contains(ds, k, t) && RelativeTime(ds, k, t) == u
  {
    hide Sum, Contains, RelativeTime, Share;
    Portion(u, ds[k] as real);
    WholeFraction(u, ds[k] as real);
    InsideAt(ds, k, Share(u, ds[k] as real), u);
  }

  /** A time within a piece: so many milliseconds after the durations before it. */
  lemma InsideAt(ds: seq<nat>, k: nat, part: real, u: real)
    requires k < |ds| && ds[k] > 0 && 0.0 <= part <= ds[k] as real && (part / 1000.0) / (ds[k] as real / 1000.0) == u
    ensures var t := Finite((Sum(ds[..k]) as real + part) / 1000.0);
            t.t >= 0.0 && Contains(ds, k, t) && RelativeTime(ds, k, t) == u
  {
    StartStep(ds, k);
    hide Sum;
    var start, d := Sum(ds[..k]), ds[k];
    assert (start as real + part) / 1000.0 == Sec(start) + part / 1000.0;
    assert Sec(start + d) == Sec(start) + Sec(d);
    assert Sec(d) > 0.000001;
  }

  lemma Portion(u: real, d: real)
    requires d > 0.0 && 0.0 <= u <= 1.0
    ensures 0.0 <= Share(u, d) <= d
  {
    assert (1.0 - u) * d >= 0.0;
  }

  lemma WholeFraction(u: real, d: real)
    requires d > 0.0
    ensures (Share(u, d) / 1000.0) / (d / 1000.0) == u
  {
    var q := (u * d / 1000.0) / (d / 1000.0);
    assert q * (d / 1000.0) == u * d / 1000.0;
    assert (q - u) * d == 0.0;
  }

  lemma SecSum(a: nat, b: nat)
    ensures Sec(a + b) == Sec(a) + Sec(b) && Sec(0) == 0.0
    ensures a > 0 ==> Sec(a) > 0.000001
  {
  }

  lemma ContainsBound(ds: seq<nat>, k: nat, t: Time)
    requires Contains(ds, k, t)
    ensures k <= |ds|
  {
  }

  lemma RestStart(ds: seq<nat>, k: nat)
    requires 1 <= k <= |ds|
    ensures StartMsec(ds[1..], k - 1) == StartMsec(ds, k) - ds[0]
  {
    assert ds[..k][1..] == ds[1..][..k - 1];
  }

  /** Seen from the second piece on, everything happens one duration earlier. */
  lemma RestTime(ds: seq<nat>, k: nat, t: real)
    requires 1 <= k && ds != [] && Contains(ds, k, Finite(t))
    ensures var d := Sec(ds[0]);
            Contains(ds[1..], k - 1, Finite(t - d)) && t >= d && k <= |ds|
            && RelativeTime(ds[1..], k - 1, Finite(t - d)) == RelativeTime(ds, k, Finite(t))
  {
    var rest := ds[1..];
    RestStart(ds, k);
    SecSum(StartMsec(rest, k - 1), ds[0]);
    if k < |ds| {
      RestStart(ds, k + 1);
      SecSum(StartMsec(rest, k), ds[0]);
    }
    hide StartMsec;
  }

  /** And back. */
  lemma RestContains(ds: seq<nat>, k: nat, t: real)
    requires 1 <= k && ds != [] && Contains(ds[1..], k - 1, Finite(t - Sec(ds[0])))
    ensures Contains(ds, k, Finite(t))
  {
    RestStart(ds, k);
    SecSum(StartMsec(ds[1..], k - 1), ds[0]);
    if k < |ds| {
      RestStart(ds, k + 1);
      SecSum(StartMsec(ds[1..], k), ds[0]);
    }
    hide StartMsec;
  }

  lemma FirstEnds(ds: seq<nat>, t: real)
    requires ds != [] && Contains(ds, 0, Finite(t))
    ensures t <= Sec(ds[0])
  {
    StartStep(ds, 0);
    StartOfFirst(ds);
  }

  lemma NoWrap(ds: seq<nat>, k: nat)
    requires k < |ds| && Sum(ds) < UINT32_MODULUS
    ensures StartMsec(ds, k + 1) == StartMsec(ds, k) + ds[k]
    ensures (StartMsec(ds, k) + ds[k]) % UINT32_MODULUS == StartMsec(ds, k) + ds[k]
  {
    StartStep(ds, k);
    StartMonotone(ds, k + 1, |ds|);
    StartOfFirst(ds);
    hide StartMsec, Sum;
    SmallRemainder(StartMsec(ds, k) + ds[k], UINT32_MODULUS);
  }

  lemma SmallRemainder(x: nat, m: nat)
    requires x < m
    ensures x % m == x
  {
  }
}
