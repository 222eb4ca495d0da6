/**
  CVBlankTimer (src/vblankmanager.cpp): when to wake up so that a frame is drawn in time for a vblank, and how the
  time kept for drawing follows the times measured. All times are unsigned 64-bit nanoseconds, so every sum,
  product and difference below is also proved not to wrap around.
*/
module VBlank {
  import opened Options

  newtype uint64 = x: int | 0 <= x < 0x1_0000_0000_0000_0000
  newtype int64 = x: int | -0x8000_0000_0000_0000 <= x < 0x8000_0000_0000_0000

  const STARTING_DRAW_TIME: uint64 := 3_000_000
  const RED_ZONE: uint64 := 1_650_000
  const DRAW_TIME_MIN_COMPOSITING: uint64 := 2_400_000
  const DECAY: uint64 := 980
  const DECAY_MAX: uint64 := 1000
  const VRR_FLUSHING_TIME: uint64 := 300_000

  /** mHzToRefreshCycle, which returns 32 bits. */
  function RefreshInterval(mHz: nat): nat
    requires mHz > 0
  {
    (1_000_000_000_000 + mHz / 2 - 1) / mHz % 0x1_0000_0000
  }

  /** Rounded to the nearest nanosecond, unless it does not fit the 32 bits, which takes less than 0.233 Hz. */
  lemma IntervalTimesRate(mHz: nat)
    requires 233 <= mHz
    ensures var product := RefreshInterval(mHz) * mHz;
            1_000_000_000_000 - (mHz + 1) / 2 <= product <= 1_000_000_000_000 + mHz / 2 - 1
  {
    var a := 1_000_000_000_000 + mHz / 2 - 1;
    var q := a / mHz;
    assert q < 0x1_0000_0000 by {
      if q >= 0x1_0000_0000 {
        QuotientBounds(a, mHz, 0x1_0000_0000);
      }
    }
    assert q * mHz + a % mHz == a;
  }

  function Min(a: int, b: int): int {
    if a < b then a else b
  }

  // ----- The red zone -----

  /** The red zone of an external display. The refresh rate is in mHz and the factor 60000 cancels out. */
  function ExternalRedZone(redZone: nat, mHz: nat): nat {
    Min(redZone, redZone * 60_000 * mHz / 60_000)
  }

  /** So the scaling to the refresh rate that the source announces never takes place. */
  lemma RedZoneIsNeverScaled(redZone: nat, mHz: nat)
    requires mHz > 0
    ensures ExternalRedZone(redZone, mHz) == redZone
  {
    var p := redZone * mHz;
    assert redZone * 60_000 * mHz == p * 60_000;
    assert p * 60_000 / 60_000 == p;
    assert redZone * (mHz - 1) >= 0;
  }

  /** The scaling the source announces: the red zone is meant for 60 Hz, so it shrinks with the time of a refresh. */
  function ScaledRedZone(redZone: nat, mHz: nat): nat
    requires mHz > 0
  {
    Min(redZone, redZone * 60_000 / mHz)
  }

  /** The two agree exactly up to 60 Hz, where the bound leaves the red zone alone anyway. */
  lemma RedZoneIsScaledRightIff(redZone: nat, mHz: nat)
    requires mHz > 0
    ensures ExternalRedZone(redZone, mHz) == ScaledRedZone(redZone, mHz) <==> redZone == 0 || mHz <= 60_000
  {
    hide ExternalRedZone;
    RedZoneIsNeverScaled(redZone, mHz);
    var p := redZone * 60_000;
    if redZone <= p / mHz {
      QuotientBounds(p, mHz, redZone);
    }
    if redZone * mHz <= p {
      QuotientHolds(p, mHz, redZone);
    }
    FactorIff(redZone, mHz, 60_000);
  }

  lemma FactorIff(x: nat, a: nat, b: nat)
    ensures x * a <= x * b <==> x == 0 || a <= b
  {
    if a <= b {
      assert x * (b - a) >= 0;
    } else if x > 0 {
      assert x * (a - b) > 0;
    }
  }

  /** The highest refresh rate in mHz at which the scaling does not wrap around, about 186 kHz. */
  const RATE_LIMIT: uint64 := 186_330_748

  lemma ScalingFitsIff(mHz: nat)
    ensures RED_ZONE as int * 60_000 * mHz < 0x1_0000_0000_0000_0000 <==> mHz <= RATE_LIMIT as int
  {}

  // ----- The rolling draw time -----

  /** The most the draw time may take. A refresh shorter than the red zone makes the difference wrap around. */
  function Cap(redZone: nat, interval: nat): nat
    requires redZone <= 0x1_0000_0000_0000_0000
  {
    if redZone <= interval then interval - redZone else interval + 0x1_0000_0000_0000_0000 - redZone
  }

  /** The draw time kept after one re-arm, for the last draw time `draw`. */
  function Rolling(rolling: nat, draw: nat, redZone: nat, cap: nat): nat {
    var next := if draw - redZone / 2 > rolling then draw else (980 * rolling + 20 * draw) / 1000;
    Min(next, cap)
  }

  // ----- The timer -----

  datatype Schedule = Schedule(targetVBlank: uint64, wakeup: uint64)

  /** The k-th vblank after the last one, woken up for `offset` early. */
  ghost predicate OnGrid(wakeup: int, last: int, interval: int, offset: int, k: nat) {
    wakeup == last + k * interval - offset
  }

  /** The earliest such point at or after now, with k at least 1. */
  ghost predicate Earliest(wakeup: int, last: int, interval: int, offset: int, k: nat, now: int) {
    && k >= 1 && OnGrid(wakeup, last, interval, offset, k) && now <= wakeup
    && (k > 1 ==> wakeup - interval < now)
  }

  /** The clock, the refresh rate in mHz, and the display. */
  datatype Env = Env(now: uint64, mHz: uint64, vrr: bool, internal: bool)

  /** A century in nanoseconds bounds the clock; draw times are bounded by half a year. */
  const CLOCK_LIMIT: uint64 := 4_000_000_000_000_000_000
  const DRAW_LIMIT: uint64 := 16_000_000_000_000_000

  class VBlankTimer {
    var lastVBlank: uint64
    var armed: bool
    var pending: Option<Schedule>
    var schedule: Schedule
    var compositing: bool
    var lastDrawTime: uint64
    var rollingMaxDrawTime: uint64

    ghost predicate Valid()
      reads this
    {
      lastVBlank <= CLOCK_LIMIT && lastDrawTime <= DRAW_LIMIT && rollingMaxDrawTime <= DRAW_LIMIT
    }

    constructor (now: uint64)
      requires now <= CLOCK_LIMIT
      ensures Valid() && lastVBlank == now && !armed && pending == None && rollingMaxDrawTime == STARTING_DRAW_TIME
    {
      lastVBlank, armed, pending, schedule := now, false, None, Schedule(0, 0);
      compositing, lastDrawTime, rollingMaxDrawTime := false, STARTING_DRAW_TIME, STARTING_DRAW_TIME;
    }

    /** The catch-up loop ends at the earliest grid point. */
    method GetNextVBlank(offset: uint64, now: uint64, interval: uint64) returns (target: uint64, ghost k: nat)
      requires 0 < interval < 0x1_0000_0000 && lastVBlank <= CLOCK_LIMIT && now <= CLOCK_LIMIT
      requires offset <= lastVBlank + interval
      ensures Earliest(target as int, lastVBlank as int, interval as int, offset as int, k, now as int)
      ensures target <= 2 * CLOCK_LIMIT
    {
      target := lastVBlank + interval - offset;
      k := 1;
      while target < now
        invariant k >= 1 && OnGrid(target as int, lastVBlank as int, interval as int, offset as int, k)
        invariant k > 1 ==> target - interval < now
        invariant target <= 2 * CLOCK_LIMIT
        decreases now as int - target as int
      {
        NextOnGrid(target as int, lastVBlank as int, interval as int, offset as int, k);
        target := target + interval;
        k := k + 1;
      }
    }

    /** The draw time that counts: while compositing at least 2.4 ms. */
    function DrawTime(): uint64
      reads this
    {
      if compositing && lastDrawTime < DRAW_TIME_MIN_COMPOSITING then DRAW_TIME_MIN_COMPOSITING else lastDrawTime
    }

    /** The draw time of this turn, measured against the rolling one; differences are taken as signed. */
    method NewRolling(draw: uint64, zone: uint64, interval: uint64) returns (rolling: uint64)
      requires Valid() && draw <= DRAW_LIMIT && zone <= RED_ZONE && interval < 0x1_0000_0000
      ensures rolling as int == Rolling(rollingMaxDrawTime as int, draw as int, zone as int,
                                        Cap(zone as int, interval as int))
      ensures rolling <= DRAW_LIMIT
    {
      if draw as int64 - (zone / 2) as int64 > rollingMaxDrawTime as int64 {
        rolling := draw;
      } else {
        rolling := (DECAY * rollingMaxDrawTime + (DECAY_MAX - DECAY) * draw) / DECAY_MAX;
      }
      rolling := MinU(rolling, MinusU(interval, zone));
    }

    /** How early the wakeup comes. */
    ghost function Offset(vrr: bool, interval: nat): nat
      reads this
    {
      if vrr then VRR_FLUSHING_TIME as int + (if compositing then DRAW_TIME_MIN_COMPOSITING as int else 0)
      else NextRolling(interval) + RED_ZONE as int
    }

    /** The rolling draw time after a full re-arm without VRR. */
    ghost function NextRolling(interval: nat): nat
      reads this
    {
      Rolling(rollingMaxDrawTime as int, DrawTime() as int, RED_ZONE as int, Cap(RED_ZONE as int, interval))
    }

    /** The draw time that counts is the one measured, but while compositing not less than 2.4 ms. */
    lemma DrawTimeIs()
      ensures DrawTime() >= lastDrawTime && (compositing ==> DrawTime() >= 2_400_000)
      ensures DrawTime() == lastDrawTime || (compositing && DrawTime() == 2_400_000)
    {}

    /** With VRR 0.3 ms are left for the flush, and 2.4 ms more while compositing. */
    lemma OffsetWithVrr(interval: nat)
      ensures Offset(true, interval) == if compositing then 2_700_000 else 300_000
    {}

    /** A draw time measured far above the rolling one has its time before the next wakeup, where a refresh has it. */
    lemma SpikeHasItsTime(interval: nat)
      requires rollingMaxDrawTime as int + 825_000 < DrawTime() as int && DrawTime() as int + 1_650_000 <= interval
      ensures Offset(false, interval) == DrawTime() as int + 1_650_000
    {}

    /** Without VRR the wakeup comes at most one refresh early exactly when a refresh holds the red zone. */
    lemma AtMostOneRefreshEarlyIff(interval: nat)
      ensures Offset(false, interval) <= interval <==> RED_ZONE as int <= interval
    {}

    /** The offset of the wakeup, without VRR. */
    method OffsetFixedRate(preemptive: bool, mHz: uint64, interval: uint64, internal: bool) returns (offset: uint64)
      requires Valid() && 0 < mHz <= RATE_LIMIT && interval as int == RefreshInterval(mHz as nat)
      modifies this`rollingMaxDrawTime
      ensures Valid() && offset as int == old(Offset(false, interval as int)) && offset <= CLOCK_LIMIT
      ensures rollingMaxDrawTime as int ==
              if preemptive then old(rollingMaxDrawTime) as int else old(NextRolling(interval as int))
    {
      ScalingFitsIff(mHz as nat);
      RedZoneIsNeverScaled(RED_ZONE as nat, mHz as nat);
      assert interval < 0x1_0000_0000;
      hide RefreshInterval, Rolling, Cap;
      var zone := if internal then RED_ZONE else MinU(RED_ZONE, RED_ZONE * 60_000 * mHz / 60_000);
      assert zone == RED_ZONE;
      var draw := lastDrawTime;
      if compositing {
        draw := if draw > DRAW_TIME_MIN_COMPOSITING then draw else DRAW_TIME_MIN_COMPOSITING;
      }
      var rolling := NewRolling(draw, zone, interval);
      if !preemptive {
        rollingMaxDrawTime := rolling;
      }
      offset := rolling + zone;
    }

    method OffsetVrr(preemptive: bool) returns (offset: uint64)
      requires Valid()
      modifies this`rollingMaxDrawTime
      ensures Valid() && offset as int == Offset(true, 0) && offset <= CLOCK_LIMIT
      ensures rollingMaxDrawTime == if preemptive then old(rollingMaxDrawTime) else STARTING_DRAW_TIME
    {
      if !preemptive {
        rollingMaxDrawTime := STARTING_DRAW_TIME;
      }
      var draw: uint64 := 0;
      if compositing {
        draw := if draw > DRAW_TIME_MIN_COMPOSITING then draw else DRAW_TIME_MIN_COMPOSITING;
      }
      offset := draw + VRR_FLUSHING_TIME;
    }

    method MHzToRefreshCycle(mHz: uint64) returns (interval: uint64)
      requires 0 < mHz < 0x8000_0000
      ensures interval as int == RefreshInterval(mHz as nat) && interval < 0x1_0000_0000
    {
      interval := (1_000_000_000_000 + mHz / 2 - 1) / mHz % 0x1_0000_0000;
    }

    /** What the scheduler needs: a refresh rate, and a last vblank from which the offset can be taken away. */
    ghost predicate Ready(last: uint64, env: Env)
      reads this
    {
      && env.now <= CLOCK_LIMIT && 0 < env.mHz <= RATE_LIMIT && 0 < RefreshInterval(env.mHz as nat)
      && Offset(env.vrr, RefreshInterval(env.mHz as nat)) <= last as int + RefreshInterval(env.mHz as nat)
    }

    /**
      CalcNextWakeupTime for a refresh rate in mHz. The target is a vblank of the grid that starts at the last one,
      the wakeup is the earliest one that has not passed yet, and without VRR it comes at most one refresh early
      exactly when a refresh holds the red zone.
    */
    method CalcNextWakeupTime(preemptive: bool, env: Env) returns (r: Schedule, ghost k: nat)
      requires Valid() && Ready(lastVBlank, env)
      modifies this`rollingMaxDrawTime
      ensures Valid()
      ensures TimedRight(r, lastVBlank, RefreshInterval(env.mHz as nat), env.now, k)
      ensures r.targetVBlank as int - r.wakeup as int == old(Offset(env.vrr, RefreshInterval(env.mHz as nat)))
      ensures !env.vrr ==> (r.targetVBlank as int - r.wakeup as int <= RefreshInterval(env.mHz as nat) <==>
                            RED_ZONE as int <= RefreshInterval(env.mHz as nat))
      ensures rollingMaxDrawTime as int ==
              if preemptive then old(rollingMaxDrawTime) as int
              else if env.vrr then STARTING_DRAW_TIME as int
              else old(NextRolling(RefreshInterval(env.mHz as nat)))
    {
      hide RefreshInterval, NextRolling;
      var interval := MHzToRefreshCycle(env.mHz);
      AtMostOneRefreshEarlyIff(interval as int);
      var offset: uint64;
      if !env.vrr {
        offset := OffsetFixedRate(preemptive, env.mHz, interval, env.internal);
      } else {
        offset := OffsetVrr(preemptive);
      }
      var wakeup;
      wakeup, k := GetNextVBlank(offset, env.now, interval);
      r := Schedule(wakeup + offset, wakeup);
    }

    /** A pre-emptive re-arm does nothing when a wakeup is pending, and never changes the rolling draw time. */
    method ArmNextVBlank(preemptive: bool, env: Env) returns (ghost k: nat)
      requires Valid() && (!(preemptive && armed) ==> Ready(lastVBlank, env))
      modifies this`armed, this`schedule, this`rollingMaxDrawTime
      ensures Valid() && armed
      ensures preemptive && old(armed) ==> schedule == old(schedule)
      ensures !(preemptive && old(armed)) ==>
                TimedRight(schedule, lastVBlank, RefreshInterval(env.mHz as nat), env.now, k)
      ensures preemptive ==> rollingMaxDrawTime == old(rollingMaxDrawTime)
      ensures !preemptive ==>
                rollingMaxDrawTime as int ==
                (if env.vrr then STARTING_DRAW_TIME as int else old(NextRolling(RefreshInterval(env.mHz as nat))))
    {
      k := 0;
      if preemptive && armed {
        return;
      }
      armed := true;
      assert Ready(lastVBlank, env) && Offset(env.vrr, RefreshInterval(env.mHz as nat)) ==
             old(Offset(env.vrr, RefreshInterval(env.mHz as nat)));
      assert NextRolling(RefreshInterval(env.mHz as nat)) == old(NextRolling(RefreshInterval(env.mHz as nat)));
      hide RefreshInterval, NextRolling, Offset, TimedRight;
      schedule, k := CalcNextWakeupTime(preemptive, env);
    }

    /** The timerfd branch of OnPollIn: the armed schedule becomes pending, once. */
    method OnPollIn()
      modifies this`armed, this`pending
      ensures !armed && pending == if old(armed) then Some(schedule) else old(pending)
    {
      if !armed { return; }
      armed := false;
      pending := Some(schedule);
    }

    method ProcessVBlank() returns (r: Option<Schedule>)
      modifies this`pending
      ensures r == old(pending) && pending == None
    {
      r, pending := pending, None;
    }

    method MarkVBlank(nanos: uint64, reArm: bool, env: Env) returns (ghost k: nat)
      requires Valid() && nanos <= CLOCK_LIMIT && (reArm ==> Ready(nanos, env))
      modifies this`lastVBlank, this`armed, this`schedule, this`rollingMaxDrawTime
      ensures Valid() && lastVBlank == nanos
      ensures if reArm then armed && TimedRight(schedule, nanos, RefreshInterval(env.mHz as nat), env.now, k)
              else armed == old(armed) && schedule == old(schedule)
      ensures rollingMaxDrawTime as int ==
              if !reArm then old(rollingMaxDrawTime) as int
              else if env.vrr then STARTING_DRAW_TIME as int
              else old(NextRolling(RefreshInterval(env.mHz as nat)))
    {
      k := 0;
      lastVBlank := nanos;
      if reArm {
        assert Ready(nanos, env);
        assert NextRolling(RefreshInterval(env.mHz as nat)) == old(NextRolling(RefreshInterval(env.mHz as nat)));
        hide RefreshInterval, NextRolling, Offset, TimedRight;
        k := ArmNextVBlank(false, env);
      }
    }
  }

  /** The schedule aims at the k-th vblank after the last, and its wakeup is the earliest that is not in the past. */
  ghost predicate TimedRight(r: Schedule, last: uint64, interval: int, now: uint64, k: nat) {
    var offset := r.targetVBlank as int - r.wakeup as int;
    && 0 <= offset && r.targetVBlank as int == last as int + k * interval
    && Earliest(r.wakeup as int, last as int, interval, offset, k, now as int)
  }

  function MinU(a: uint64, b: uint64): uint64 {
    if a < b then a else b
  }

  /** The unsigned difference. */
  function MinusU(a: uint64, b: uint64): (r: uint64)
    requires b <= RED_ZONE
    ensures a < 0x1_0000_0000 ==> r as int == Cap(b as int, a as int)
  {
    if b <= a then a - b else a + (0xFFFF_FFFF_FFFF_FFFF - b) + 1
  }

  /** A refresh interval that holds the red zone bounds the refresh rate. */
  lemma RateIsBounded(mHz: nat)
    requires 0 < mHz && RED_ZONE as int <= RefreshInterval(mHz)
    ensures mHz < 1_000_000
  {
    var a := 1_000_000_000_000 + mHz / 2 - 1;
    QuotientBounds(a, mHz, 1_650_000);
  }

  lemma QuotientBounds(a: nat, b: nat, q: nat)
    requires b > 0 && q <= a / b
    ensures q * b <= a
  {
    var r := a / b;
    assert r * b <= a;
    assert (r - q) * b >= 0;
  }

  lemma QuotientHolds(a: nat, b: nat, q: nat)
    requires b > 0 && q * b <= a
    ensures q <= a / b
  {
    var r := a / b;
    assert (q - 1 - r) * b < 0;
  }

  lemma NextOnGrid(wakeup: int, last: int, interval: int, offset: int, k: nat)
    requires OnGrid(wakeup, last, interval, offset, k)
    ensures OnGrid(wakeup + interval, last, interval, offset, k + 1)
  {}

  // ----- Where the rolling draw time ends up -----

  /** The rolling draw time after n re-arms with the same draw time. */
  function Iterate(rolling: nat, draw: nat, redZone: nat, cap: nat, n: nat): nat
    decreases n
  {
    if n == 0 then rolling else Iterate(Rolling(rolling, draw, redZone, cap), draw, redZone, cap, n - 1)
  }

  /** A run of re-arms, pre-emptive where the entry is true; only the others move the rolling draw time. */
  function AfterArms(rolling: nat, draw: nat, redZone: nat, cap: nat, preemptive: seq<bool>): nat
    decreases |preemptive|
  {
    if preemptive == [] then rolling
    else AfterArms(if preemptive[0] then rolling else Rolling(rolling, draw, redZone, cap),
                   draw, redZone, cap, preemptive[1..])
  }

  function CountFalse(s: seq<bool>): nat {
    if s == [] then 0 else (if s[0] then 0 else 1) + CountFalse(s[1..])
  }

  lemma {:induction false} OnlyFullArmsCount(rolling: nat, draw: nat, redZone: nat, cap: nat, preemptive: seq<bool>)
    ensures AfterArms(rolling, draw, redZone, cap, preemptive) ==
            Iterate(rolling, draw, redZone, cap, CountFalse(preemptive))
    decreases |preemptive|
  {
    hide Rolling;
    if preemptive != [] {
      OnlyFullArmsCount(if preemptive[0] then rolling else Rolling(rolling, draw, redZone, cap),
                        draw, redZone, cap, preemptive[1..]);
    }
  }

  /**
    Where the rolling draw time settles: on the draw time itself from above or after a spike, 49 ns short of it
    from a little below, and where it is when it already is that close; in every case within the cap. Rounding
    down hides the last 49 ns.
  */
  function Settled(rolling: nat, draw: nat, redZone: nat, cap: nat): nat {
    if rolling >= Min(draw, cap) || draw - rolling > redZone / 2 then Min(draw, cap)
    else if draw - rolling >= 50 then Min(draw - 49, cap)
    else rolling
  }

  function Distance(a: nat, b: nat): nat {
    if a < b then b - a else a - b
  }

  lemma DecayFromAbove(rolling: nat, draw: nat)
    requires rolling >= draw
    ensures draw <= (980 * rolling + 20 * draw) / 1000 <= rolling
    ensures rolling > draw ==> (980 * rolling + 20 * draw) / 1000 < rolling
  {}

  lemma DecayFromBelow(rolling: nat, draw: nat)
    requires rolling <= draw
    ensures draw - rolling >= 50 ==> rolling < (980 * rolling + 20 * draw) / 1000 <= draw - 49
    ensures draw - rolling < 50 ==> (980 * rolling + 20 * draw) / 1000 == rolling
  {}

  /** One re-arm does not change where things settle, and gets strictly closer until they have. */
  lemma RollingApproaches(rolling: nat, draw: nat, redZone: nat, cap: nat)
    ensures var next, end := Rolling(rolling, draw, redZone, cap), Settled(rolling, draw, redZone, cap);
            && Settled(next, draw, redZone, cap) == end
            && (rolling == end ==> next == rolling)
            && (rolling != end ==> Distance(next, end) < Distance(rolling, end))
  {
    if rolling >= draw {
      DecayFromAbove(rolling, draw);
    } else {
      DecayFromBelow(rolling, draw);
    }
  }

  /**
    With a constant draw time, however long, the rolling draw time reaches its settling point after finitely many
    full re-arms and stays there. That point is the draw time or the cap, or at most 49 ns short of it.
  */
  lemma {:induction false} RollingSettles(rolling: nat, draw: nat, redZone: nat, cap: nat, n: nat)
    requires n >= Distance(rolling, Settled(rolling, draw, redZone, cap))
    ensures Iterate(rolling, draw, redZone, cap, n) == Settled(rolling, draw, redZone, cap)
    ensures Min(draw, cap) - 49 <= Settled(rolling, draw, redZone, cap) <= Min(draw, cap)
    decreases n
  {
    RollingApproaches(rolling, draw, redZone, cap);
    hide Rolling;
    if n > 0 {
      RollingSettles(Rolling(rolling, draw, redZone, cap), draw, redZone, cap, n - 1);
    }
  }

  /** A draw time more than half the red zone above the rolling one is followed at once, up to the cap. */
  lemma SpikesAreFollowed(rolling: nat, draw: nat, redZone: nat, cap: nat)
    requires rolling + redZone / 2 < draw
    ensures forall n: nat :: n > 0 ==> Iterate(rolling, draw, redZone, cap, n) == Min(draw, cap)
  {
    forall n: nat | n > 0
      ensures Iterate(rolling, draw, redZone, cap, n) == Min(draw, cap)
    {
      RollingSettles(Min(draw, cap), draw, redZone, cap, n - 1);
    }
  }
}
