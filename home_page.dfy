/** The player home page: the banana click handler (connection guard, particles,
    combo multiplier, local counter, the `banana_click` emit) and the effect that
    resets a combo two seconds after the last change. */
module HomePage {
  import opened Optional

  const ComboWindow := 500
  const MaxCombo := 10
  const ComboResetDelay := 2000
  const ParticlesPerClick := 5

  /** A particle: its id and the click's client coordinates. */
  datatype Particle = Particle(id: int, x: int, y: int)

  /** The combo after a click at `now`: one more (at most 10) when the previous click
      was under 500 ms earlier and there was one; back to 1 otherwise. */
  function NextCombo(prev: int, lastClickTime: int, now: int): (c: int)
    ensures 1 <= prev <= MaxCombo ==> 1 <= c <= MaxCombo
    ensures (now - lastClickTime < ComboWindow && lastClickTime != 0) ==> c == if prev + 1 < MaxCombo then prev + 1 else MaxCombo
    ensures !(now - lastClickTime < ComboWindow && lastClickTime != 0) ==> c == 1
  {
    if now - lastClickTime < ComboWindow && lastClickTime != 0 then
      (if prev + 1 < MaxCombo then prev + 1 else MaxCombo)
    else 1
  }

  /** The combo after clicks at `times`, from combo `combo` and last click time `last`:
      `NextCombo` applied click by click. */
  function ComboAfter(combo: int, last: int, times: seq<int>): int
    decreases |times|
  {
    if times == [] then combo else ComboAfter(NextCombo(combo, last, times[0]), times[0], times[1..])
  }

  /** Every click of `times` follows the previous click (the first follows `last`)
      within the 500 ms window, and no previous click time is 0. */
  predicate Quick(last: int, times: seq<int>)
    decreases |times|
  {
    times == [] || (last != 0 && times[0] - last < ComboWindow && Quick(times[0], times[1..]))
  }

  /** Quick clicks raise the combo by one each, up to 10. */
  lemma {:induction false} QuickClicksClimb(combo: int, last: int, times: seq<int>)
    requires 1 <= combo <= MaxCombo && Quick(last, times)
    ensures ComboAfter(combo, last, times) == if combo + |times| < MaxCombo then combo + |times| else MaxCombo
    decreases |times|
  {
    if times != [] {
      QuickClicksClimb(NextCombo(combo, last, times[0]), times[0], times[1..]);
    }
  }

  /** A burst that starts with a slow click (or the very first one) and continues with
      quick clicks ends with a combo of `min(n, 10)` after `n` clicks. */
  lemma BurstClimbs(combo: int, last: int, times: seq<int>)
    requires |times| >= 1
    requires !(times[0] - last < ComboWindow && last != 0)
    requires Quick(times[0], times[1..])
    ensures ComboAfter(combo, last, times) == if |times| < MaxCombo then |times| else MaxCombo
  {
    QuickClicksClimb(1, times[0], times[1..]);
  }

  /** The five particles of one click; the `k`-th id is `clocks[k] + k`, where `clocks[k]`
      is the `Date.now()` read on the `k`-th pass of the loop. */
  function ClickParticles(clocks: seq<int>, x: int, y: int): (ps: seq<Particle>)
    requires |clocks| == ParticlesPerClick
    ensures |ps| == ParticlesPerClick
    ensures forall k :: 0 <= k < |ps| ==> ps[k] == Particle(clocks[k] + k, x, y)
  {
    seq(ParticlesPerClick, k requires 0 <= k < ParticlesPerClick => Particle(clocks[k] + k, x, y))
  }

  /** With a clock that never goes back the ids of one click strictly increase, and
      they are consecutive when the millisecond does not change during the loop. */
  lemma ParticleIdsIncrease(clocks: seq<int>, x: int, y: int)
    requires |clocks| == ParticlesPerClick
    requires forall i, j :: 0 <= i <= j < |clocks| ==> clocks[i] <= clocks[j]
    ensures var ps := ClickParticles(clocks, x, y);
            forall i, j :: 0 <= i < j < |ps| ==> ps[i].id < ps[j].id
    ensures (forall i :: 0 <= i < |clocks| ==> clocks[i] == clocks[0]) ==>
              forall k :: 0 <= k < ParticlesPerClick ==> ClickParticles(clocks, x, y)[k].id == clocks[0] + k
  {
  }

  class Clicker {
    var clickCount: nat
    var comboMultiplier: int
    var showCombo: bool
    var lastClickTime: int
    var particles: seq<Particle>
    var clicksEmitted: nat
    var notices: nat
    /** When the pending combo-reset timer fires, if one is pending. */
    var comboResetAt: Option<int>

    ghost predicate Valid()
      reads this
    {
      && 1 <= comboMultiplier <= MaxCombo
      && (showCombo <==> comboMultiplier > 1)
      && (comboResetAt.Some? <==> comboMultiplier > 1)
    }

    constructor ()
      ensures Valid()
      ensures clickCount == 0 && comboMultiplier == 1 && !showCombo && lastClickTime == 0
      ensures particles == [] && clicksEmitted == 0 && notices == 0 && comboResetAt.None?
    {
      clickCount := 0;
      comboMultiplier := 1;
      showCombo := false;
      lastClickTime := 0;
      particles := [];
      clicksEmitted := 0;
      notices := 0;
      comboResetAt := None;
    }

    /** `handleBananaClick` at time `now`.  `clocks` are the five `Date.now()` reads of
        the particle loop.  Disconnected, it only shows the connection error. */
    method HandleClick(connected: bool, now: int, clocks: seq<int>, x: int, y: int)
      requires Valid()
      requires |clocks| == ParticlesPerClick
      modifies this
      ensures Valid()
      ensures !connected ==>
                && clickCount == old(clickCount) && comboMultiplier == old(comboMultiplier)
                && showCombo == old(showCombo) && lastClickTime == old(lastClickTime)
                && particles == old(particles) && clicksEmitted == old(clicksEmitted)
                && comboResetAt == old(comboResetAt) && notices == old(notices) + 1
      ensures connected ==>
                && clickCount == old(clickCount) + 1
                && clicksEmitted == old(clicksEmitted) + 1
                && comboMultiplier == NextCombo(old(comboMultiplier), old(lastClickTime), now)
                && lastClickTime == now
                && particles == old(particles) + ClickParticles(clocks, x, y)
                && notices == old(notices)
      ensures connected && (comboMultiplier != old(comboMultiplier) || now != old(lastClickTime)) ==>
                comboResetAt == if comboMultiplier > 1 then Some(now + ComboResetDelay) else None
      ensures connected && comboMultiplier == old(comboMultiplier) && now == old(lastClickTime) ==>
                comboResetAt == old(comboResetAt)
    {
      if !connected {
        notices := notices + 1;
        return;
      }
      var newParticles: seq<Particle> := [];
      for i := 0 to ParticlesPerClick
        invariant newParticles == seq(i, k requires 0 <= k < i => Particle(clocks[k] + k, x, y))
      {
        newParticles := newParticles + [Particle(clocks[i] + i, x, y)];
      }
      particles := particles + newParticles;
      var previousCombo := comboMultiplier;
      var previousClick := lastClickTime;
      if now - lastClickTime < ComboWindow && lastClickTime != 0 {
        comboMultiplier := if comboMultiplier + 1 < MaxCombo then comboMultiplier + 1 else MaxCombo;
        showCombo := true;
      } else {
        comboMultiplier := 1;
        showCombo := false;
      }
      lastClickTime := now;
      clicksEmitted := clicksEmitted + 1;
      clickCount := clickCount + 1;
      // the reset effect re-runs when the combo or the last click time changed
      if comboMultiplier != previousCombo || lastClickTime != previousClick {
        comboResetAt := if comboMultiplier > 1 then Some(now + ComboResetDelay) else None;
      }
    }

    /** The combo-reset timer firing at time `t`: a pending reset that is due puts the
        combo back to 1 and hides it. */
    method Tick(t: int)
      requires Valid()
      modifies this
      ensures Valid()
      ensures old(comboResetAt).Some? && t >= old(comboResetAt).value ==>
                comboMultiplier == 1 && !showCombo && comboResetAt.None?
      ensures !(old(comboResetAt).Some? && t >= old(comboResetAt).value) ==>
                comboMultiplier == old(comboMultiplier) && showCombo == old(showCombo) &&
                comboResetAt == old(comboResetAt)
      ensures clickCount == old(clickCount) && lastClickTime == old(lastClickTime)
      ensures particles == old(particles) && clicksEmitted == old(clicksEmitted) && notices == old(notices)
    {
      if comboResetAt.Some? && t >= comboResetAt.value {
        comboMultiplier := 1;
        showCombo := false;
        comboResetAt := None;
      }
    }
  }
}
