/** What `key_tick` and `key_get_state` guarantee, stated over the
    specification functions of module `Key`: single-tick rules first, then
    runs of ticks, then timing scenarios under the recommended
    500/1000/250 ms settings. */
module KeyProperties {
  import opened Ints
  import opened Key

  /** `n` identical readings. */
  function Repeat(k: u8, n: nat): (rs: seq<u8>)
    ensures |rs| == n
    ensures forall i :: 0 <= i < n ==> rs[i] == k
  {
    seq(n, _ => k)
  }

  // ---------------------------------------------------------------------
  // One tick
  // ---------------------------------------------------------------------

  /** Debounce: a reading equal to the confirmed key clears the counter and
      keeps the key; a differing reading bumps the counter (8-bit) and
      replaces the confirmed key exactly when the bumped counter has reached
      the threshold. */
  lemma DebounceRule(cfg: Config, e: Engine, r: u8)
    ensures var s := Step(cfg, e, r);
      if r == e.lastKey then
        s.debounceCount == 0 && s.lastKey == e.lastKey
      else
        s.debounceCount == Inc8(e.debounceCount) &&
        (s.lastKey == r <==> Inc8(e.debounceCount) >= DebounceThreshold) &&
        (s.lastKey != r ==> s.lastKey == e.lastKey)
  {
  }

  /** The counter is not reset on confirmation, so a change arriving on the
      very next tick, while the counter is still at least 1, is confirmed at
      once. */
  lemma ChangeAfterConfirmationIsImmediate(cfg: Config, e: Engine, r: u8)
    requires 1 <= e.debounceCount < 0xFF
    requires r != e.lastKey
    ensures Step(cfg, e, r).lastKey == r
    ensures Step(cfg, e, r).debounceCount == e.debounceCount + 1
  {
  }

  /** A confirmed release: after a long press it latches `Up` for the
      pending key and leaves the click state alone; after a short press it
      counts a click (no cap), remembers the released key and restarts the
      multi-click window at the 8-bit truncation of the timeout. Both paths
      zero the press duration. */
  lemma ConfirmedRelease(cfg: Config, e: Engine)
    requires e.lastKey != NoKey
    requires Inc8(e.debounceCount) >= DebounceThreshold
    ensures var s := ScanStep(cfg, e, NoKey);
      s.pressDuration == 0 && s.lastKey == NoKey &&
      if e.pressDuration >= cfg.longPress then
        s.latch == KeyState(Up, e.pendingKey) &&
        s.clickCount == e.clickCount && s.multiClickTimer == e.multiClickTimer &&
        s.pendingKey == e.pendingKey
      else
        s.latch == e.latch &&
        s.clickCount == Inc8(e.clickCount) && s.pendingKey == e.lastKey &&
        s.multiClickTimer == cfg.multiClickTimeout % 0x100
  {
  }

  /** A confirmed press makes the new key pending. Going straight from one
      key to another takes this path too: no click is counted and the press
      duration keeps running. */
  lemma ConfirmedPress(cfg: Config, e: Engine, r: u8)
    requires r != NoKey && r != e.lastKey
    requires Inc8(e.debounceCount) >= DebounceThreshold
    ensures var s := ScanStep(cfg, e, r);
      s.lastKey == r && s.pendingKey == r &&
      s.pressDuration == e.pressDuration && s.clickCount == e.clickCount &&
      s.multiClickTimer == e.multiClickTimer && s.latch == e.latch
  {
  }

  /** A held key: the 16-bit press duration grows by one; long press is
      latched exactly when it reaches the long threshold, and then clears the
      click count; otherwise hold is latched when the duration has reached
      the hold threshold and is a multiple of ten; otherwise nothing is
      latched. */
  lemma HeldTick(cfg: Config, e: Engine)
    requires e.lastKey != NoKey
    ensures var s := ScanStep(cfg, e, e.lastKey);
      var p := Inc16(e.pressDuration);
      s.pressDuration == p && s.debounceCount == 0 && s.lastKey == e.lastKey &&
      s.pendingKey == e.pendingKey && s.multiClickTimer == e.multiClickTimer &&
      (p == cfg.longPress ==> s.latch == KeyState(LongPress, e.lastKey) && s.clickCount == 0) &&
      (p != cfg.longPress ==> s.clickCount == e.clickCount) &&
      (p != cfg.longPress && p >= cfg.hold && p % HoldCadence == 0 ==>
        s.latch == KeyState(Hold, e.lastKey)) &&
      (p != cfg.longPress && !(p >= cfg.hold && p % HoldCadence == 0) ==> s.latch == e.latch)
  {
  }

  /** The multi-click countdown: a running timer drops by exactly one; when
      it reaches zero the click count picks the event (1, 2, 3 give click,
      double and triple click, any other count keeps the latched event), the
      pending key is latched as the value, and the count and pending key are
      reset. An idle timer changes nothing. */
  lemma Countdown(e: Engine)
    ensures var s := TimerStep(e);
      (e.multiClickTimer == 0 ==> s == e) &&
      (e.multiClickTimer > 1 ==> s == e.(multiClickTimer := e.multiClickTimer - 1)) &&
      (e.multiClickTimer == 1 ==>
        s.multiClickTimer == 0 && s.clickCount == 0 && s.pendingKey == NoKey &&
        s.latch.value == e.pendingKey &&
        s.latch.event == (if e.clickCount == 1 then Click
                          else if e.clickCount == 2 then DoubleClick
                          else if e.clickCount == 3 then TripleClick
                          else e.latch.event) &&
        s.lastKey == e.lastKey && s.debounceCount == e.debounceCount &&
        s.pressDuration == e.pressDuration)
  {
  }

  /** The countdown runs after the scan phase, so when the window closes on
      a tick, its latch overrides whatever the scan phase latched. */
  lemma WindowCloseWins(cfg: Config, e: Engine, r: u8)
    requires ScanStep(cfg, e, r).multiClickTimer == 1
    ensures Step(cfg, e, r).latch.value == ScanStep(cfg, e, r).pendingKey
    ensures ScanStep(cfg, e, r).clickCount in {1, 2, 3} ==>
      Step(cfg, e, r).latch.event in {Click, DoubleClick, TripleClick}
  {
  }

  /** `Down` is never produced by a tick. */
  lemma {:induction false} NeverDown(cfg: Config, e: Engine, rs: seq<u8>)
    requires e.latch.event != Down
    ensures Run(cfg, e, rs).latch.event != Down
    decreases |rs|
  {
    if rs != [] {
      NeverDown(cfg, Step(cfg, e, rs[0]), rs[1..]);
    }
  }

  /** Reading the latch hands out the latched pair and clears it; a second
      read with no tick between gets nothing; the counters are untouched. */
  lemma TakeClears(e: Engine)
    ensures Take(e).0 == e.latch
    ensures Take(Take(e).1).0 == KeyState(NoEvent, NoKey)
    ensures var s := Take(e).1;
      s.lastKey == e.lastKey && s.debounceCount == e.debounceCount &&
      s.pressDuration == e.pressDuration && s.clickCount == e.clickCount &&
      s.pendingKey == e.pendingKey && s.multiClickTimer == e.multiClickTimer
  {
  }

  // ---------------------------------------------------------------------
  // Runs of ticks
  // ---------------------------------------------------------------------

  lemma {:induction false} RunAppend(cfg: Config, e: Engine, a: seq<u8>, b: seq<u8>)
    ensures Run(cfg, e, a + b) == Run(cfg, Run(cfg, e, a), b)
    decreases |a|
  {
    if a == [] {
      assert a + b == b;
    } else {
      assert (a + b)[1..] == a[1..] + b;
      RunAppend(cfg, Step(cfg, e, a[0]), a[1..], b);
    }
  }

  /** The last tick of a run of identical readings. */
  lemma RunRepeatLast(cfg: Config, e: Engine, k: u8, n: nat)
    ensures Run(cfg, e, Repeat(k, n + 1)) == Step(cfg, Run(cfg, e, Repeat(k, n)), k)
  {
    assert Repeat(k, n + 1) == Repeat(k, n) + [k];
    RunAppend(cfg, e, Repeat(k, n), [k]);
  }

  /** While a confirmed key stays down, the press duration grows by one per
      tick, the debounce counter stays clear, the key stays confirmed and a
      running multi-click timer keeps counting down. */
  lemma {:induction false} HeldRun(cfg: Config, e: Engine, n: nat)
    requires e.lastKey != NoKey
    requires e.pressDuration + n <= 0xFFFF
    ensures var s := Run(cfg, e, Repeat(e.lastKey, n));
      s.lastKey == e.lastKey && s.pressDuration == e.pressDuration + n &&
      (n > 0 ==> s.debounceCount == 0) &&
      s.multiClickTimer == (if e.multiClickTimer >= n then e.multiClickTimer - n else 0)
  {
    if n > 0 {
      HeldRun(cfg, e, n - 1);
      RunRepeatLast(cfg, e, e.lastKey, n - 1);
      HeldTick(cfg, Run(cfg, e, Repeat(e.lastKey, n - 1)));
    }
  }

  /** Long press is never latched before the press duration reaches the
      long threshold. */
  lemma {:induction false} NoEarlyLongPress(cfg: Config, e: Engine, n: nat)
    requires e.lastKey != NoKey
    requires e.pressDuration + n < cfg.longPress
    requires e.latch.event != LongPress
    ensures Run(cfg, e, Repeat(e.lastKey, n)).latch.event != LongPress
  {
    if n > 0 {
      NoEarlyLongPress(cfg, e, n - 1);
      HeldRun(cfg, e, n - 1);
      RunRepeatLast(cfg, e, e.lastKey, n - 1);
      HeldTick(cfg, Run(cfg, e, Repeat(e.lastKey, n - 1)));
    }
  }

  /** Long press is latched, for the held key, on the tick the press
      duration reaches the long threshold, also while an earlier click's
      window is still open, unless that window closes on the same tick. */
  lemma LongPressAtThreshold(cfg: Config, e: Engine, n: nat)
    requires e.lastKey != NoKey && e.multiClickTimer != n
    requires n > 0 && e.pressDuration + n == cfg.longPress
    ensures var s := Run(cfg, e, Repeat(e.lastKey, n));
      s.latch == KeyState(LongPress, e.lastKey) && s.clickCount == 0
  {
    var before := Run(cfg, e, Repeat(e.lastKey, n - 1));
    HeldRun(cfg, e, n - 1);
    RunRepeatLast(cfg, e, e.lastKey, n - 1);
    HeldTick(cfg, before);
    TimerKeeps(ScanStep(cfg, before, e.lastKey));
  }

  /** Hold is latched, for the held key, on each tick whose press duration
      is at least the hold threshold, a multiple of ten and not the long
      threshold, unless an open multi-click window closes on that tick. */
  lemma HoldOnCadence(cfg: Config, e: Engine, n: nat)
    requires e.lastKey != NoKey && e.multiClickTimer != n
    requires n > 0 && e.pressDuration + n <= 0xFFFF
    requires var p := e.pressDuration + n;
      p >= cfg.hold && p % HoldCadence == 0 && p != cfg.longPress
    ensures Run(cfg, e, Repeat(e.lastKey, n)).latch == KeyState(Hold, e.lastKey)
  {
    var before := Run(cfg, e, Repeat(e.lastKey, n - 1));
    HeldRun(cfg, e, n - 1);
    RunRepeatLast(cfg, e, e.lastKey, n - 1);
    HeldTick(cfg, before);
    TimerKeeps(ScanStep(cfg, before, e.lastKey));
  }

  /** A countdown that does not close this tick keeps the latch, the click
      count and the pending key. */
  lemma TimerKeeps(e: Engine)
    requires e.multiClickTimer != 1
    ensures TimerStep(e).latch == e.latch && TimerStep(e).clickCount == e.clickCount
    ensures TimerStep(e).pendingKey == e.pendingKey
  {
  }

  /** Hold is never latched before the press duration reaches the hold
      threshold. */
  lemma {:induction false} NoEarlyHold(cfg: Config, e: Engine, n: nat)
    requires e.lastKey != NoKey
    requires e.pressDuration + n < cfg.hold
    requires e.latch.event != Hold
    ensures Run(cfg, e, Repeat(e.lastKey, n)).latch.event != Hold
  {
    if n > 0 {
      NoEarlyHold(cfg, e, n - 1);
      HeldRun(cfg, e, n - 1);
      RunRepeatLast(cfg, e, e.lastKey, n - 1);
      HeldTick(cfg, Run(cfg, e, Repeat(e.lastKey, n - 1)));
    }
  }

  /** With no key down, an open multi-click window counts down one per tick;
      each tick clears the debounce counter and changes nothing else until
      the window closes, when the aggregated click event is latched for the
      pending key. */
  lemma {:induction false} IdleRun(cfg: Config, e: Engine, n: nat)
    requires e.lastKey == NoKey
    requires n <= e.multiClickTimer
    ensures var s := Run(cfg, e, Repeat(NoKey, n));
      s.lastKey == NoKey && s.multiClickTimer == e.multiClickTimer - n &&
      s.pressDuration == e.pressDuration && (n > 0 ==> s.debounceCount == 0) &&
      (n < e.multiClickTimer ==>
        s.latch == e.latch && s.clickCount == e.clickCount && s.pendingKey == e.pendingKey) &&
      (0 < n == e.multiClickTimer ==>
        s.latch == KeyState(ClickEvent(e.clickCount, e.latch.event), e.pendingKey) &&
        s.clickCount == 0 && s.pendingKey == NoKey)
  {
    if n > 0 {
      IdleRun(cfg, e, n - 1);
      RunRepeatLast(cfg, e, NoKey, n - 1);
    }
  }

  /** With no key down and no window open, idle ticks only clear the
      debounce counter: nothing is ever latched. */
  lemma {:induction false} QuietRun(cfg: Config, e: Engine, n: nat)
    requires e.lastKey == NoKey && e.multiClickTimer == 0
    ensures n > 0 ==> Run(cfg, e, Repeat(NoKey, n)) == e.(debounceCount := 0)
  {
    if n > 1 {
      QuietRun(cfg, e, n - 1);
      RunRepeatLast(cfg, e, NoKey, n - 1);
    } else if n == 1 {
      RunRepeatLast(cfg, e, NoKey, 0);
    }
  }

  /** While a key is held short of the long threshold, with no window open
      or one that stays open, the click count and the pending key are kept,
      and so is the latch while the hold threshold is not reached either. */
  lemma {:induction false} ShortHoldKeeps(cfg: Config, e: Engine, n: nat)
    requires e.lastKey != NoKey
    requires e.pressDuration + n < cfg.longPress
    requires e.multiClickTimer == 0 || e.multiClickTimer > n
    ensures var s := Run(cfg, e, Repeat(e.lastKey, n));
      s.clickCount == e.clickCount && s.pendingKey == e.pendingKey &&
      (e.pressDuration + n < cfg.hold ==> s.latch == e.latch)
  {
    if n > 0 {
      var before := Run(cfg, e, Repeat(e.lastKey, n - 1));
      ShortHoldKeeps(cfg, e, n - 1);
      HeldRun(cfg, e, n - 1);
      RunRepeatLast(cfg, e, e.lastKey, n - 1);
      HeldTick(cfg, before);
      TimerKeeps(ScanStep(cfg, before, e.lastKey));
    }
  }

  /** The readings of one short press of key `k`: two ticks confirm the
      press, `m` more hold it, two idle ticks confirm the release. */
  function Press(k: u8, m: nat): seq<u8>
  {
    [k, k] + Repeat(k, m) + [NoKey, NoKey]
  }

  /** One short press from a released engine whose debounce counter is clear
      (as any idle tick leaves it), with no window open or one that stays
      open until the release: the release counts the click, makes `k` the
      pending key and restarts the window at the 8-bit timeout, which that
      same tick counts down once, so a timeout of one tick closes it at once.
      The debounce counter is left at the threshold, so a press on the very
      next tick would be confirmed at once. */
  lemma ShortPress(cfg: Config, e: Engine, k: u8, m: nat)
    requires k != NoKey
    requires e.lastKey == NoKey && e.debounceCount == 0 && e.pressDuration == 0
    requires 0 < m < cfg.longPress
    requires e.multiClickTimer == 0 || e.multiClickTimer > m + 3
    ensures var s := Run(cfg, e, Press(k, m));
      s.lastKey == NoKey && s.pressDuration == 0 && s.debounceCount == DebounceThreshold
    ensures var s := Run(cfg, e, Press(k, m));
      var t := Truncate8(cfg.multiClickTimeout);
      t != 1 ==>
        s.clickCount == Inc8(e.clickCount) && s.pendingKey == k &&
        s.multiClickTimer == (if t == 0 then 0 else t - 1) &&
        (m < cfg.hold ==> s.latch == e.latch)
    ensures var s := Run(cfg, e, Press(k, m));
      Truncate8(cfg.multiClickTimeout) == 1 ==>
        s.clickCount == 0 && s.pendingKey == NoKey && s.multiClickTimer == 0 &&
        (m < cfg.hold ==> s.latch == KeyState(ClickEvent(Inc8(e.clickCount), e.latch.event), k))
  {
    var t := e.multiClickTimer;
    var e1 := Step(cfg, e, k);
    assert e1 == e.(debounceCount := 1, multiClickTimer := if t == 0 then 0 else t - 1);
    var e2 := Step(cfg, e1, k);
    assert e2 == e.(debounceCount := 2, lastKey := k, pendingKey := k,
                    multiClickTimer := if t == 0 then 0 else t - 2);
    RunCons(cfg, e, k, [k]);
    RunCons(cfg, e1, k, []);
    var e3 := Run(cfg, e2, Repeat(k, m));
    HeldRun(cfg, e2, m);
    ShortHoldKeeps(cfg, e2, m);
    var e4 := Step(cfg, e3, NoKey);
    assert e4 == e3.(debounceCount := 1, multiClickTimer := if t == 0 then 0 else t - 3 - m);
    var e5 := Step(cfg, e4, NoKey);
    ConfirmedRelease(cfg, e4);
    Countdown(ScanStep(cfg, e4, NoKey));
    RunCons(cfg, e3, NoKey, [NoKey]);
    RunCons(cfg, e4, NoKey, []);
    RunAppend(cfg, e, [k, k] + Repeat(k, m), [NoKey, NoKey]);
    RunAppend(cfg, e, [k, k], Repeat(k, m));
  }

  /** `n` short presses of key `k`, each held for `m` ticks and followed by
      one idle tick. */
  function Clicks(k: u8, m: nat, n: nat): seq<u8>
  {
    if n == 0 then [] else Clicks(k, m, n - 1) + Press(k, m) + [NoKey]
  }

  /** `n` short presses from a settled engine with no window open, each
      inside the window the previous one opened: the presses latch nothing,
      and afterwards `n` clicks of `k` are counted and the window has two
      ticks less than the 8-bit timeout left. */
  lemma {:induction false} ClicksRun(cfg: Config, e: Engine, k: u8, m: nat, n: nat)
    requires k != NoKey && 0 < m < cfg.longPress && m < cfg.hold
    requires Truncate8(cfg.multiClickTimeout) > m + 5
    requires e.lastKey == NoKey && e.debounceCount == 0 && e.pressDuration == 0
    requires e.multiClickTimer == 0 && e.clickCount == 0
    requires 0 < n < 0x100
    ensures Run(cfg, e, Clicks(k, m, n)) ==
      e.(clickCount := n, pendingKey := k, multiClickTimer := Truncate8(cfg.multiClickTimeout) - 2)
  {
    var before := Run(cfg, e, Clicks(k, m, n - 1));
    if n > 1 {
      ClicksRun(cfg, e, k, m, n - 1);
    }
    ShortPress(cfg, before, k, m);
    var after := Run(cfg, before, Press(k, m));
    RunCons(cfg, after, NoKey, []);
    RunAppend(cfg, e, Clicks(k, m, n - 1) + Press(k, m), [NoKey]);
    RunAppend(cfg, e, Clicks(k, m, n - 1), Press(k, m));
  }

  /** Multi-click aggregation: `n` short presses inside the window latch
      nothing until the window closes; idle ticks then count it down, and on
      the tick it closes the event `n` maps to (CLICK, DOUBLE_CLICK or
      TRIPLE_CLICK for 1, 2 or 3) is latched once, for key `k`, and the
      click state is reset. */
  lemma MultiClick(cfg: Config, e: Engine, k: u8, m: nat, n: nat, j: nat)
    requires k != NoKey && 0 < m < cfg.longPress && m < cfg.hold
    requires Truncate8(cfg.multiClickTimeout) > m + 5
    requires e.lastKey == NoKey && e.debounceCount == 0 && e.pressDuration == 0
    requires e.multiClickTimer == 0 && e.clickCount == 0
    requires 0 < n < 0x100
    requires j <= Truncate8(cfg.multiClickTimeout) - 2
    ensures var s := Run(cfg, e, Clicks(k, m, n) + Repeat(NoKey, j));
      j < Truncate8(cfg.multiClickTimeout) - 2 ==> s.latch == e.latch && s.clickCount == n
    ensures var s := Run(cfg, e, Clicks(k, m, n) + Repeat(NoKey, j));
      j == Truncate8(cfg.multiClickTimeout) - 2 ==>
        s.latch == KeyState(ClickEvent(n, e.latch.event), k) &&
        s.clickCount == 0 && s.pendingKey == NoKey && s.multiClickTimer == 0
  {
    ClicksRun(cfg, e, k, m, n);
    RunAppend(cfg, e, Clicks(k, m, n), Repeat(NoKey, j));
    IdleRun(cfg, Run(cfg, e, Clicks(k, m, n)), j);
  }

  // ---------------------------------------------------------------------
  // The ADC ladder of key.h
  // ---------------------------------------------------------------------

  /** The thresholds `key_init` computes for the configured divider
      resistors 0, 6.2k, 15k and 24k with a 10k pull-up. */
  const Ladder: seq<u16> := [783, 2012, 2673, 3492]

  lemma LadderThresholds()
    ensures forall i :: 0 <= i < KeyNum ==> AdcThreshold(AdcKeyRes, i) == Ladder[i]
  {
    assert AdcLevel(AdcKeyRes[1]) == 1567;
    assert AdcLevel(AdcKeyRes[2]) == 2457;
    assert AdcLevel(AdcKeyRes[3]) == 2890;
  }

  /** With those thresholds every key's nominal level selects that key, and
      the full-scale reading of an open ladder selects none. */
  lemma LadderSelectsKey(i: nat)
    requires i < KeyNum
    ensures AdcLevel(AdcKeyRes[i]) < 0x1_0000
    ensures FirstBelow(AdcLevel(AdcKeyRes[i]), Ladder, AdcKeyValue, 0) == AdcKeyValue[i]
    ensures FirstBelow(AdcVddio, Ladder, AdcKeyValue, 0) == NoKey
  {
    assert AdcLevel(AdcKeyRes[1]) == 1567;
    assert AdcLevel(AdcKeyRes[2]) == 2457;
    assert AdcLevel(AdcKeyRes[3]) == 2890;
  }

  // ---------------------------------------------------------------------
  // Scenarios with the recommended settings (500 / 1000 / 250 ms)
  // ---------------------------------------------------------------------

  const Recommended: Config := Config(50, 100, 25)

  lemma RecommendedSettings()
    ensures Periods(500, 1000, 250) == Recommended
  {
  }

  lemma RunCons(cfg: Config, e: Engine, r: u8, rs: seq<u8>)
    ensures Run(cfg, e, [r] + rs) == Run(cfg, Step(cfg, e, r), rs)
  {
    assert ([r] + rs)[1..] == rs;
  }

  /** Key 1 down for three ticks and released: the release is confirmed on
      the second idle tick, which opens a 25-tick window and already counts
      it down once; 24 further idle ticks close it with a click for key 1,
      which is read once and then reads as nothing. */
  lemma SingleClickScenario()
    ensures var s := Run(Recommended, PowerUp, [1, 1, 1, NoKey, NoKey] + Repeat(NoKey, 24));
      Take(s).0 == KeyState(Click, 1) && Take(Take(s).1).0 == Cleared
  {
    var cfg := Recommended;
    var e1 := Step(cfg, PowerUp, 1);
    assert e1 == PowerUp.(debounceCount := 1);
    var e2 := Step(cfg, e1, 1);
    assert e2 == e1.(debounceCount := 2, lastKey := 1, pendingKey := 1);
    var e3 := Step(cfg, e2, 1);
    assert e3 == e2.(debounceCount := 0, pressDuration := 1);
    var e4 := Step(cfg, e3, NoKey);
    assert e4 == e3.(debounceCount := 1);
    var e5 := Step(cfg, e4, NoKey);
    assert e5 == e4.(debounceCount := 2, lastKey := NoKey, pressDuration := 0,
                     clickCount := 1, pendingKey := 1, multiClickTimer := 24);
    var rest := Repeat(NoKey, 24);
    calc {
      Run(cfg, PowerUp, [1, 1, 1, NoKey, NoKey] + rest);
      { assert [1, 1, 1, NoKey, NoKey] + rest == [1] + ([1] + ([1] + ([NoKey] + ([NoKey] + rest)))); }
      Run(cfg, PowerUp, [1] + ([1] + ([1] + ([NoKey] + ([NoKey] + rest)))));
      { RunCons(cfg, PowerUp, 1, [1] + ([1] + ([NoKey] + ([NoKey] + rest)))); }
      Run(cfg, e1, [1] + ([1] + ([NoKey] + ([NoKey] + rest))));
      { RunCons(cfg, e1, 1, [1] + ([NoKey] + ([NoKey] + rest))); }
      Run(cfg, e2, [1] + ([NoKey] + ([NoKey] + rest)));
      { RunCons(cfg, e2, 1, [NoKey] + ([NoKey] + rest)); }
      Run(cfg, e3, [NoKey] + ([NoKey] + rest));
      { RunCons(cfg, e3, NoKey, [NoKey] + rest); }
      Run(cfg, e4, [NoKey] + rest);
      { RunCons(cfg, e4, NoKey, rest); }
      Run(cfg, e5, rest);
    }
    IdleRun(cfg, e5, 24);
  }

  /** Key 1 pressed for three ticks twice, and three times, with one idle
      tick after each release: the 25-tick window closes 23 ticks after the
      last one with a double, and a triple, click for key 1. */
  lemma DoubleAndTripleClickScenario()
    ensures Clicks(1, 1, 2) == [1, 1, 1, NoKey, NoKey, NoKey, 1, 1, 1, NoKey, NoKey, NoKey]
    ensures Run(Recommended, PowerUp, Clicks(1, 1, 2) + Repeat(NoKey, 23)).latch == KeyState(DoubleClick, 1)
    ensures Run(Recommended, PowerUp, Clicks(1, 1, 3) + Repeat(NoKey, 23)).latch == KeyState(TripleClick, 1)
    ensures Run(Recommended, PowerUp, Clicks(1, 1, 3) + Repeat(NoKey, 22)).latch == Cleared
  {
    MultiClick(Recommended, PowerUp, 1, 1, 2, 23);
    MultiClick(Recommended, PowerUp, 1, 1, 3, 23);
    MultiClick(Recommended, PowerUp, 1, 1, 3, 22);
  }

  /** Key 2 held from power-up: two ticks confirm it, then long press is
      latched 50 ticks later and hold after 100 and 110 ticks of press
      duration. */
  lemma LongPressScenario()
    ensures Run(Recommended, PowerUp, [2, 2] + Repeat(2, 50)).latch == KeyState(LongPress, 2)
    ensures Run(Recommended, PowerUp, [2, 2] + Repeat(2, 49)).latch.event != LongPress
    ensures Run(Recommended, PowerUp, [2, 2] + Repeat(2, 100)).latch == KeyState(Hold, 2)
    ensures Run(Recommended, PowerUp, [2, 2] + Repeat(2, 110)).latch == KeyState(Hold, 2)
  {
    var cfg := Recommended;
    var e1 := Step(cfg, PowerUp, 2);
    assert e1 == PowerUp.(debounceCount := 1);
    var e := Step(cfg, e1, 2);
    assert e == e1.(debounceCount := 2, lastKey := 2, pendingKey := 2);
    forall n: nat
      ensures Run(cfg, PowerUp, [2, 2] + Repeat(2, n)) == Run(cfg, e, Repeat(2, n))
    {
      assert [2, 2] + Repeat(2, n) == [2] + ([2] + Repeat(2, n));
      RunCons(cfg, PowerUp, 2, [2] + Repeat(2, n));
      RunCons(cfg, e1, 2, Repeat(2, n));
    }
    LongPressAtThreshold(cfg, e, 50);
    NoEarlyLongPress(cfg, e, 49);
    HoldOnCadence(cfg, e, 100);
    HoldOnCadence(cfg, e, 110);
  }

  /** The debounce counter is not bounded by the threshold: key 1 confirmed
      and key 2 read right after leaves it at 3 with key 2 already
      confirmed. */
  lemma DebounceCounterExceedsThreshold(cfg: Config)
    ensures var s := Run(cfg, PowerUp, [1, 1, 2]);
      s.debounceCount == 3 > DebounceThreshold && s.lastKey == 2
  {
  }

  /** The click count has no cap at `MaxClickCount`: a fourth short press in
      one window counts 4, and the closing window then latches no click
      event but still overwrites the value with the pending key. */
  lemma ClickCountUncapped(cfg: Config, e: Engine)
    requires e.lastKey != NoKey && e.clickCount == MaxClickCount
    requires e.pressDuration < cfg.longPress && e.debounceCount == 1
    ensures ScanStep(cfg, e, NoKey).clickCount == MaxClickCount + 1
    ensures var s := ScanStep(cfg, e, NoKey).(multiClickTimer := 1);
      TimerStep(s).latch == KeyState(e.latch.event, e.lastKey)
  {
  }

  /** A 2560 ms timeout is 256 ticks, which the 8-bit timer loads as 0: the
      window never opens, and a short click is counted but never reported,
      however long the key then stays released. */
  lemma ZeroWindowLosesClick(n: nat)
    ensures Periods(500, 1000, 2560).multiClickTimeout == 256
    ensures var cfg := Periods(500, 1000, 2560);
      var e := Step(cfg, PowerUp.(lastKey := 1, debounceCount := 1, pendingKey := 1), NoKey);
      e.multiClickTimer == 0 && e.clickCount == 1 && e.latch == Cleared &&
      Run(cfg, e, Repeat(NoKey, n)).latch == Cleared
  {
    var cfg := Periods(500, 1000, 2560);
    var e := Step(cfg, PowerUp.(lastKey := 1, debounceCount := 1, pendingKey := 1), NoKey);
    QuietRun(cfg, e, n);
  }

  /** The 16-bit multi-click timeout is loaded into an 8-bit timer: a 3000 ms
      window is 300 ticks but runs for 44. */
  lemma TimeoutTruncated()
    ensures Periods(500, 1000, 3000).multiClickTimeout == 300
    ensures var e := ScanStep(Periods(500, 1000, 3000), PowerUp.(lastKey := 1, debounceCount := 1), NoKey);
      e.multiClickTimer == 44
  {
  }
}
