/** The key event engine of `HardWare/key.c`: key selection, the per-tick
    state machine (debounce, press duration, multi-click aggregation) and the
    single-slot event latch.

    The state machine is specified by the pure function `Step`, which follows
    the branches of `key_tick` one for one; the class `KeyScanner` holds the
    firmware's globals and function-static counters as fields, and its
    methods are proved to move that state exactly as `Step` says. Lemmas about
    `Step` and about runs of ticks are in module `KeyProperties`. */
module Key {
  import opened Ints

  // ---------------------------------------------------------------------
  // Build-time configuration (key.h)
  // ---------------------------------------------------------------------

  /** Tick period in milliseconds. */
  const KeyScanPeriod: nat := 10
  /** Declared maximum number of clicks; the engine never consults it. */
  const MaxClickCount: nat := 3
  /** A differing reading is confirmed once the debounce counter reaches this. */
  const DebounceThreshold: nat := 2
  /** The sentinel key code, "no key pressed". */
  const NoKey: u8 := 0xFF
  /** Number of keys. */
  const KeyNum: nat := 4
  /** Cadence, in ticks, of the repeating hold event. */
  const HoldCadence: nat := 10

  /** Key codes reported for the GPIO keys, in priority order. */
  const GpioKeyValue: seq<u8> := [1, 2, 3, 4]
  /** Active pin level of each GPIO key (0: active low). */
  const GpioKeyPolarity: seq<u8> := [0, 0, 0, 0]

  /** Key codes reported for the ADC ladder keys (only the first `KeyNum`
      of the five configured values fit the table). */
  const AdcKeyValue: seq<u8> := [1, 2, 3, 4]
  /** Full-scale ADC reading. */
  const AdcVddio: nat := 0xFFF
  /** Pull-up resistor, in units of 0.1 kOhm. */
  const AdcPullUp: nat := 100
  /** Divider resistor of each key, in units of 0.1 kOhm. */
  const AdcKeyRes: seq<u16> := [0, 62, 150, 240]

  // ---------------------------------------------------------------------
  // Types (key.h)
  // ---------------------------------------------------------------------

  /** `key_event_t` */
  datatype KeyEvent =
    | NoEvent
    | Down
    | Click
    | DoubleClick
    | TripleClick
    | LongPress
    | Hold
    | Up

  /** `key_state_t`: the latched event and its key code. */
  datatype KeyState = KeyState(event: KeyEvent, value: u8)

  /** The latch after it has been read. */
  const Cleared: KeyState := KeyState(NoEvent, NoKey)

  /** The three thresholds, in ticks. */
  datatype Config = Config(longPress: u16, hold: u16, multiClickTimeout: u16)

  /** The function-static counters of `key_tick` and the global latch. */
  datatype Engine = Engine(
    lastKey: u8,
    debounceCount: u8,
    pressDuration: u16,
    clickCount: u8,
    pendingKey: u8,
    multiClickTimer: u8,
    latch: KeyState)

  /** The state at power-up, before any tick. */
  const PowerUp: Engine := Engine(NoKey, 0, 0, 0, NoKey, 0, Cleared)

  // ---------------------------------------------------------------------
  // Specification of one tick
  // ---------------------------------------------------------------------

  /** The first phase of `key_tick`: debounce, release handling, press
      duration, long press and hold. */
  function ScanStep(cfg: Config, e: Engine, r: u8): Engine
  {
    if r != e.lastKey then
      var d := Inc8(e.debounceCount);
      if d >= DebounceThreshold then
        if r == NoKey then
          if e.pressDuration >= cfg.longPress then
            e.(debounceCount := d, latch := KeyState(Up, e.pendingKey),
               pressDuration := 0, lastKey := r)
          else
            e.(debounceCount := d, clickCount := Inc8(e.clickCount),
               pendingKey := e.lastKey, multiClickTimer := Truncate8(cfg.multiClickTimeout),
               pressDuration := 0, lastKey := r)
        else
          e.(debounceCount := d, pendingKey := r, lastKey := r)
      else
        e.(debounceCount := d)
    else if r != NoKey then
      var p := Inc16(e.pressDuration);
      if p == cfg.longPress then
        e.(debounceCount := 0, pressDuration := p, clickCount := 0, latch := KeyState(LongPress, r))
      else if p >= cfg.hold && p % HoldCadence == 0 then
        e.(debounceCount := 0, pressDuration := p, latch := KeyState(Hold, r))
      else
        e.(debounceCount := 0, pressDuration := p)
    else
      e.(debounceCount := 0)
  }

  /** The event a click count maps to when the multi-click window closes;
      any other count keeps the latched event. */
  function ClickEvent(count: u8, current: KeyEvent): KeyEvent
  {
    if count == 1 then Click
    else if count == 2 then DoubleClick
    else if count == 3 then TripleClick
    else current
  }

  /** The second phase of `key_tick`: the multi-click countdown. */
  function TimerStep(e: Engine): Engine
  {
    if e.multiClickTimer > 0 then
      var t := e.multiClickTimer - 1;
      if t == 0 then
        e.(multiClickTimer := 0,
           latch := KeyState(ClickEvent(e.clickCount, e.latch.event), e.pendingKey),
           clickCount := 0, pendingKey := NoKey)
      else
        e.(multiClickTimer := t)
    else
      e
  }

  /** One call of `key_tick` with the key code `r` read this tick. */
  function Step(cfg: Config, e: Engine, r: u8): Engine
  {
    TimerStep(ScanStep(cfg, e, r))
  }

  /** A run of ticks, one per reading. */
  function Run(cfg: Config, e: Engine, rs: seq<u8>): Engine
    decreases |rs|
  {
    if rs == [] then e else Run(cfg, Step(cfg, e, rs[0]), rs[1..])
  }

  /** `key_get_state`: the pair handed to the caller and the state left behind. */
  function Take(e: Engine): (KeyState, Engine)
  {
    (e.latch, e.(latch := Cleared))
  }

  // ---------------------------------------------------------------------
  // Key selection (key_read)
  // ---------------------------------------------------------------------

  /** The key selected by first match from pin `i` on. */
  function FirstActive(levels: seq<u8>, i: nat): (k: u8)
    requires |levels| == KeyNum
    ensures k == NoKey <==> forall j :: i <= j < KeyNum ==> levels[j] != GpioKeyPolarity[j]
    ensures forall j ::
      (i <= j < KeyNum && levels[j] == GpioKeyPolarity[j] && forall l :: i <= l < j ==> levels[l] != GpioKeyPolarity[l])
      ==> k == GpioKeyValue[j]
    decreases KeyNum - i
  {
    if i >= KeyNum then NoKey
    else if levels[i] == GpioKeyPolarity[i] then GpioKeyValue[i]
    else FirstActive(levels, i + 1)
  }

  /** The GPIO variant of `key_read`: the value of the lowest-index key
      whose pin level equals its polarity, or `NoKey`. */
  method KeyRead(levels: seq<u8>) returns (k: u8)
    requires |levels| == KeyNum
    ensures k == FirstActive(levels, 0)
  {
    var i := 0;
    while i < KeyNum
      invariant 0 <= i <= KeyNum
      invariant FirstActive(levels, 0) == FirstActive(levels, i)
    {
      if levels[i] == GpioKeyPolarity[i] {
        return GpioKeyValue[i];
      }
      i := i + 1;
    }
    return NoKey;
  }

  /** Nominal ADC reading of a key: the divider voltage for resistor `res`. */
  function AdcLevel(res: u16): nat
  {
    AdcVddio * res / (res + AdcPullUp)
  }

  /** The threshold of key `i`: the midpoint between its level and the next
      key's level (or full scale for the last key), cast to `uint16_t`
      before halving, as `key_init` computes it. */
  function AdcThreshold(res: seq<u16>, i: nat): u16
    requires i < |res|
  {
    var upper := if i < |res| - 1 then AdcLevel(res[i + 1]) else AdcVddio;
    ((AdcLevel(res[i]) + upper) % 0x1_0000) / 2
  }

  /** The ADC loop of `key_init`: one threshold per key. */
  method AdcThresholds(res: seq<u16>) returns (t: seq<u16>)
    ensures |t| == |res|
    ensures forall i :: 0 <= i < |res| ==> t[i] == AdcThreshold(res, i)
  {
    t := [];
    var i := 0;
    while i < |res|
      invariant 0 <= i <= |res| && |t| == i
      invariant forall j :: 0 <= j < i ==> t[j] == AdcThreshold(res, j)
    {
      t := t + [AdcThreshold(res, i)];
      i := i + 1;
    }
  }

  /** The key selected from an ADC sample, by first match from index `i` on. */
  function FirstBelow(sample: u16, thresholds: seq<u16>, values: seq<u8>, i: nat): (k: u8)
    requires |values| == |thresholds|
    ensures (forall j :: i <= j < |thresholds| ==> thresholds[j] < sample) ==> k == NoKey
    ensures forall j ::
      (i <= j < |thresholds| && sample <= thresholds[j] && forall l :: i <= l < j ==> thresholds[l] < sample)
      ==> k == values[j]
    decreases |thresholds| - i
  {
    if i >= |thresholds| then NoKey
    else if sample <= thresholds[i] then values[i]
    else FirstBelow(sample, thresholds, values, i + 1)
  }

  /** The ADC variant of `key_read`: the first key whose threshold is at
      least the sample, or `NoKey`. */
  method KeyReadAdc(sample: u16, thresholds: seq<u16>, values: seq<u8>) returns (k: u8)
    requires |values| == |thresholds|
    ensures k == FirstBelow(sample, thresholds, values, 0)
  {
    var i := 0;
    while i < |thresholds|
      invariant 0 <= i <= |thresholds|
      invariant FirstBelow(sample, thresholds, values, 0) == FirstBelow(sample, thresholds, values, i)
    {
      if sample <= thresholds[i] {
        return values[i];
      }
      i := i + 1;
    }
    return NoKey;
  }

  // ---------------------------------------------------------------------
  // The engine's state, updated in place
  // ---------------------------------------------------------------------

  /** The thresholds `key_period_setting` derives from milliseconds. */
  function Periods(longMs: u16, holdMs: u16, timeoutMs: u16): (c: Config)
    ensures c.longPress * KeyScanPeriod <= longMs < (c.longPress + 1) * KeyScanPeriod
    ensures c.hold * KeyScanPeriod <= holdMs < (c.hold + 1) * KeyScanPeriod
    ensures c.multiClickTimeout * KeyScanPeriod <= timeoutMs < (c.multiClickTimeout + 1) * KeyScanPeriod
  {
    Config(longMs / KeyScanPeriod, holdMs / KeyScanPeriod, timeoutMs / KeyScanPeriod)
  }

  /** The globals and function-static variables of `key.c`. */
  class KeyScanner {
    // key_period_setting's globals, in ticks
    var longPressTime: u16
    var holdPressTime: u16
    var multiClickTimeout: u16
    // key_tick's function-static counters
    var lastKey: u8
    var debounceCount: u8
    var pressDuration: u16
    var clickCount: u8
    var pendingKey: u8
    var multiClickTimer: u8
    // key_state
    var latch: KeyState

    function Cfg(): Config
      reads this
    {
      Config(longPressTime, holdPressTime, multiClickTimeout)
    }

    function State(): Engine
      reads this
    {
      Engine(lastKey, debounceCount, pressDuration, clickCount, pendingKey, multiClickTimer, latch)
    }

    /** Static initialisation: zeroed globals, counters idle, latch cleared. */
    constructor ()
      ensures State() == PowerUp
      ensures Cfg() == Config(0, 0, 0)
    {
      longPressTime, holdPressTime, multiClickTimeout := 0, 0, 0;
      lastKey, debounceCount, pressDuration := NoKey, 0, 0;
      clickCount, pendingKey, multiClickTimer := 0, NoKey, 0;
      latch := Cleared;
    }

    /** `key_period_setting` */
    method PeriodSetting(longMs: u16, holdMs: u16, timeoutMs: u16)
      modifies this
      ensures Cfg() == Periods(longMs, holdMs, timeoutMs)
      ensures State() == old(State())
    {
      longPressTime := longMs / KeyScanPeriod;
      holdPressTime := holdMs / KeyScanPeriod;
      multiClickTimeout := timeoutMs / KeyScanPeriod;
    }

    /** `key_init` (GPIO build): the recommended 500/1000/250 ms settings. */
    method Init()
      modifies this
      ensures Cfg() == Config(50, 100, 25)
      ensures State() == old(State())
    {
      PeriodSetting(500, 1000, 250);
    }

    /** `key_tick`, given the key code `key_read` returned this tick. */
    method Tick(current: u8)
      modifies this
      ensures State() == Step(old(Cfg()), old(State()), current)
      ensures Cfg() == old(Cfg())
    {
      ScanPhase(current);
      TimerPhase();
    }

    /** The first half of `key_tick`: debounce, release, press duration,
        long press and hold. */
    method ScanPhase(current: u8)
      modifies this
      ensures State() == ScanStep(old(Cfg()), old(State()), current)
      ensures Cfg() == old(Cfg())
    {
      if current != lastKey {
        debounceCount := Inc8(debounceCount);
        if debounceCount >= DebounceThreshold {
          if current == NoKey {
            if pressDuration >= longPressTime {
              latch := KeyState(Up, pendingKey);
            } else {
              clickCount := Inc8(clickCount);
              pendingKey := lastKey;
              multiClickTimer := Truncate8(multiClickTimeout);
            }
            pressDuration := 0;
          } else {
            pendingKey := current;
          }
          lastKey := current;
        }
      } else {
        debounceCount := 0;
        if current != NoKey {
          pressDuration := Inc16(pressDuration);
          if pressDuration == longPressTime {
            clickCount := 0;
            latch := KeyState(LongPress, current);
          } else if pressDuration >= holdPressTime {
            if pressDuration % HoldCadence == 0 {
              latch := KeyState(Hold, current);
            }
          }
        }
      }
    }

    /** The second half of `key_tick`: the multi-click countdown. */
    method TimerPhase()
      modifies this
      ensures State() == TimerStep(old(State()))
      ensures Cfg() == old(Cfg())
    {
      if multiClickTimer > 0 {
        multiClickTimer := multiClickTimer - 1;
        if multiClickTimer == 0 {
          if clickCount == 1 {
            latch := latch.(event := Click);
          } else if clickCount == 2 {
            latch := latch.(event := DoubleClick);
          } else if clickCount == 3 {
            latch := latch.(event := TripleClick);
          }
          latch := latch.(value := pendingKey);
          clickCount := 0;
          pendingKey := NoKey;
        }
      }
    }

    /** `key_tick` as built: read the GPIO keys, then advance the engine. */
    method Scan(levels: seq<u8>)
      requires |levels| == KeyNum
      modifies this
      ensures State() == Step(old(Cfg()), old(State()), FirstActive(levels, 0))
      ensures Cfg() == old(Cfg())
    {
      var current := KeyRead(levels);
      Tick(current);
    }

    /** `key_get_state`: hand out the latched pair and clear the latch. */
    method GetState() returns (s: KeyState)
      modifies this`latch
      ensures s == old(latch)
      ensures latch == Cleared
      ensures (s, State()) == Take(old(State()))
    {
      s := latch;
      latch := Cleared;
    }
  }
}
