/** The interview countdown of the browser: a one-second interval counts
    `timeLeft` down while the timer runs and calls `onExpire` once when it
    reaches zero. The interval and the deferred callback are modelled as
    steps: each `Tick` is one interval firing, and its flag says whether
    `onExpire` was scheduled. */
module InterviewTimer {
  import opened Text

  datatype Timer = Timer(timeLeft: int, isRunning: bool, hasExpired: bool)

  /** The hook's initial state for a duration in seconds. */
  function Init(durationSeconds: int): (r: Timer)
    ensures r.timeLeft == durationSeconds && !r.isRunning && !r.hasExpired
  {
    Timer(durationSeconds, false, false)
  }

  /** `start()`: a running timer is left alone; otherwise the expiry latch
      is cleared and the interval starts. `timeLeft` is not reset. */
  function Start(t: Timer): (r: Timer)
    ensures r.isRunning && r.timeLeft == t.timeLeft
    ensures t.isRunning ==> r == t
    ensures !t.isRunning ==> !r.hasExpired
  {
    if t.isRunning then t else t.(hasExpired := false, isRunning := true)
  }

  /** `stop()`. */
  function Stop(t: Timer): (r: Timer)
    ensures !r.isRunning && r.timeLeft == t.timeLeft && r.hasExpired == t.hasExpired
  {
    t.(isRunning := false)
  }

  /** One interval callback as written: the first time the count reaches
      zero or below it is pinned to zero and `onExpire` is scheduled; after
      that the count keeps going down. No interval runs while stopped. */
  function Tick(t: Timer): (r: (Timer, bool))
    ensures r.0.isRunning == t.isRunning
    ensures !t.isRunning ==> r == (t, false)
    ensures r.1 <==> t.isRunning && !t.hasExpired && t.timeLeft <= 1
    ensures r.1 ==> r.0.timeLeft == 0 && r.0.hasExpired
    ensures t.isRunning && !r.1 ==> r.0.timeLeft == t.timeLeft - 1 && r.0.hasExpired == t.hasExpired
  {
    if !t.isRunning then (t, false)
    else
      var next := t.timeLeft - 1;
      if next <= 0 && !t.hasExpired then (t.(timeLeft := 0, hasExpired := true), true)
      else (t.(timeLeft := next), false)
  }

  /** `n` interval callbacks; the count is how many scheduled `onExpire`. */
  function Ticks(t: Timer, n: nat): (r: (Timer, nat))
    decreases n
  {
    if n == 0 then (t, 0)
    else
      var (t1, fired) := Tick(t);
      var (t2, k) := Ticks(t1, n - 1);
      (t2, k + if fired then 1 else 0)
  }

  /** `isExpired`. */
  predicate IsExpired(t: Timer) {
    t.timeLeft <= 0
  }

  // ---------------------------------------------------------------------
  // `formattedTime`

  /** `String(n)` for an integer. */
  function IntToString(n: int): (r: string)
    ensures r != []
  {
    if n < 0 then "-" + NatToString(-n) else NatToString(n)
  }

  /** JavaScript's `%`, whose result takes the sign of the dividend. */
  function JsRem(a: int, b: int): (r: int)
    requires b > 0
    ensures -b < r < b
    ensures a >= 0 ==> r >= 0
    ensures a <= 0 ==> r <= 0
  {
    if a >= 0 then a % b else -((-a) % b)
  }

  /** `s.padStart(2, '0')`. */
  function PadStart2(s: string): (r: string)
    ensures |r| == if |s| < 2 then 2 else |s|
  {
    if |s| == 0 then "00" else if |s| == 1 then "0" + s else s
  }

  /** `${Math.floor(timeLeft / 60)}:${String(timeLeft % 60).padStart(2, '0')}`.
      Dafny's `/` by a positive divisor rounds down, as `Math.floor` does. */
  function FormatTime(timeLeft: int): (r: string)
    ensures |r| >= 4
    ensures 0 <= timeLeft < 600 ==> |r| == 4 && r[1] == ':'
  {
    ShortDisplay(timeLeft);
    IntToString(timeLeft / 60) + ":" + PadStart2(IntToString(JsRem(timeLeft, 60)))
  }

  /** Under ten minutes the minutes take one digit and the seconds at most
      two. */
  lemma ShortDisplay(timeLeft: int)
    ensures 0 <= timeLeft < 600 ==>
      |IntToString(timeLeft / 60)| == 1 && |IntToString(JsRem(timeLeft, 60))| <= 2
  {
    if 0 <= timeLeft < 600 {
      assert NatToString(timeLeft / 60) == [DigitChar(timeLeft / 60)];
      if timeLeft % 60 >= 10 { assert NatToString(timeLeft % 60 / 10) == [DigitChar(timeLeft % 60 / 10)]; }
    }
  }

  /** For a non-negative count the display is minutes, a colon and two
      seconds digits, and reading it back gives the count. */
  lemma FormatReadsBack(timeLeft: int) returns (minutes: string, seconds: string)
    requires timeLeft >= 0
    ensures FormatTime(timeLeft) == minutes + ":" + seconds
    ensures AllDigits(minutes) && AllDigits(seconds) && |seconds| == 2 && minutes != []
    ensures DigitsValue(minutes) * 60 + DigitsValue(seconds) == timeLeft
  {
    minutes := NatToString(timeLeft / 60);
    var s := NatToString(timeLeft % 60);
    seconds := PadStart2(s);
    assert |s| <= 2 by {
      if timeLeft % 60 >= 10 { assert NatToString(timeLeft % 60 / 10) == [DigitChar(timeLeft % 60 / 10)]; }
    }
    if |s| == 1 {
      assert seconds[..|seconds| - 1] == "0";
    }
  }

  /** The two minutes of an interview display as "2:00". */
  lemma FullInterviewDisplay()
    ensures FormatTime(120) == "2:00"
  {
    assert NatToString(2) == "2";
    assert NatToString(0) == "0";
  }

  // ---------------------------------------------------------------------
  // Properties of the countdown

  /** `start` on a running timer changes nothing; on a stopped one it runs
      the countdown from where it was with the latch cleared. */
  lemma StartEffect(t: Timer)
    ensures t.isRunning ==> Start(t) == t
    ensures !t.isRunning ==> Start(t) == Timer(t.timeLeft, true, false)
  {
  }

  /** A stopped timer ignores the interval. */
  lemma StoppedIgnoresTicks(t: Timer, n: nat)
    requires !t.isRunning
    ensures Ticks(t, n) == (t, 0)
  {
  }

  /** While the count stays positive each tick subtracts one second and
      nothing fires. */
  lemma {:induction false} CountsDown(t: Timer, n: nat)
    requires t.isRunning && n < t.timeLeft
    ensures Ticks(t, n) == (t.(timeLeft := t.timeLeft - n), 0)
    decreases n
  {
    if n > 0 {
      CountsDown(Tick(t).0, n - 1);
    }
  }

  /** Once started, `onExpire` is scheduled at most once, and not at all
      when the latch is already set. */
  lemma {:induction false} FiresAtMostOnce(t: Timer, n: nat)
    ensures Ticks(t, n).1 + (if t.hasExpired then 1 else 0) <= 1
    ensures Ticks(t, n).0.hasExpired == (t.hasExpired || Ticks(t, n).1 == 1)
    ensures Ticks(t, n).0.isRunning == t.isRunning
    decreases n
  {
    if n > 0 {
      FiresAtMostOnce(Tick(t).0, n - 1);
    }
  }

  /** A started timer of `d` seconds fires exactly on its `d`-th tick and
      then reads zero. */
  lemma ExpiresOnTime(t: Timer)
    requires t.isRunning && !t.hasExpired && t.timeLeft >= 1
    ensures var (r, fired) := Ticks(t, t.timeLeft as nat);
      fired == 1 && r.timeLeft == 0 && r.hasExpired && IsExpired(r)
  {
    var d := t.timeLeft as nat;
    CountsDown(t, d - 1);
    TicksSnoc(t, d - 1);
  }

  /** `n + 1` ticks are `n` ticks followed by one. */
  lemma {:induction false} TicksSnoc(t: Timer, n: nat)
    ensures var (m, k) := Ticks(t, n); var (r, f) := Tick(m);
      Ticks(t, n + 1) == (r, k + if f then 1 else 0)
    decreases n
  {
    if n > 0 {
      TicksSnoc(Tick(t).0, n - 1);
    }
  }

  /** After expiry a running timer keeps counting below zero. */
  lemma {:induction false} CountsBelowZero(t: Timer, n: nat)
    requires t.isRunning && t.hasExpired
    ensures Ticks(t, n) == (t.(timeLeft := t.timeLeft - n), 0)
    decreases n
  {
    if n > 0 {
      CountsBelowZero(Tick(t).0, n - 1);
    }
  }

  /** The interview page never stops the timer, so one second after expiry
      the display reads "-1:-1". */
  lemma NegativeDisplay()
    ensures var (t, fired) := Ticks(Timer(1, true, false), 2);
      fired == 1 && t.timeLeft == -1 && FormatTime(t.timeLeft) == "-1:-1"
  {
    assert NatToString(1) == "1";
    assert (-1) / 60 == -1;
  }

  // ---------------------------------------------------------------------
  // The countdown as evidently intended: pinned at zero once expired

  /** One interval callback that leaves the count at zero once it gets
      there, firing `onExpire` only the first time. */
  function TickClamped(t: Timer): (r: (Timer, bool))
  {
    if !t.isRunning then (t, false)
    else
      var next := t.timeLeft - 1;
      if next <= 0 then (t.(timeLeft := 0, hasExpired := true), !t.hasExpired)
      else (t.(timeLeft := next), false)
  }

  function TicksClamped(t: Timer, n: nat): (r: (Timer, nat))
    decreases n
  {
    if n == 0 then (t, 0)
    else
      var (t1, fired) := TickClamped(t);
      var (t2, k) := TicksClamped(t1, n - 1);
      (t2, k + if fired then 1 else 0)
  }

  /** The pinned countdown never goes negative, so its display always reads
      back as the count; `onExpire` still fires at most once. */
  lemma {:induction false} ClampedStaysDisplayable(t: Timer, n: nat)
    requires t.timeLeft >= 0
    ensures TicksClamped(t, n).0.timeLeft >= 0
    ensures TicksClamped(t, n).1 + (if t.hasExpired then 1 else 0) <= 1
    decreases n
  {
    if n > 0 {
      ClampedStaysDisplayable(TickClamped(t).0, n - 1);
    }
  }

  /** The two agree until the count would go below zero. */
  lemma ClampedAgreesWhilePositive(t: Timer)
    requires t.timeLeft > 1 || !t.hasExpired
    ensures TickClamped(t) == Tick(t)
  {
  }
}
