/** The maker's protocol task that sets the trade's lock time. Calls into code
    outside the model (the intercept hook and the wallet's best chain height)
    are inputs that either return or throw, and the random number of extra
    blocks, from 0 up to but excluding ten days' worth, is the input `r`. */
module MakerTasks {
  import opened JavaTypes
  import opened TradeModel

  const BLOCKS_PER_DAY: int := 144

  /** How a task ends: `complete()` or `failed(t)` with the thrown cause. */
  datatype TaskOutcome = Complete | Failed(cause: Throwable)

  /** What one run does to the trade: the values it passes to setLockTime, in
      order, and the outcome it signals. */
  datatype Effect = Effect(writes: seq<int64>, outcome: TaskOutcome)

  /** Twenty days of blocks plus a random draw of up to ten days more: a
      delay of 20 to 30 days of blocks. */
  function Delay(r: int): (delay: int32)
    requires 0 <= r < 10 * BLOCKS_PER_DAY
    ensures 20 * BLOCKS_PER_DAY <= delay as int < 30 * BLOCKS_PER_DAY
  {
    (20 * BLOCKS_PER_DAY + r) as int32
  }

  /** The randomized lock time: the int sum `height + delay`, widened to long.
      It is an int value agreeing with the exact sum modulo 2^32, which fixes
      Java's wrapped result; below the overflow threshold it is 20 to 30 days
      of blocks above the height. */
  function RandomizedLockTime(height: int32, r: int): (lockTime: int64)
    requires 0 <= r < 10 * BLOCKS_PER_DAY
    ensures INT_MIN <= lockTime as int <= INT_MAX
    ensures (lockTime as int - (height as int + Delay(r) as int)) % 0x1_0000_0000 == 0
    ensures height as int <= INT_MAX - 4319 ==>
              && lockTime as int == height as int + Delay(r) as int
              && height as int + 2880 <= lockTime as int <= height as int + 4319
  {
    Widen(AddInt32(height, Delay(r)))
  }

  /** The lock time the step finally stores, `height + 5`: five blocks above
      the height unless the int sum overflows. */
  function DevLockTime(height: int32): (lockTime: int64)
    ensures INT_MIN <= lockTime as int <= INT_MAX
    ensures (lockTime as int - (height as int + 5)) % 0x1_0000_0000 == 0
    ensures height as int <= INT_MAX - 5 ==> lockTime as int == height as int + 5
  {
    Widen(AddInt32(height, 5))
  }

  /** What `run()` does, given how each outside call behaves. The try block
      runs the hook, reads the height and writes the randomized lock time,
      reads the height again and overwrites the lock time; whatever throws
      first ends the block and is handed to `failed`. */
  function RunEffect(hook: Call<()>, r: int, firstRead: Call<int32>, secondRead: Call<int32>): (e: Effect)
    requires 0 <= r < 10 * BLOCKS_PER_DAY
    ensures |e.writes| <= 2
    ensures e.outcome == Complete <==> |e.writes| == 2
  {
    if hook.Throws? then Effect([], Failed(hook.cause))
    else if firstRead.Throws? then Effect([], Failed(firstRead.cause))
    else
      var first := RandomizedLockTime(firstRead.value, r);
      if secondRead.Throws? then Effect([first], Failed(secondRead.cause))
      else Effect([first, DevLockTime(secondRead.value)], Complete)
  }

  /** The trade's lock time after a sequence of writes: the last one wins. */
  function LockTimeAfter(lockTime: int64, writes: seq<int64>): (t: int64)
  {
    if writes == [] then lockTime else writes[|writes| - 1]
  }

  /** LockTimeAfter describes a series of setLockTime calls (no writes leave
      the lock time alone, the last write wins): applying one batch of writes
      and then another is applying them all in order, which is what two
      successive calls of SetLockTime do to a trade. */
  lemma {:induction false} LockTimeAfterConcat(lockTime: int64, w1: seq<int64>, w2: seq<int64>)
    ensures LockTimeAfter(LockTimeAfter(lockTime, w1), w2) == LockTimeAfter(lockTime, w1 + w2)
  {
  }

  /** If the intercept hook throws, nothing is read or written and the task
      fails with the hook's cause, whatever the other calls would have done. */
  lemma HookFirst(t: Throwable, r: int, firstRead: Call<int32>, secondRead: Call<int32>, lockTime: int64)
    requires 0 <= r < 10 * BLOCKS_PER_DAY
    ensures var e := RunEffect(Throws(t), r, firstRead, secondRead);
      && e.writes == []
      && e.outcome == Failed(t)
      && LockTimeAfter(lockTime, e.writes) == lockTime
  {
  }

  /** The first write stores the first height read plus the delay; for any
      height from which the int sum cannot overflow, that is
      20 to 30 days of blocks above the height. */
  lemma FirstWrite(r: int, h1: int32, secondRead: Call<int32>)
    requires 0 <= r < 10 * BLOCKS_PER_DAY
    ensures var e := RunEffect(Returns(()), r, Returns(h1), secondRead);
      && |e.writes| >= 1
      && e.writes[0] == Widen(AddInt32(h1, Delay(r)))
      && (h1 as int <= INT_MAX - 4319 ==>
            && e.writes[0] as int == h1 as int + Delay(r) as int
            && h1 as int + 2880 <= e.writes[0] as int <= h1 as int + 4319)
  {
  }

  /** On success the stored lock time is the second height read plus 5: the
      randomized value is always overwritten, so the final value does not
      depend on the random draw at all. */
  lemma RandomizedValueOverwritten(r1: int, r2: int, h1: int32, h2: int32, lockTime: int64)
    requires 0 <= r1 < 10 * BLOCKS_PER_DAY && 0 <= r2 < 10 * BLOCKS_PER_DAY
    ensures var e := RunEffect(Returns(()), r1, Returns(h1), Returns(h2));
      && e.outcome == Complete
      && e.writes == [RandomizedLockTime(h1, r1), DevLockTime(h2)]
      && LockTimeAfter(lockTime, e.writes) == DevLockTime(h2)
      && LockTimeAfter(lockTime, e.writes) ==
           LockTimeAfter(lockTime, RunEffect(Returns(()), r2, Returns(h1), Returns(h2)).writes)
      && (h2 as int <= INT_MAX - 5 ==> LockTimeAfter(lockTime, e.writes) as int == h2 as int + 5)
  {
  }

  /** The step is not atomic: when the second height read throws, the
      randomized lock time stays on the trade and the task fails. */
  lemma SecondReadFaultKeepsFirstWrite(r: int, h1: int32, t: Throwable, lockTime: int64)
    requires 0 <= r < 10 * BLOCKS_PER_DAY
    ensures var e := RunEffect(Returns(()), r, Returns(h1), Throws(t));
      && e.outcome == Failed(t)
      && LockTimeAfter(lockTime, e.writes) == RandomizedLockTime(h1, r)
      && e.writes == [RandomizedLockTime(h1, r)]
  {
  }

  /** Exactly one outcome, and the right one: `complete()` exactly when every
      outside call returned, otherwise `failed` with the cause of the first
      call that threw. */
  lemma OutcomeIsFirstFault(hook: Call<()>, r: int, firstRead: Call<int32>, secondRead: Call<int32>)
    requires 0 <= r < 10 * BLOCKS_PER_DAY
    ensures var e := RunEffect(hook, r, firstRead, secondRead);
      && (e.outcome == Complete <==> hook.Returns? && firstRead.Returns? && secondRead.Returns?)
      && (hook.Throws? ==> e.outcome == Failed(hook.cause))
      && (hook.Returns? && firstRead.Throws? ==> e.outcome == Failed(firstRead.cause))
      && (hook.Returns? && firstRead.Returns? && secondRead.Throws? ==> e.outcome == Failed(secondRead.cause))
  {
  }

  /** The task object: it works on one trade. */
  class MakerSetsLockTime {
    const trade: Trade

    constructor (trade: Trade)
      ensures this.trade == trade
    {
      this.trade := trade;
    }

    /** `run()`. Only the trade's lock time (and its write log) may change. */
    method Run(hook: Call<()>, r: int, firstRead: Call<int32>, secondRead: Call<int32>) returns (outcome: TaskOutcome)
      requires 0 <= r < 10 * BLOCKS_PER_DAY
      modifies trade`lockTime, trade`lockTimeWrites
      ensures var e := RunEffect(hook, r, firstRead, secondRead);
        && outcome == e.outcome
        && trade.lockTimeWrites == old(trade.lockTimeWrites) + e.writes
        && trade.lockTime == LockTimeAfter(old(trade.lockTime), e.writes)
    {
      // Each outside call that throws ends the run with Failed(its cause);
      // the intercept hook comes before everything else.
      if hook.Throws? {
        return Failed(hook.cause);
      }
      var delay := Delay(r);
      if firstRead.Throws? {
        return Failed(firstRead.cause);
      }
      var lockTime := Widen(AddInt32(firstRead.value, delay));
      trade.SetLockTime(lockTime);
      // Suspicious: marked "todo for dev testing" in the source, this second
      // write replaces the 20-30 day lock time just computed with a lock time
      // only 5 blocks above the chain tip. It is modelled as written.
      if secondRead.Throws? {
        return Failed(secondRead.cause);
      }
      trade.SetLockTime(Widen(AddInt32(secondRead.value, 5)));
      // Only a run in which every call returned reaches this point.
      outcome := Complete;
    }
  }
}
