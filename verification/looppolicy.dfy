/** The launcher's re-scheduling ("loop") policy: after a run, a job whose
    message carries `loop = n` is submitted again with `n - 1` when `n > 1`,
    forever with `0` when `n == 0`, and not at all when `n == 1` or `n < 0`. */
module LoopPolicy {
  import opened Common
  import opened PyInt

  /** `int(msg["loop"])`: a string must read as a decimal integer
      (ValueError otherwise); `int` of a dictionary is a TypeError. */
  function LoopValue(v: Value): (r: Result<int, PyError>)
    ensures v.Dict? ==> r == Failure(TypeError)
    ensures v.Str? ==> (r.Success? <==> ParseInt(v.s).Some?)
    ensures v.Str? && r.Failure? ==> r.error == ValueError
    ensures r.Success? ==> v.Str? && ParseInt(v.s) == Some(r.value)
  {
    match v
    case Dict(_) => Failure(TypeError)
    case Str(s) =>
      match ParseInt(s)
      case Some(n) => Success(n)
      case None => Failure(ValueError)
  }

  /** `msg` with its `loop` field set to `str(n)`. */
  function WithLoop(msg: Message, n: int): (m: Message)
    ensures m.Keys == msg.Keys + {"loop"}
    ensures forall k :: k in msg && k != "loop" ==> m[k] == msg[k]
  {
    msg["loop" := Str(IntToStr(n))]
  }

  /** The message a finished run re-submits, if any; `Failure` is the
      exception `int()` raises on a malformed `loop` field. */
  function Resubmission(msg: Message): (r: Result<Option<Message>, PyError>)
    ensures "loop" !in msg ==> r == Success(None)
    ensures "loop" in msg ==> (r.Failure? <==> LoopValue(msg["loop"]).Failure?)
    ensures "loop" in msg && LoopValue(msg["loop"]).Success? ==>
      var n := LoopValue(msg["loop"]).value;
      && (n > 1 ==> r == Success(Some(WithLoop(msg, n - 1))))
      && (n == 0 ==> r == Success(Some(WithLoop(msg, 0))))
      && (n == 1 || n < 0 ==> r == Success(None))
    // A re-submission differs from the finished job's message in `loop` only.
    ensures r.Success? && r.value.Some? ==>
      && r.value.value.Keys == msg.Keys
      && forall k :: k in msg && k != "loop" ==> r.value.value[k] == msg[k]
  {
    if "loop" !in msg then Success(None)
    else
      match LoopValue(msg["loop"])
      case Failure(e) => Failure(e)
      case Success(loop) =>
        if loop == 0 || loop > 1 then
          var next := if loop > 1 then loop - 1 else loop;
          Success(Some(WithLoop(msg, next)))
        else Success(None)
  }

  /** The messages re-submitted over `runs` successive runs of one job, each
      run being the previous re-submission; the chain stops at the first
      run that re-submits nothing (or raises). */
  function Resubmissions(msg: Message, runs: nat): seq<Message>
    decreases runs
  {
    if runs == 0 then []
    else
      match Resubmission(msg)
      case Success(Some(next)) => [next] + Resubmissions(next, runs - 1)
      case _ => []
  }

  /** One link of the chain of re-submissions. */
  lemma ChainStep(m: Message, runs: nat)
    ensures runs > 0 && Resubmission(m).Success? && Resubmission(m).value.Some? ==>
      Resubmissions(m, runs) == [Resubmission(m).value.value] + Resubmissions(Resubmission(m).value.value, runs - 1)
    ensures runs > 0 && Resubmission(m) == Success(None) ==> Resubmissions(m, runs) == []
  {
  }

  /** What a run of a job whose `loop` field was written as `str(n)` re-submits. */
  lemma ResubmissionOfWritten(msg: Message, n: int)
    ensures Resubmission(WithLoop(msg, n)) ==
      if n > 1 then Success(Some(WithLoop(msg, n - 1)))
      else if n == 0 then Success(Some(WithLoop(msg, 0)))
      else Success(None)
  {
    var m := WithLoop(msg, n);
    IntRoundTrip(n);
    assert LoopValue(m["loop"]) == Success(n);
    assert WithLoop(m, n - 1) == WithLoop(msg, n - 1);
    assert WithLoop(m, 0) == WithLoop(msg, 0);
  }

  /** The re-submissions a countdown from `n` makes: `loop` set to
      `n - 1`, then `n - 2`, ..., then 1. */
  function Countdown(msg: Message, n: int): (r: seq<Message>)
    ensures |r| == if n > 1 then n - 1 else 0
    decreases n
  {
    if n <= 1 then [] else [WithLoop(msg, n - 1)] + Countdown(msg, n - 1)
  }

  /** The `i`-th re-submission of a countdown from `n` carries `n - 1 - i`. */
  lemma {:induction false} CountdownAt(msg: Message, n: int, i: nat)
    requires i < n - 1
    ensures Countdown(msg, n)[i] == WithLoop(msg, n - 1 - i)
    decreases n
  {
    if i > 0 {
      CountdownAt(msg, n - 1, i - 1);
    }
  }

  /** A countdown only ever overwrites `loop`, so it does not depend on the
      value `loop` had before. */
  lemma {:induction false} CountdownOverwrites(msg: Message, j: int, n: int)
    ensures Countdown(WithLoop(msg, j), n) == Countdown(msg, n)
    decreases n
  {
    if n > 1 {
      assert WithLoop(WithLoop(msg, j), n - 1) == WithLoop(msg, n - 1);
      CountdownOverwrites(msg, j, n - 1);
    }
  }

  /** A run of a job whose `loop` reads as `n > 1` re-submits it with a
      `loop` that reads as `n - 1`, and the chain continues from there. */
  lemma CountdownStep(msg: Message, n: int, runs: nat)
    requires "loop" in msg && LoopValue(msg["loop"]) == Success(n) && n > 1 && runs > 0
    ensures Resubmissions(msg, runs) == [WithLoop(msg, n - 1)] + Resubmissions(WithLoop(msg, n - 1), runs - 1)
    ensures LoopValue(WithLoop(msg, n - 1)["loop"]) == Success(n - 1)
  {
    IntRoundTrip(n - 1);
    assert Resubmission(msg) == Success(Some(WithLoop(msg, n - 1)));
  }

  /** A job whose `loop` field reads as `n >= 1` is re-submitted exactly
      `n - 1` times, carrying `n - 1, ..., 1` in that order (see
      CountdownAt), with every other message field unchanged: `n` runs in
      all. */
  lemma {:induction false} CountdownResubmissions(msg: Message, n: int, runs: nat)
    requires "loop" in msg && LoopValue(msg["loop"]) == Success(n)
    requires n >= 1 && runs >= n - 1
    ensures Resubmissions(msg, runs) == Countdown(msg, n)
    decreases n
  {
    if n > 1 {
      CountdownStep(msg, n, runs);
      CountdownResubmissions(WithLoop(msg, n - 1), n - 1, runs - 1);
      CountdownOverwrites(msg, n - 1, n - 1);
    } else {
      CountdownLast(msg, runs);
    }
  }

  /** A run of a job whose `loop` reads as 1 re-submits nothing. */
  lemma CountdownLast(msg: Message, runs: nat)
    requires "loop" in msg && LoopValue(msg["loop"]) == Success(1)
    ensures Resubmissions(msg, runs) == []
  {
    if runs > 0 {
      assert Resubmission(msg) == Success(None);
    }
  }

  /** `runs` copies of `m`. */
  function Repeat(m: Message, runs: nat): (r: seq<Message>)
    ensures |r| == runs
  {
    if runs == 0 then [] else [m] + Repeat(m, runs - 1)
  }

  /** A job with `loop = 0` is re-submitted after every run, each time with
      `loop` written back as "0" and every other field unchanged. */
  lemma EndlessResubmissions(msg: Message, runs: nat)
    requires "loop" in msg && LoopValue(msg["loop"]) == Success(0)
    ensures Resubmissions(msg, runs) == Repeat(WithLoop(msg, 0), runs)
  {
    var m := WithLoop(msg, 0);
    assert Resubmission(msg) == Success(Some(m));
    ResubmissionOfWritten(m, 0);
    assert WithLoop(m, 0) == m;
    ChainStep(msg, runs);
    if runs > 0 {
      EndlessFrom(m, runs - 1);
    }
  }

  /** The chain from a message whose `loop` was written as "0". */
  lemma {:induction false} EndlessFrom(m: Message, runs: nat)
    requires Resubmission(m) == Success(Some(m))
    ensures Resubmissions(m, runs) == Repeat(m, runs)
    decreases runs
  {
    if runs > 0 {
      EndlessFrom(m, runs - 1);
    }
  }

  /** `loop = 3` yields re-submissions with 2 and then 1: three runs. */
  lemma LoopThree(msg: Message, runs: nat)
    requires runs >= 2
    ensures Resubmissions(WithLoop(msg, 3), runs) == [WithLoop(msg, 2), WithLoop(msg, 1)]
  {
    var m := WithLoop(msg, 3);
    IntRoundTrip(3);
    CountdownResubmissions(m, 3, runs);
    CountdownOverwrites(msg, 3, 3);
    CountdownAt(msg, 3, 0);
    CountdownAt(msg, 3, 1);
  }
}
