/**
 * Delivery of one payload to one Discord webhook: POST it, classify the
 * reply, and on anything but a success or a rejection wait and post the same
 * payload again. The network is a script of replies, one per attempt, each
 * also saying whether the backoff sleep that may follow it is interrupted.
 */
module Retry {
  import opened Wrappers
  import opened Json

  /** The webhook URL for a destination (String.format of the URL template). */
  function WebhookUrl(id: string, token: string): string {
    "https://canary.discordapp.com/api/webhooks/" + id + "/" + token + "?wait=true"
  }

  /**
   * Destinations whose ids hold no '/' (every id a request path yields) get
   * different URLs: the URL names the id and the token it was built from.
   */
  lemma WebhookUrlsDistinct(id1: string, token1: string, id2: string, token2: string)
    requires '/' !in id1 && '/' !in id2
    ensures WebhookUrl(id1, token1) == WebhookUrl(id2, token2) <==> id1 == id2 && token1 == token2
  {
    var u1, u2 := WebhookUrl(id1, token1), WebhookUrl(id2, token2);
    if u1 == u2 {
      var head := "https://canary.discordapp.com/api/webhooks/";
      var m1, m2 := id1 + "/" + token1, id2 + "/" + token2;
      assert u1 == head + m1 + "?wait=true" && u2 == head + m2 + "?wait=true";
      assert m1 == u1[|head|..|u1| - 10] == u2[|head|..|u2| - 10] == m2;
      FirstSlashAfterId(id1, token1);
      FirstSlashAfterId(id2, token2);
      assert |id1| == |id2|;
      assert id1 == m1[..|id1|] == m2[..|id2|] == id2;
      assert token1 == m1[|id1| + 1..] == m2[|id2| + 1..] == token2;
    }
  }

  /** With no '/' in the id, the first '/' of id + "/" + token is the one after the id. */
  lemma FirstSlashAfterId(id: string, token: string)
    requires '/' !in id
    ensures (id + "/" + token)[|id|] == '/'
    ensures forall i :: 0 <= i < |id| ==> (id + "/" + token)[i] != '/'
  {
    assert forall i :: 0 <= i < |id| ==> (id + "/" + token)[i] == id[i];
  }

  const BackoffStep: int := 1000      // milliseconds added per attempt
  const BackoffCeiling: int := 120000 // two minutes

  function Max(a: int, b: int): int { if a < b then b else a }
  function Min(a: int, b: int): int { if a < b then a else b }

  /** The pause, in milliseconds, after the failed attempt with index i (counted from 0). */
  function Backoff(i: int): (ms: int)
    ensures 0 <= ms <= BackoffCeiling
  {
    Max(0, Min(BackoffCeiling, (i - 1) * BackoffStep))
  }

  /**
   * The schedule: no pause after the first two attempts, one second after
   * the third, one more second per attempt after that, never more than two
   * minutes and exactly two minutes from index 121 on.
   */
  lemma BackoffSchedule(i: int, j: int)
    ensures Backoff(0) == 0 && Backoff(1) == 0 && Backoff(2) == 1000
    ensures i <= j ==> Backoff(i) <= Backoff(j)
    ensures Backoff(i) > 0 <==> i >= 2
    ensures 2 <= i <= 121 ==> Backoff(i) == (i - 1) * 1000
    ensures i >= 121 ==> Backoff(i) == BackoffCeiling
  {
  }

  /** Java's int division, which truncates toward zero (Dafny's rounds down). */
  function JavaDiv(a: int, b: int): int
    requires b > 0
  {
    if a >= 0 then a / b else -((-a) / b)
  }

  /** What came back from one POST: a status code, or an exception before the code was acted on. */
  datatype Reply = Status(code: int) | Raised

  /** One scripted attempt: its reply, and whether a backoff sleep after it is interrupted. */
  datatype Step = Step(reply: Reply, interruptsSleep: bool)

  datatype Verdict = Success | Permanent | Transient

  /**
   * A status whose hundreds digit is 2 is a success, 403 and 400 are
   * permanent, and every other status and every exception is transient.
   */
  function Classify(reply: Reply): (v: Verdict)
    ensures v == Success <==> reply.Status? && 200 <= reply.code <= 299
    ensures v == Permanent <==> reply == Status(400) || reply == Status(403)
  {
    match reply
    case Raised => Transient
    case Status(code) =>
      if JavaDiv(code, 100) == 2 then Success
      else if code == 403 || code == 400 then Permanent
      else Transient
  }

  /** The backoff after an attempt: none, a full sleep, or a sleep cut short by an interrupt. */
  datatype Pause = NoPause | Slept(millis: int) | SleepInterrupted(millis: int)

  /** One POST of the payload, and the pause that followed it. */
  datatype Attempt = Attempt(url: string, body: Json, pause: Pause)

  /** Why the retry loop ended; ScriptExhausted means the script had no more replies. */
  datatype End = Delivered | GaveUp | Interrupted | ScriptExhausted

  datatype Outcome = Outcome(attempts: seq<Attempt>, end: End)

  /** The pause after attempt i: a success breaks out at once, anything else sleeps the backoff if it is positive. */
  function PauseAfter(step: Step, i: int): Pause {
    if Classify(step.reply) == Success || Backoff(i) == 0 then NoPause
    else if step.interruptsSleep then SleepInterrupted(Backoff(i))
    else Slept(Backoff(i))
  }

  /** Whether attempt i ends the loop, and how. */
  function StopsAt(step: Step, i: int): Option<End> {
    if Classify(step.reply) == Success then Some(Delivered)
    else if PauseAfter(step, i).SleepInterrupted? then Some(Interrupted)
    else if Classify(step.reply) == Permanent then Some(GaveUp)
    else None
  }

  /** The attempts made from index i on, against the remaining script. */
  function Deliver(url: string, body: Json, script: seq<Step>, i: int): (o: Outcome)
    ensures |o.attempts| <= |script|
    decreases |script|
  {
    if script == [] then Outcome([], ScriptExhausted)
    else
      var first := Attempt(url, body, PauseAfter(script[0], i));
      match StopsAt(script[0], i)
      case Some(end) => Outcome([first], end)
      case None =>
        var rest := Deliver(url, body, script[1..], i + 1);
        Outcome([first] + rest.attempts, rest.end)
  }

  /** sendWebhook: the retry loop, with the network replaced by the script. */
  method SendWebhook(id: string, token: string, embeds: Json, script: seq<Step>) returns (o: Outcome)
    ensures o == Deliver(WebhookUrl(id, token), embeds, script, 0)
  {
    var url := WebhookUrl(id, token);
    ghost var whole := Deliver(url, embeds, script, 0);
    var exit := false;
    var attempts: seq<Attempt> := [];
    var end := ScriptExhausted;
    var i := 0;
    while !exit && i < |script|
      invariant 0 <= i <= |script|
      invariant !exit ==> (end == ScriptExhausted &&
        whole == Outcome(attempts + Deliver(url, embeds, script[i..], i).attempts, Deliver(url, embeds, script[i..], i).end))
      invariant exit ==> Outcome(attempts, end) == whole
      decreases |script| - i, if exit then 0 else 1
    {
      AdvanceOutcome(url, embeds, script, i, attempts, whole);
      var pause, stop := TryOnce(script[i], i);
      attempts := attempts + [Attempt(url, embeds, pause)];
      if stop.Some? {
        end := stop.value;
        exit := true;
      } else {
        i := i + 1;
      }
    }
    o := Outcome(attempts, end);
  }

  /**
   * One pass of the body of sendWebhook's loop, for attempt i: classify the
   * reply, then, unless it is a success, sleep the backoff when it is
   * positive. Says how long it paused and whether the loop ends here.
   */
  method TryOnce(step: Step, i: int) returns (pause: Pause, stop: Option<End>)
    ensures pause == PauseAfter(step, i) && stop == StopsAt(step, i)
  {
    var verdict := Classify(step.reply);
    if verdict == Success {
      return NoPause, Some(Delivered);
    }
    var exit := verdict == Permanent;
    var sleep := Backoff(i);
    pause := NoPause;
    if sleep > 0 {
      if step.interruptsSleep {
        return SleepInterrupted(sleep), Some(Interrupted);
      }
      pause := Slept(sleep);
    }
    stop := if exit then Some(GaveUp) else None;
  }

  /** How one attempt advances the outcome the loop still has to produce. */
  lemma AdvanceOutcome(url: string, body: Json, script: seq<Step>, i: nat, attempts: seq<Attempt>, whole: Outcome)
    requires i < |script|
    requires whole == Outcome(attempts + Deliver(url, body, script[i..], i).attempts, Deliver(url, body, script[i..], i).end)
    ensures var done := attempts + [Attempt(url, body, PauseAfter(script[i], i))];
      var rest := Deliver(url, body, script[i + 1..], i + 1);
      (StopsAt(script[i], i).Some? ==> whole == Outcome(done, StopsAt(script[i], i).value)) &&
      (StopsAt(script[i], i).None? ==> whole == Outcome(done + rest.attempts, rest.end))
  {
    DeliverFrom(url, body, script, i);
    var rest := Deliver(url, body, script[i + 1..], i + 1);
    var first := Attempt(url, body, PauseAfter(script[i], i));
    if StopsAt(script[i], i).None? {
      assert attempts + ([first] + rest.attempts) == (attempts + [first]) + rest.attempts;
    }
  }

  /** The retry loop from attempt i on: attempt i, then, unless it ends the loop, the rest. */
  lemma DeliverFrom(url: string, body: Json, script: seq<Step>, i: nat)
    requires i < |script|
    ensures var first := Attempt(url, body, PauseAfter(script[i], i));
      var rest := Deliver(url, body, script[i + 1..], i + 1);
      Deliver(url, body, script[i..], i) ==
        match StopsAt(script[i], i)
        case Some(end) => Outcome([first], end)
        case None => Outcome([first] + rest.attempts, rest.end)
  {
    assert script[i..][0] == script[i] && script[i..][1..] == script[i + 1..];
  }

  // ---------------------------------------------------------------------
  // Properties of the retry loop.

  /**
   * What the loop does, attempt by attempt: attempt j posts the same body to
   * the same URL and pauses as the backoff for index i + j says; every
   * attempt but the last lets the loop go on; the loop stops early only at
   * an attempt that ends it, and the last attempt's verdict is the end.
   */
  lemma DeliverAttemptByAttempt(url: string, body: Json, script: seq<Step>, i: int)
    ensures var o := Deliver(url, body, script, i);
      var n := |o.attempts|;
      (forall j :: 0 <= j < n ==> o.attempts[j] == Attempt(url, body, PauseAfter(script[j], i + j))) &&
      (forall j :: 0 <= j < n - 1 ==> StopsAt(script[j], i + j).None?) &&
      (n < |script| ==> 0 < n && StopsAt(script[n - 1], i + n - 1).Some?) &&
      o.end == (if 0 < n && StopsAt(script[n - 1], i + n - 1).Some? then StopsAt(script[n - 1], i + n - 1).value
                else ScriptExhausted)
  {
    DeliverAttempts(url, body, script, i);
    DeliverContinues(url, body, script, i);
    DeliverEnds(url, body, script, i);
  }

  lemma {:induction false} DeliverAttempts(url: string, body: Json, script: seq<Step>, i: int)
    ensures var o := Deliver(url, body, script, i);
      forall j :: 0 <= j < |o.attempts| ==> o.attempts[j] == Attempt(url, body, PauseAfter(script[j], i + j))
    decreases |script|
  {
    if script != [] && StopsAt(script[0], i).None? {
      var rest := Deliver(url, body, script[1..], i + 1);
      DeliverAttempts(url, body, script[1..], i + 1);
      AttemptsShift(url, body, script, i, rest.attempts);
    }
  }

  /** The attempts of the first step followed by those of the remaining script are the attempts of the whole script. */
  lemma AttemptsShift(url: string, body: Json, script: seq<Step>, i: int, rest: seq<Attempt>)
    requires script != [] && |rest| < |script|
    requires forall j :: 0 <= j < |rest| ==> rest[j] == Attempt(url, body, PauseAfter(script[1..][j], i + 1 + j))
    ensures var all := [Attempt(url, body, PauseAfter(script[0], i))] + rest;
      forall j :: 0 <= j < |all| ==> all[j] == Attempt(url, body, PauseAfter(script[j], i + j))
  {
    var all := [Attempt(url, body, PauseAfter(script[0], i))] + rest;
    forall j | 0 <= j < |all| ensures all[j] == Attempt(url, body, PauseAfter(script[j], i + j)) {
      if j > 0 {
        assert all[j] == rest[j - 1];
        assert script[1..][j - 1] == script[j];
      }
    }
  }

  lemma {:induction false} DeliverContinues(url: string, body: Json, script: seq<Step>, i: int)
    ensures var n := |Deliver(url, body, script, i).attempts|;
      forall j :: 0 <= j < n - 1 ==> StopsAt(script[j], i + j).None?
    decreases |script|
  {
    if script != [] && StopsAt(script[0], i).None? {
      var rest := Deliver(url, body, script[1..], i + 1);
      DeliverContinues(url, body, script[1..], i + 1);
      var n := |rest.attempts| + 1;
      assert |Deliver(url, body, script, i).attempts| == n;
      forall j | 0 <= j < n - 1 ensures StopsAt(script[j], i + j).None? {
        if j > 0 { assert script[1..][j - 1] == script[j]; }
      }
    }
  }

  lemma {:induction false} DeliverEnds(url: string, body: Json, script: seq<Step>, i: int)
    ensures var o := Deliver(url, body, script, i);
      EndsAsLastStep(script, i, |o.attempts|, o.end)
    decreases |script|
  {
    if script != [] && StopsAt(script[0], i).None? {
      var rest := Deliver(url, body, script[1..], i + 1);
      DeliverEnds(url, body, script[1..], i + 1);
      EndsShift(script, i, |rest.attempts|, rest.end);
    }
  }

  /**
   * A loop over the script from index i that made n attempts and ended with
   * end: it stopped early only at an attempt that ends the loop, and that
   * attempt's verdict (or, with none, the end of the script) is the end.
   */
  predicate EndsAsLastStep(script: seq<Step>, i: int, n: nat, end: End) {
    n <= |script| &&
    (n < |script| ==> 0 < n && StopsAt(script[n - 1], i + n - 1).Some?) &&
    end == (if 0 < n && StopsAt(script[n - 1], i + n - 1).Some? then StopsAt(script[n - 1], i + n - 1).value
            else ScriptExhausted)
  }

  /** Prefixing a step that does not end the loop keeps the last step and the end. */
  lemma EndsShift(script: seq<Step>, i: int, n: nat, end: End)
    requires script != [] && StopsAt(script[0], i).None?
    requires EndsAsLastStep(script[1..], i + 1, n, end)
    ensures EndsAsLastStep(script, i, n + 1, end)
  {
    if 0 < n {
      assert script[1..][n - 1] == script[n];
    }
  }

  /**
   * The number of attempts is the index of the first attempt that ends the
   * loop, plus one, and that attempt decides how it ends.
   */
  lemma AttemptsUpToFirstStop(url: string, body: Json, script: seq<Step>, i: int, k: nat)
    requires k < |script| && StopsAt(script[k], i + k).Some?
    requires forall j :: 0 <= j < k ==> StopsAt(script[j], i + j).None?
    ensures |Deliver(url, body, script, i).attempts| == k + 1
    ensures Deliver(url, body, script, i).end == StopsAt(script[k], i + k).value
  {
    DeliverAttemptByAttempt(url, body, script, i);
  }

  /** The reply ends the loop by itself: a success or a permanent rejection. */
  predicate Final(reply: Reply) {
    Classify(reply) != Transient
  }

  /**
   * With no interrupts, the loop makes one attempt per reply up to and
   * including the first success, 400 or 403, and ends delivered or given up
   * accordingly.
   */
  lemma AttemptCountWithoutInterrupts(url: string, body: Json, script: seq<Step>, k: nat)
    requires forall j :: 0 <= j < |script| ==> !script[j].interruptsSleep
    requires k < |script| && Final(script[k].reply)
    requires forall j :: 0 <= j < k ==> !Final(script[j].reply)
    ensures |Deliver(url, body, script, 0).attempts| == k + 1
    ensures Deliver(url, body, script, 0).end == if Classify(script[k].reply) == Success then Delivered else GaveUp
  {
    AttemptsUpToFirstStop(url, body, script, 0, k);
  }

  /** A first 403 is one attempt and the payload is dropped. */
  lemma ForbiddenIsAttemptedOnce(url: string, body: Json, script: seq<Step>)
    requires script != [] && script[0].reply == Status(403)
    ensures Deliver(url, body, script, 0) == Outcome([Attempt(url, body, NoPause)], GaveUp)
  {
  }

  /** A 500 followed by a 200 is two attempts, with no pause between them, and the payload is delivered. */
  lemma ServerErrorThenSuccess(url: string, body: Json, script: seq<Step>)
    requires |script| >= 2 && script[0].reply == Status(500) && script[1].reply == Status(200)
    ensures Deliver(url, body, script, 0) == Outcome([Attempt(url, body, NoPause), Attempt(url, body, NoPause)], Delivered)
  {
    assert script[1..][0] == script[1];
  }

  /**
   * Every attempt sends the same payload to the same URL; the first two
   * attempts are followed by no pause, and every pause after attempt j lasts
   * Backoff(j) milliseconds.
   */
  lemma PausesFollowBackoff(url: string, body: Json, script: seq<Step>)
    ensures var o := Deliver(url, body, script, 0);
      forall j :: 0 <= j < |o.attempts| ==>
        o.attempts[j].url == url && o.attempts[j].body == body &&
        (j <= 1 ==> o.attempts[j].pause == NoPause) &&
        (o.attempts[j].pause != NoPause ==> o.attempts[j].pause.millis == Backoff(j) > 0)
  {
    DeliverAttemptByAttempt(url, body, script, 0);
  }

  /**
   * An interrupted backoff sleep ends the loop: the loop ends interrupted
   * exactly when its last attempt's sleep was cut short, and no earlier
   * sleep was.
   */
  lemma InterruptEndsLoop(url: string, body: Json, script: seq<Step>, i: int)
    ensures var o := Deliver(url, body, script, i);
      var n := |o.attempts|;
      (o.end == Interrupted <==> 0 < n && o.attempts[n - 1].pause.SleepInterrupted?) &&
      forall j :: 0 <= j < n - 1 ==> !o.attempts[j].pause.SleepInterrupted?
  {
    DeliverAttemptByAttempt(url, body, script, i);
  }
}
