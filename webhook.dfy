/**
 * The per-destination queue: payloads wait in a FIFO until the
 * destination's worker takes them, one at a time, and runs the retry loop
 * on each. A submission starts a worker when none is alive; the worker
 * exits when it finds the queue empty.
 */
module Queue {
  import opened Json
  import opened Retry

  /** One payload taken from the queue and what its retry loop did. */
  datatype Delivery = Delivery(item: Json, outcome: Outcome)

  /** The worker is still retrying its last payload when the script runs out. */
  predicate Stalled(log: seq<Delivery>) {
    log != [] && log[|log| - 1].outcome.end == ScriptExhausted
  }

  /**
   * What the worker does with the queued items, head first: each item's
   * retry loop reads the replies the previous ones left. The items are
   * handled in queue order, and the worker stops short of the end of the
   * queue only when the script runs out.
   */
  function Drain(url: string, items: seq<Json>, script: seq<Step>): (log: seq<Delivery>)
    ensures |log| <= |items|
    ensures |log| < |items| ==> Stalled(log)
    decreases |items|
  {
    if items == [] then []
    else
      var o := Deliver(url, items[0], script, 0);
      if o.end == ScriptExhausted then [Delivery(items[0], o)]
      else [Delivery(items[0], o)] + Drain(url, items[1..], script[|o.attempts|..])
  }

  /** How one turn of the worker loop advances through Drain. */
  lemma DrainAdvance(url: string, all: seq<Delivery>, log: seq<Delivery>, queue: seq<Json>, rest: seq<Step>, d: Delivery)
    requires queue != [] && all == log + Drain(url, queue, rest)
    requires d == Delivery(queue[0], Deliver(url, queue[0], rest, 0))
    ensures Stalled(log + [d]) <==> d.outcome.end == ScriptExhausted
    ensures d.outcome.end == ScriptExhausted ==> all == log + [d]
    ensures d.outcome.end != ScriptExhausted ==>
      |d.outcome.attempts| <= |rest| && all == (log + [d]) + Drain(url, queue[1..], rest[|d.outcome.attempts|..])
  {
    DrainStep(url, queue, rest);
  }

  /** After one turn of the worker the queue is the items not yet handled. */
  lemma QueueAdvance(items: seq<Json>, log: seq<Delivery>, queue: seq<Json>, d: Delivery)
    requires |log| <= |items| && queue == items[|log|..] && queue != []
    ensures |log + [d]| <= |items| && queue[1..] == items[|log + [d]|..]
  {
  }

  /**
   * The worker handles the items in queue order, each to completion before
   * the next, and stops short of the end of the queue only when the script
   * runs out.
   */
  lemma {:induction false} DrainInOrder(url: string, items: seq<Json>, script: seq<Step>)
    ensures var log := Drain(url, items, script);
      (forall k :: 0 <= k < |log| ==> log[k].item == items[k]) &&
      (forall k :: 0 <= k < |log| - 1 ==> log[k].outcome.end != ScriptExhausted) &&
      (!Stalled(log) ==> |log| == |items|)
    decreases |items|
  {
    if items != [] {
      var o := Deliver(url, items[0], script, 0);
      if o.end != ScriptExhausted {
        var rest := script[|o.attempts|..];
        DrainInOrder(url, items[1..], rest);
        var log := Drain(url, items, script);
        var tail := Drain(url, items[1..], rest);
        assert log == [Delivery(items[0], o)] + tail;
        forall k | 0 <= k < |log| ensures log[k].item == items[k] {
          if k > 0 { assert log[k] == tail[k - 1]; }
        }
        forall k | 0 <= k < |log| - 1 ensures log[k].outcome.end != ScriptExhausted {
          if k > 0 { assert log[k] == tail[k - 1]; }
        }
      }
    }
  }

  /** Every attempt of every delivery posts that delivery's own payload to the destination's URL. */
  lemma {:induction false} DrainPostsEachItem(url: string, items: seq<Json>, script: seq<Step>)
    ensures var log := Drain(url, items, script);
      forall k, j :: 0 <= k < |log| && 0 <= j < |log[k].outcome.attempts| ==>
        log[k].outcome.attempts[j].url == url && log[k].outcome.attempts[j].body == items[k]
    decreases |items|
  {
    if items != [] {
      var o := Deliver(url, items[0], script, 0);
      PausesFollowBackoff(url, items[0], script);
      if o.end != ScriptExhausted {
        var rest := script[|o.attempts|..];
        DrainPostsEachItem(url, items[1..], rest);
        var log := Drain(url, items, script);
        forall k, j | 0 <= k < |log| && 0 <= j < |log[k].outcome.attempts|
          ensures log[k].outcome.attempts[j].url == url && log[k].outcome.attempts[j].body == items[k]
        {
          if k > 0 {
            assert log[k] == Drain(url, items[1..], rest)[k - 1];
            assert items[1..][k - 1] == items[k];
          }
        }
      }
    }
  }

  /** One destination's queue and its worker (Webhook). */
  class Webhook {
    const id: string
    const token: string
    /** The payloads waiting for the worker, oldest first. */
    var queue: seq<Json>
    /** A worker thread has been started and has not finished. */
    var workerAlive: bool

    constructor (id: string, token: string)
      ensures this.id == id && this.token == token
      ensures queue == [] && !workerAlive
    {
      this.id := id;
      this.token := token;
      queue := [];
      workerAlive := false;
    }

    /** Queue a payload; start a worker when none is alive. */
    method Submit(embed: Json) returns (started: bool)
      modifies this
      ensures queue == old(queue) + [embed]
      ensures started <==> !old(workerAlive)
      ensures workerAlive
    {
      queue := queue + [embed];
      started := !workerAlive;
      if started {
        workerAlive := true;
      }
    }

    /**
     * The worker: while the queue is not empty, take its head and run the
     * retry loop on it; then exit. The replies come from one script for the
     * worker's whole life.
     */
    method Run(script: seq<Step>) returns (log: seq<Delivery>)
      modifies this
      ensures log == Drain(WebhookUrl(id, token), old(queue), script)
      ensures queue == old(queue)[|log|..]
      ensures workerAlive <==> Stalled(log)
    {
      log := [];
      var rest := script;
      var retrying := false;
      ghost var url := WebhookUrl(id, token);
      ghost var items := queue;
      ghost var all := Drain(url, items, script);
      while queue != [] && !retrying
        invariant |log| <= |items| && queue == items[|log|..]
        invariant !retrying ==> !Stalled(log) && all == log + Drain(url, queue, rest)
        invariant retrying ==> Stalled(log) && log == all
        decreases |queue|
      {
        ghost var before := queue;
        var d := TakeAndSend(rest);
        DrainAdvance(url, all, log, before, rest, d);
        QueueAdvance(items, log, before, d);
        log := log + [d];
        if d.outcome.end == ScriptExhausted {
          // the script has no more replies: the worker is still retrying this item
          retrying := true;
        } else {
          rest := rest[|d.outcome.attempts|..];
        }
      }
      workerAlive := retrying;
    }

    /** One turn of the worker loop: remove the head of the queue and run the retry loop on it. */
    method TakeAndSend(script: seq<Step>) returns (d: Delivery)
      requires queue != []
      modifies this
      ensures queue == old(queue)[1..] && workerAlive == old(workerAlive)
      ensures d == Delivery(old(queue)[0], Deliver(WebhookUrl(id, token), old(queue)[0], script, 0))
    {
      var item := queue[0];
      queue := queue[1..];
      var o := SendWebhook(id, token, item, script);
      d := Delivery(item, o);
    }
  }

  /** The worker's first step: the head of the queue, then the rest with the replies left over. */
  lemma DrainStep(url: string, items: seq<Json>, script: seq<Step>)
    requires items != []
    ensures var o := Deliver(url, items[0], script, 0);
      Drain(url, items, script) ==
        [Delivery(items[0], o)] + (if o.end == ScriptExhausted then [] else Drain(url, items[1..], script[|o.attempts|..]))
  {
  }

  /**
   * Payloads submitted one after another to a new destination start one
   * worker, and that worker handles them in submission order, all of them
   * unless the script runs out first.
   */
  method SubmitAllThenRun(id: string, token: string, payloads: seq<Json>, script: seq<Step>)
    returns (workersStarted: nat, log: seq<Delivery>)
    ensures workersStarted == if payloads == [] then 0 else 1
    ensures |log| <= |payloads| && forall k :: 0 <= k < |log| ==> log[k].item == payloads[k]
    ensures !Stalled(log) ==> |log| == |payloads|
  {
    var w := new Webhook(id, token);
    workersStarted := 0;
    for k := 0 to |payloads|
      invariant w.queue == payloads[..k]
      invariant w.workerAlive <==> k > 0
      invariant workersStarted == if k == 0 then 0 else 1
    {
      var started := w.Submit(payloads[k]);
      if started {
        workersStarted := workersStarted + 1;
      }
    }
    assert payloads[..|payloads|] == payloads;
    log := w.Run(script);
    DrainInOrder(WebhookUrl(id, token), payloads, script);
  }

  /**
   * A destination whose worker drained the queue and exited gets a new
   * worker on its next submission, and that worker handles the new payload.
   */
  method ResubmitAfterIdle(id: string, token: string, first: Json, second: Json, script1: seq<Step>, script2: seq<Step>)
    returns (firstLog: seq<Delivery>, restarted: bool, secondLog: seq<Delivery>)
    ensures |firstLog| == 1 && firstLog[0].item == first
    ensures restarted <==> !Stalled(firstLog)
    ensures restarted ==> |secondLog| == 1 && secondLog[0].item == second
  {
    var w := new Webhook(id, token);
    var started := w.Submit(first);
    firstLog := w.Run(script1);
    restarted := w.Submit(second);
    DrainInOrder(WebhookUrl(id, token), [first], script1);
    secondLog := [];
    if restarted {
      secondLog := w.Run(script2);
      DrainInOrder(WebhookUrl(id, token), [second], script2);
    }
  }
}
