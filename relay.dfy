/**
 * The relay's request handler and its registry of destinations: a POST to
 * "/relay/<id>/<token>" carrying a Slack message is translated into one
 * Discord payload, queued on that destination's webhook when it has at
 * least one embed, and answered with the number of embeds; any failure is
 * answered with an error and queues nothing.
 */
module Relay {
  import opened Wrappers
  import opened Json
  import opened RequestPath
  import opened Translation
  import opened Queue

  /** The registry of destinations; an entry, once made, stays. */
  class Registry {
    var webhooks: map<Destination, Webhook>

    /** Each destination's webhook belongs to that destination. */
    ghost predicate Valid()
      reads this
    {
      forall d :: d in webhooks ==> webhooks[d].id == d.id && webhooks[d].token == d.token
    }

    constructor ()
      ensures Valid() && webhooks == map[]
    {
      webhooks := map[];
    }

    /**
     * computeIfAbsent: the destination's webhook, created with an empty
     * queue and no worker the first time the destination is seen.
     */
    method FindOrCreate(id: string, token: string) returns (w: Webhook)
      requires Valid()
      modifies this
      ensures Valid()
      ensures w.id == id && w.token == token
      ensures var d := Destination(id, token);
        d in webhooks && webhooks[d] == w &&
        (d in old(webhooks) ==> webhooks == old(webhooks)) &&
        (d !in old(webhooks) ==> fresh(w) && w.queue == [] && !w.workerAlive && webhooks == old(webhooks)[d := w])
    {
      var d := Destination(id, token);
      if d in webhooks {
        w := webhooks[d];
      } else {
        w := new Webhook(id, token);
        webhooks := webhooks[d := w];
      }
    }
  }

  /**
   * equalsIgnoreCase("post"): Java compares the upper-case forms too, so
   * U+017F (long s, whose upper case is 'S') also matches 's'.
   */
  predicate IsPost(httpMethod: string) {
    |httpMethod| == 4 &&
    httpMethod[0] in {'p', 'P'} &&
    httpMethod[1] in {'o', 'O'} &&
    httpMethod[2] in {'s', 'S', '\U{017F}'} &&
    httpMethod[3] in {'t', 'T'}
  }

  /** The method check ignores case, and accepts nothing but the four letters of "post". */
  lemma PostSpellings()
    ensures IsPost("POST") && IsPost("post") && IsPost("Post") && IsPost("pOsT")
    ensures !IsPost("GET") && !IsPost("PUT") && !IsPost("POSTS") && !IsPost("POS") && !IsPost("")
  {
  }

  /** Why a request was answered with an error. */
  datatype Failure =
    | MethodNotPost
    | MissingIdToken
    | BodyNotObject
    | Untranslatable(reason: TranslationError)

  /** A request that passed every check: where its payload goes, the payload, and the embed count. */
  datatype Request = Request(dest: Destination, payload: Json, embeds: nat)

  /** The reply: "submitted N embeds" (200), or the exception's message (500). */
  datatype Response = Submitted(embeds: nat) | Refused(reason: Failure)

  /**
   * The checks of the handler, in the order it makes them: the method, the
   * path, the body's kind, then the translation. The payload is the object
   * {"embeds": [...]}.
   */
  function Interpret(httpMethod: string, path: string, body: Json, timestamp: string): Result<Request, Failure> {
    if !IsPost(httpMethod) then Err(MethodNotPost)
    else match ParsePath(path)
      case None => Err(MissingIdToken)
      case Some(dest) =>
        if !body.JObject? then Err(BodyNotObject)
        else match TranslateMessage(body.members, timestamp)
          case Err(e) => Err(Untranslatable(e))
          case Ok(embeds) => Ok(Request(dest, JObject(map["embeds" := JArray(embeds)]), |embeds|))
  }

  function Answer(r: Result<Request, Failure>): Response {
    match r
    case Ok(req) => Submitted(req.embeds)
    case Err(e) => Refused(e)
  }

  /**
   * A request is accepted exactly when it is a POST, its path names a
   * destination, and its body is a Slack message whose attachments are all
   * accepted; it then carries one embed per attachment, in order, to the
   * destination the path names.
   */
  lemma AcceptedRequests(httpMethod: string, path: string, body: Json, timestamp: string)
    ensures Interpret(httpMethod, path, body, timestamp).Ok? <==>
      IsPost(httpMethod) && ParsePath(path).Some? && body.JObject? &&
      "attachments" in body.members && body.members["attachments"].JArray? &&
      forall j :: 0 <= j < |body.members["attachments"].items| ==> AttachmentAccepted(body.members["attachments"].items[j])
    ensures Interpret(httpMethod, path, body, timestamp).Ok? ==>
      var req := Interpret(httpMethod, path, body, timestamp).value;
      var atts := body.members["attachments"].items;
      req.dest == ParsePath(path).value &&
      req.embeds == |atts| &&
      req.payload.JObject? && req.payload.members.Keys == {"embeds"} &&
      req.payload.members["embeds"].JArray? && |req.payload.members["embeds"].items| == |atts| &&
      forall j :: 0 <= j < |atts| ==> Ok(req.payload.members["embeds"].items[j]) == TranslateAttachment(atts[j], timestamp)
  {
    if body.JObject? {
      MessageTranslation(body.members, timestamp);
    }
  }

  /**
   * The checks of Handler.handle made step by step: the method, the path
   * (leading slashes stripped, split on '/'), the body, then the loops of
   * the translation.
   */
  method Check(httpMethod: string, path: string, body: Json, timestamp: string)
    returns (r: Result<Request, Failure>)
    ensures r == Interpret(httpMethod, path, body, timestamp)
  {
    if !IsPost(httpMethod) {
      return Err(MethodNotPost);
    }
    var stripped := StripLeadingSlashes(path);
    var args := JavaSplit(stripped, '/');
    if |args| != 3 {
      return Err(MissingIdToken);
    }
    var dest := Destination(args[1], args[2]);
    if !body.JObject? {
      return Err(BodyNotObject);
    }
    var embeds: Result<seq<Json>, TranslationError> := Err(AttachmentsNotArray);
    if "attachments" in body.members && body.members["attachments"].JArray? {
      embeds := ConvertAttachments(body.members["attachments"].items, timestamp);
    }
    if embeds.Err? {
      return Err(Untranslatable(embeds.error));
    }
    r := Ok(Request(dest, JObject(map["embeds" := JArray(embeds.value)]), |embeds.value|));
  }

  /**
   * The tail of Handler.handle: find or create the destination's webhook
   * and submit the payload to it when it holds at least one embed. Only
   * that webhook changes.
   */
  method Enqueue(registry: Registry, req: Request)
    requires registry.Valid()
    modifies registry, registry.webhooks.Values
    ensures registry.Valid()
    ensures req.dest in registry.webhooks
    ensures registry.webhooks.Keys == old(registry.webhooks).Keys + {req.dest}
    ensures req.dest in old(registry.webhooks) ==> registry.webhooks[req.dest] == old(registry.webhooks)[req.dest]
    ensures registry.webhooks[req.dest].queue ==
      (if req.dest in old(registry.webhooks) then old(registry.webhooks[req.dest].queue) else []) +
      (if req.embeds > 0 then [req.payload] else [])
    ensures req.embeds > 0 ==> registry.webhooks[req.dest].workerAlive
    ensures req.embeds == 0 ==>
      (registry.webhooks[req.dest].workerAlive <==>
        req.dest in old(registry.webhooks) && old(registry.webhooks[req.dest].workerAlive))
    ensures forall d :: d in old(registry.webhooks) && d != req.dest ==>
      registry.webhooks[d] == old(registry.webhooks)[d] && unchanged(registry.webhooks[d])
  {
    var queue := registry.FindOrCreate(req.dest.id, req.dest.token);
    if req.embeds > 0 {
      var started := queue.Submit(req.payload);
    }
  }

  /**
   * Handler.handle. A refused request changes nothing in the registry. An
   * accepted one reaches its destination's webhook, found or created, and
   * its payload is appended to that queue (a worker then being alive) when
   * it has at least one embed; no other webhook changes.
   */
  method Handle(registry: Registry, httpMethod: string, path: string, body: Json, timestamp: string)
    returns (response: Response)
    requires registry.Valid()
    modifies registry, registry.webhooks.Values
    ensures registry.Valid()
    ensures response == Answer(Interpret(httpMethod, path, body, timestamp))
    ensures Interpret(httpMethod, path, body, timestamp).Err? ==>
      registry.webhooks == old(registry.webhooks) &&
      forall d :: d in registry.webhooks ==> unchanged(registry.webhooks[d])
    ensures Interpret(httpMethod, path, body, timestamp).Ok? ==>
      var req := Interpret(httpMethod, path, body, timestamp).value;
      req.dest in registry.webhooks &&
      registry.webhooks.Keys == old(registry.webhooks).Keys + {req.dest} &&
      (req.dest in old(registry.webhooks) ==> registry.webhooks[req.dest] == old(registry.webhooks)[req.dest]) &&
      registry.webhooks[req.dest].queue ==
        (if req.dest in old(registry.webhooks) then old(registry.webhooks[req.dest].queue) else []) +
        (if req.embeds > 0 then [req.payload] else []) &&
      (req.embeds > 0 ==> registry.webhooks[req.dest].workerAlive) &&
      (req.embeds == 0 ==>
        (registry.webhooks[req.dest].workerAlive <==>
          req.dest in old(registry.webhooks) && old(registry.webhooks[req.dest].workerAlive))) &&
      forall d :: d in old(registry.webhooks) && d != req.dest ==>
        registry.webhooks[d] == old(registry.webhooks)[d] && unchanged(registry.webhooks[d])
  {
    var r := Check(httpMethod, path, body, timestamp);
    if r.Err? {
      return Refused(r.error);
    }
    Enqueue(registry, r.value);
    response := Submitted(r.value.embeds);
  }

  // ---------------------------------------------------------------------
  // The registry key as written: id and token joined by a colon.

  /** The string the source uses as the registry key. */
  function LegacyKey(id: string, token: string): string {
    id + ":" + token
  }

  /**
   * computeIfAbsent over the colon-joined key, as written: the destination
   * stored under the key, registering this one if the key is new.
   */
  function LegacyFindOrCreate(m: map<string, Destination>, id: string, token: string)
    : (r: (map<string, Destination>, Destination))
    ensures LegacyKey(id, token) in r.0 && r.0[LegacyKey(id, token)] == r.1
    ensures r.0.Keys == m.Keys + {LegacyKey(id, token)}
    ensures LegacyKey(id, token) in m ==> r == (m, m[LegacyKey(id, token)])
    ensures LegacyKey(id, token) !in m ==>
      r.1 == Destination(id, token) && r.0 == m[LegacyKey(id, token) := r.1]
  {
    var key := LegacyKey(id, token);
    if key in m then (m, m[key]) else (m[key := Destination(id, token)], Destination(id, token))
  }

  /**
   * Two destinations share a key when a colon moves between id and token:
   * after "/relay/a:b/c", a request to "/relay/a/b:c" is queued on the
   * webhook of id "a:b" and token "c".
   */
  lemma LegacyKeyMisroutes()
    ensures LegacyKey("a:b", "c") == LegacyKey("a", "b:c")
    ensures var m := LegacyFindOrCreate(map[], "a:b", "c").0;
      LegacyFindOrCreate(m, "a", "b:c").1 == Destination("a:b", "c") != Destination("a", "b:c")
  {
    assert LegacyKey("a:b", "c") == "a:b:c";
    assert LegacyKey("a", "b:c") == "a:b:c";
  }

  /** With no colon in the id, the key's first colon is the one after the id. */
  lemma FirstColonOfLegacyKey(id: string, token: string)
    requires ':' !in id
    ensures LegacyKey(id, token)[|id|] == ':'
    ensures forall i :: 0 <= i < |id| ==> LegacyKey(id, token)[i] != ':'
  {
    assert forall i :: 0 <= i < |id| ==> LegacyKey(id, token)[i] == id[i];
  }

  /**
   * The colon-joined key does identify the destination when ids carry no
   * colon: then equal keys mean equal ids and equal tokens.
   */
  lemma LegacyKeyFaithfulWithoutColonInId(id1: string, token1: string, id2: string, token2: string)
    requires ':' !in id1 && ':' !in id2
    ensures LegacyKey(id1, token1) == LegacyKey(id2, token2) <==> id1 == id2 && token1 == token2
  {
    var k1, k2 := LegacyKey(id1, token1), LegacyKey(id2, token2);
    if k1 == k2 {
      FirstColonOfLegacyKey(id1, token1);
      FirstColonOfLegacyKey(id2, token2);
      assert |id1| == |id2|;
      assert id1 == k1[..|id1|] == k2[..|id2|] == id2;
      assert token1 == k1[|id1| + 1..] == k2[|id2| + 1..] == token2;
    }
  }
}
