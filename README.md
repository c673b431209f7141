# docker-slack-discord-relay, modelled in Dafny

The relay accepts Slack-style incoming-webhook messages over HTTP at
`/relay/<id>/<token>`. It turns each message's attachments into Discord
embeds and forwards them to the Discord webhook of that id and token.

Delivery goes through a per-destination FIFO queue, which a worker thread
drains one payload at a time. Each payload is retried until one of three
things happens:

- a 2xx reply arrives;
- a 400 or 403 reply arrives;
- an interrupt cuts a backoff sleep short.

The pause grows linearly and is capped at two minutes.

The model follows `DockerSlackRelay.java` piece by piece:

| file | module | what it holds |
|---|---|---|
| `wrappers.dfy` | `Wrappers` | `Option` and `Result` |
| `json.dfy` | `Json` | the JSON values the handler reads and builds; objects are maps |
| `java_text.dfy` | `JavaText` | `java.lang.Long.decode` (sign, `0x`/`0X`/`#` hex, leading-`0` octal, decimal, long range) and `Long.toString` digits, with their round trips and the decoding of any digit text, upper case and leading zeros included |
| `request_path.dfy` | `RequestPath` | the loop that strips leading slashes, `String.split` on `/` (trailing empty pieces dropped), and the destination taken from segments 1 and 2 |
| `translation.dfy` | `Translation` | Slack attachment to Discord embed, as functions and as the handler's loops proved equal to them |
| `retry.dfy` | `Retry` | the backoff, the reply classification, and `sendWebhook`'s loop |
| `webhook.dfy` | `Queue` | the `Webhook` class: queue, worker flag, `submit`, and the worker's drain loop |
| `relay.dfy` | `Relay` | the registry of webhooks, the request handler, and the colon-joined registry key as written |

**The network.** The network is a script: a sequence of steps, one per
POST. Each step gives the reply (a status code, or an exception) and
whether a backoff sleep after it is interrupted.

The source retries forever. A finite script therefore gives one extra end,
`ScriptExhausted`: the loop was still retrying when the script ran out.
One worker lifetime reads one script. Each payload's retry loop takes the
steps the previous payloads left.

**The clock.** The request's timestamp, which the source formats from the
clock, is a parameter.

Three behaviours of the code are easy to misread:

- **Payloads per request** (kept as written). The handler queues one payload holding all of a request's embeds, not one payload per embed. It queues nothing for a message without attachments.
- **Destination identity.** The source keys its registry by the string id + ":" + token, not by the (id, token) pair. Here Relay.Handle runs on a registry keyed by the pair. The string key as written is Relay.LegacyFindOrCreate; see Findings.
- **400/403 replies** (kept as written). These are not dropped at once. The loop still takes the backoff sleep after them, which is zero on the first two attempts, and an interrupt during that sleep ends the loop as interrupted.

## Model

| member | source | states |
|---|---|---|
| RequestPath.TrimLeadingSlashes | src/main/java/local/mdc/util/dockerslackrelay/DockerSlackRelay.java:68 | the result is a suffix of the path; it does not start with '/'; every removed character is '/' |
| RequestPath.StripLeadingSlashes | src/main/java/local/mdc/util/dockerslackrelay/DockerSlackRelay.java:68 | the while loop removing one leading '/' at a time ends with the path with all leading slashes removed |
| RequestPath.SplitAll | src/main/java/local/mdc/util/dockerslackrelay/DockerSlackRelay.java:69 | splitting yields at least one piece and no piece contains the separator |
| RequestPath.JoinSplitAll | src/main/java/local/mdc/util/dockerslackrelay/DockerSlackRelay.java:69 | joining the pieces of a split with the separator gives the text back |
| RequestPath.SplitAllJoin | src/main/java/local/mdc/util/dockerslackrelay/DockerSlackRelay.java:69 | splitting the join of separator-free pieces gives those pieces back |
| RequestPath.DropTrailingEmpty | src/main/java/local/mdc/util/dockerslackrelay/DockerSlackRelay.java:69 | split's result is a prefix of all pieces whose last element is non-empty, and only empty pieces are dropped |
| RequestPath.JavaSplit | src/main/java/local/mdc/util/dockerslackrelay/DockerSlackRelay.java:69 | String.split on '/' with no limit: the text itself when it holds no '/', otherwise every piece between slashes with the trailing empty ones dropped; JoinSplitAll, SplitAllJoin, SplitThree and SplitIntoThree state what the pieces are |
| RequestPath.ParsePath | src/main/java/local/mdc/util/dockerslackrelay/DockerSlackRelay.java:67-74 | the destination a request path names: segments 1 and 2 after the leading slashes, when there are exactly three; ParsePathExactly states which paths are accepted and what they yield |
| RequestPath.ParsePathOfDestination | src/main/java/local/mdc/util/dockerslackrelay/DockerSlackRelay.java:67-74 | every path of any number of leading slashes, a non-empty first segment, an id, a non-empty token and any number of trailing slashes (no '/' inside the parts) yields exactly that id and token |
| RequestPath.ParsedDestinationShape | src/main/java/local/mdc/util/dockerslackrelay/DockerSlackRelay.java:69-74 | an accepted path always yields a non-empty token, and neither id nor token contains '/' |
| RequestPath.AcceptedPathShape | src/main/java/local/mdc/util/dockerslackrelay/DockerSlackRelay.java:67-74 | every accepted path is leading slashes, a non-empty first segment without '/', the parsed id, '/', the parsed token and trailing slashes |
| RequestPath.ParsePathExactly | src/main/java/local/mdc/util/dockerslackrelay/DockerSlackRelay.java:67-74 | a path yields destination d if and only if it is leading slashes, a non-empty '/'-free first segment, d's '/'-free id, d's non-empty '/'-free token and trailing slashes; every other path is refused |
| JavaText.LayoutOf | src/main/java/local/mdc/util/dockerslackrelay/DockerSlackRelay.java:111 | Long.decode's prefix scan picks radix 8, 10 or 16 and a digit start within the text, and reads a negative number exactly when the text starts with '-' |
| JavaText.PrefixedLayout | src/main/java/local/mdc/util/dockerslackrelay/DockerSlackRelay.java:111 | after no sign, '-' or '+', the prefixes "0x", "0X" and "#" select radix 16 and "0" followed by any octal digit text selects radix 8; the digits start right after the prefix, and only '-' makes the number negative |
| JavaText.LongDecode | src/main/java/local/mdc/util/dockerslackrelay/DockerSlackRelay.java:111 | a decoded colour always lies in the range of a Java long |
| JavaText.DigitsRoundTrip | src/main/java/local/mdc/util/dockerslackrelay/DockerSlackRelay.java:111 | Long.toString's digits of n are digits of the radix, read back as n, start with '0' only for 0, and never start with a sign or '#' |
| JavaText.ParseDigits | src/main/java/local/mdc/util/dockerslackrelay/DockerSlackRelay.java:111 | the unsigned parse of n's digits is n |
| JavaText.DecodeDecimal | src/main/java/local/mdc/util/dockerslackrelay/DockerSlackRelay.java:110-111 | Long.decode of the decimal text of n is n when n fits in a long and fails otherwise |
| JavaText.ParseDigitText | src/main/java/local/mdc/util/dockerslackrelay/DockerSlackRelay.java:111 | the unsigned parse of any non-empty digit text, leading zeros and either case included, is the number the digits spell |
| JavaText.DigitsValueBound | src/main/java/local/mdc/util/dockerslackrelay/DockerSlackRelay.java:111 | k digits of a radix spell a number below radix^k |
| JavaText.DecodeHashHex | src/main/java/local/mdc/util/dockerslackrelay/DockerSlackRelay.java:111 | a colour written '#' and one to fifteen hex digits, in either case and with leading zeros, always fits in a long and decodes to the number the digits spell |
| JavaText.SlackExampleColour | src/main/java/local/mdc/util/dockerslackrelay/DockerSlackRelay.java:111 | "#439FE0" decodes to 0x439FE0 |
| JavaText.DecodePrefixedText | src/main/java/local/mdc/util/dockerslackrelay/DockerSlackRelay.java:111 | Long.decode of no sign, '-' or '+', then "0x", "0X" or "#" and any hex digit text, or "0" and any octal digit text, is the signed value of the digits when it fits in a long (down to Long.MIN_VALUE with '-'), and fails otherwise |
| JavaText.DecodePrefixed | src/main/java/local/mdc/util/dockerslackrelay/DockerSlackRelay.java:111 | for Long.toString's digits of n behind a hex or octal prefix, with or without '-': the decode gives back ±n exactly when it fits in a long |
| Translation.ElementText | src/main/java/local/mdc/util/dockerslackrelay/DockerSlackRelay.java:110 | getAsString: the text of a string, number or boolean, or of the single element of a one-element array; nothing for null, objects and other arrays; AttachmentAcceptedIff and EmbedColor state what it admits |
| Translation.ColorOf | src/main/java/local/mdc/util/dockerslackrelay/DockerSlackRelay.java:108-112 | the colour is absent when the member is missing or null, and otherwise the Long.decode of its getAsString text, or a failure when either step fails; EmbedColor and AttachmentAcceptedIff state it |
| Translation.TranslateField | src/main/java/local/mdc/util/dockerslackrelay/DockerSlackRelay.java:118-124 | a Slack field becomes {name, value} with the text of its title and value primitives; FieldAcceptedIff and EmbedFields state it |
| Translation.TranslateAttachment | src/main/java/local/mdc/util/dockerslackrelay/DockerSlackRelay.java:88-134 | one attachment becomes one embed; AttachmentAcceptedIff, EmbedShape, EmbedMemberNames, EmbedColor and EmbedFields state when it succeeds and what the embed holds |
| Translation.TranslateMessage | src/main/java/local/mdc/util/dockerslackrelay/DockerSlackRelay.java:84-88 | the message's 'attachments' must be an array, and it gives one embed per attachment; MessageTranslation states it |
| Translation.TranslateFields | src/main/java/local/mdc/util/dockerslackrelay/DockerSlackRelay.java:114-127 | a translated fields array has one Discord field per Slack field |
| Translation.TranslateAttachments | src/main/java/local/mdc/util/dockerslackrelay/DockerSlackRelay.java:88-135 | a translated attachments array has one embed per attachment |
| Translation.FieldsFirstError | src/main/java/local/mdc/util/dockerslackrelay/DockerSlackRelay.java:117-122 | the fields fail with the error of the first field that fails |
| Translation.FieldsElementwise | src/main/java/local/mdc/util/dockerslackrelay/DockerSlackRelay.java:117-126 | the fields succeed exactly when every field does, and then the k-th output is the k-th field's translation |
| Translation.AttachmentsFirstError | src/main/java/local/mdc/util/dockerslackrelay/DockerSlackRelay.java:88-96 | the attachments fail with the error of the first attachment that fails |
| Translation.AttachmentsElementwise | src/main/java/local/mdc/util/dockerslackrelay/DockerSlackRelay.java:88-135 | the attachments succeed exactly when every attachment does, and then the k-th embed is the k-th attachment's translation |
| Translation.ConvertFields | src/main/java/local/mdc/util/dockerslackrelay/DockerSlackRelay.java:115-126 | the for-each loop over the fields builds exactly the translated field list, or stops at the same failure |
| Translation.ConvertAttachment | src/main/java/local/mdc/util/dockerslackrelay/DockerSlackRelay.java:89-134 | the statements building one embed give exactly the translation of the attachment |
| Translation.ConvertAttachments | src/main/java/local/mdc/util/dockerslackrelay/DockerSlackRelay.java:85-135 | the loop over the attachments builds exactly the translated embed list, or stops at the same failure |
| Translation.FieldAcceptedIff | src/main/java/local/mdc/util/dockerslackrelay/DockerSlackRelay.java:117-122 | a field translates exactly when it is an object whose title and value are JSON primitives |
| Translation.AttachmentAcceptedIff | src/main/java/local/mdc/util/dockerslackrelay/DockerSlackRelay.java:96-126 | an attachment translates exactly when it is an object, its non-null colour reads as a Java long, and its non-null fields are an array of accepted fields |
| Translation.MessageTranslation | src/main/java/local/mdc/util/dockerslackrelay/DockerSlackRelay.java:84-135 | a message translates exactly when 'attachments' is an array of accepted attachments, and then there is one embed per attachment, in order, each the translation of its attachment |
| Translation.EmbedShape | src/main/java/local/mdc/util/dockerslackrelay/DockerSlackRelay.java:94-133 | title, title_link, image_url, text, footer_icon and footer land under title, url, image.url, description, footer.footer_icon and footer.text (null when the attachment lacks them), and the timestamp is the request's |
| Translation.EmbedMemberNames | src/main/java/local/mdc/util/dockerslackrelay/DockerSlackRelay.java:94-133 | an embed holds exactly timestamp, title, url, image, description, fields and footer, plus color exactly when the attachment's colour is present and non-null |
| Translation.EmbedColor | src/main/java/local/mdc/util/dockerslackrelay/DockerSlackRelay.java:108-112 | a non-null colour reaches the embed as the number Long.decode reads from its text |
| Translation.EmbedFields | src/main/java/local/mdc/util/dockerslackrelay/DockerSlackRelay.java:114-127 | the embed's fields hold one {name, value} per Slack field, in order, with the field's title and value as text |
| Translation.HexColorCarried | src/main/java/local/mdc/util/dockerslackrelay/DockerSlackRelay.java:108-112 | a Slack colour '#' plus one to fifteen hex digits, such as '#439FE0' or '#00ff00', reaches the embed as the number the digits spell |
| Retry.WebhookUrl | src/main/java/local/mdc/util/dockerslackrelay/DockerSlackRelay.java:162 | the URL built from id and token; WebhookUrlsDistinct states that it names them |
| Retry.WebhookUrlsDistinct | src/main/java/local/mdc/util/dockerslackrelay/DockerSlackRelay.java:162 | when the ids hold no '/', as every parsed id does, two destinations get the same URL exactly when their ids and tokens are equal |
| Retry.Backoff | src/main/java/local/mdc/util/dockerslackrelay/DockerSlackRelay.java:215 | the pause is between 0 and 120000 ms |
| Retry.BackoffSchedule | src/main/java/local/mdc/util/dockerslackrelay/DockerSlackRelay.java:215 | the pause is 0 at indices 0 and 1 and 1000 at index 2; it never decreases; it is positive exactly from index 2; it is (i-1)*1000 up to index 121 and 120000 from index 121 on |
| Retry.Classify | src/main/java/local/mdc/util/dockerslackrelay/DockerSlackRelay.java:190-206 | a reply is a success exactly when its code is 200..299 (code/100 == 2 with Java division), and permanent exactly when it is 400 or 403; everything else, exceptions included, is retried |
| Retry.PauseAfter | src/main/java/local/mdc/util/dockerslackrelay/DockerSlackRelay.java:190-223 | the sleep after an attempt: none after a success or at a zero backoff, otherwise Backoff(i), cut short when the step says so; TryOnce, PausesFollowBackoff and InterruptEndsLoop state it |
| Retry.StopsAt | src/main/java/local/mdc/util/dockerslackrelay/DockerSlackRelay.java:190-223 | whether an attempt ends the loop: delivered on a success, interrupted when its sleep is cut short, given up on a 400 or 403, and otherwise not; TryOnce, AttemptsUpToFirstStop and AttemptCountWithoutInterrupts state it |
| Retry.Deliver | src/main/java/local/mdc/util/dockerslackrelay/DockerSlackRelay.java:165-225 | a retry loop never makes more attempts than there are scripted replies |
| Retry.SendWebhook | src/main/java/local/mdc/util/dockerslackrelay/DockerSlackRelay.java:161-226 | the for loop over i with its exit flag, break and sleep makes exactly the attempts Retry.Deliver lists and ends as Deliver says: delivered on a 2xx, given up after a 400 or 403, interrupted when a sleep is cut short, ScriptExhausted when the replies run out |
| Retry.TryOnce | src/main/java/local/mdc/util/dockerslackrelay/DockerSlackRelay.java:166-224 | one pass of the loop body pauses as Retry.PauseAfter and ends the loop as Retry.StopsAt say for that reply and attempt index: no pause after a success, the backoff sleep after anything else when it is positive, an interrupt ending the loop |
| Retry.DeliverAttemptByAttempt | src/main/java/local/mdc/util/dockerslackrelay/DockerSlackRelay.java:165-225 | attempt j posts the same body to the same URL and pauses as the backoff of index i+j says; every attempt but the last lets the loop continue; the loop stops early only at an attempt that ends it, and that attempt decides how it ends |
| Retry.AttemptsUpToFirstStop | src/main/java/local/mdc/util/dockerslackrelay/DockerSlackRelay.java:190-222 | the number of attempts is the index of the first attempt that ends the loop plus one, and that attempt decides the end |
| Retry.AttemptCountWithoutInterrupts | src/main/java/local/mdc/util/dockerslackrelay/DockerSlackRelay.java:190-209 | without interrupts, the number of attempts is the position of the first 2xx, 400 or 403 reply plus one; the loop ends delivered on a 2xx and given up otherwise |
| Retry.ForbiddenIsAttemptedOnce | src/main/java/local/mdc/util/dockerslackrelay/DockerSlackRelay.java:201-204 | a first 403 gives exactly one attempt, without pause, and the payload is given up |
| Retry.ServerErrorThenSuccess | src/main/java/local/mdc/util/dockerslackrelay/DockerSlackRelay.java:190-215 | a 500 then a 200 gives exactly two attempts with no pause between them, and the payload is delivered |
| Retry.PausesFollowBackoff | src/main/java/local/mdc/util/dockerslackrelay/DockerSlackRelay.java:162-223 | every attempt posts the same body to the URL built from id and token; the first two attempts are followed by no sleep; every sleep after attempt j lasts Backoff(j) > 0 ms |
| Retry.InterruptEndsLoop | src/main/java/local/mdc/util/dockerslackrelay/DockerSlackRelay.java:217-222 | the loop ends interrupted exactly when its last attempt's sleep was cut short, and no earlier sleep was |
| Queue.Drain | src/main/java/local/mdc/util/dockerslackrelay/DockerSlackRelay.java:280-281 | the worker handles at most the queued items, and stops short of the end of the queue only when the script runs out |
| Queue.DrainInOrder | src/main/java/local/mdc/util/dockerslackrelay/DockerSlackRelay.java:280-281 | the worker handles the items in queue order, each to completion before the next, and handles them all unless the script runs out |
| Queue.DrainPostsEachItem | src/main/java/local/mdc/util/dockerslackrelay/DockerSlackRelay.java:281 | every attempt of every delivery posts that delivery's own payload to the destination's URL |
| Queue.Webhook.constructor | src/main/java/local/mdc/util/dockerslackrelay/DockerSlackRelay.java:239-242 | a new webhook has its id and token, an empty queue and no worker |
| Queue.Webhook.Submit | src/main/java/local/mdc/util/dockerslackrelay/DockerSlackRelay.java:262-275 | submit appends the payload at the tail and changes nothing else in the queue; it starts a worker exactly when none is alive; afterwards a worker is alive |
| Queue.Webhook.TakeAndSend | src/main/java/local/mdc/util/dockerslackrelay/DockerSlackRelay.java:281 | one turn removes the head of the queue and runs the retry loop on it |
| Queue.Webhook.Run | src/main/java/local/mdc/util/dockerslackrelay/DockerSlackRelay.java:277-283 | the drain loop produces exactly the log Queue.Drain computes from the queue and the script; the queue keeps only the items not yet handled; the worker stays alive only if it is still retrying when the script runs out |
| Queue.SubmitAllThenRun | src/main/java/local/mdc/util/dockerslackrelay/DockerSlackRelay.java:262-283 | payloads submitted one after another start one worker, which handles them in submission order, all of them unless the script runs out |
| Queue.ResubmitAfterIdle | src/main/java/local/mdc/util/dockerslackrelay/DockerSlackRelay.java:268-281 | after the worker has drained the queue and exited, the next submission starts a new worker, which handles the new payload |
| Relay.IsPost | src/main/java/local/mdc/util/dockerslackrelay/DockerSlackRelay.java:64 | equalsIgnoreCase("post"); PostSpellings states which methods pass |
| Relay.PostSpellings | src/main/java/local/mdc/util/dockerslackrelay/DockerSlackRelay.java:64 | POST, post, Post and pOsT pass the method check; GET, PUT, POSTS, POS and the empty method do not |
| Relay.Interpret | src/main/java/local/mdc/util/dockerslackrelay/DockerSlackRelay.java:64-135 | what the handler makes of a request: the first failing check in source order, or the destination, the payload {"embeds": [...]} and the embed count; AcceptedRequests, Check and Handle state it |
| Relay.Registry.constructor | src/main/java/local/mdc/util/dockerslackrelay/DockerSlackRelay.java:26 | the registry starts empty |
| Relay.Registry.FindOrCreate | src/main/java/local/mdc/util/dockerslackrelay/DockerSlackRelay.java:137-142 | an existing destination's webhook is returned and nothing changes; otherwise exactly one new webhook, with an empty queue and no worker, is added for it; the webhook returned always belongs to the requested id and token |
| Relay.AcceptedRequests | src/main/java/local/mdc/util/dockerslackrelay/DockerSlackRelay.java:64-135 | a request is accepted exactly when it is a POST, its path names a destination, and its body is a message whose attachments are all accepted; the payload is then {"embeds": [...]} with one embed per attachment, in order |
| Relay.Check | src/main/java/local/mdc/util/dockerslackrelay/DockerSlackRelay.java:64-135 | the handler's checks, made step by step, reach exactly Relay.Interpret's result: a method other than POST is refused first, then a path without id and token, then a body that is not an object, then an untranslatable message; otherwise the request with its payload and embed count |
| Relay.Enqueue | src/main/java/local/mdc/util/dockerslackrelay/DockerSlackRelay.java:137-144 | the destination's webhook is found or created, and the payload is appended to its queue only when it holds at least one embed, which leaves a worker alive; with no embed the worker flag is what it was, and false for a new webhook; every other webhook is unchanged |
| Relay.Handle | src/main/java/local/mdc/util/dockerslackrelay/DockerSlackRelay.java:59-158 | the reply counts the embeds or gives the failure; a failed request changes no webhook and adds none; an accepted one appends its payload only to its destination's queue, and only when it has at least one embed, leaving a worker alive; with no embed the worker flag is what it was, and false for a new webhook |
| Relay.LegacyFindOrCreate | src/main/java/local/mdc/util/dockerslackrelay/DockerSlackRelay.java:137-142 | computeIfAbsent on the colon-joined key returns what is stored under the key and leaves the map alone when the key is present; when it is new, it stores and returns the destination of this id and token and changes nothing else |
| Relay.LegacyKeyMisroutes | src/main/java/local/mdc/util/dockerslackrelay/DockerSlackRelay.java:138-141 | after (id "a:b", token "c") is registered, a request for (id "a", token "b:c") gets the webhook of the first destination |
| Relay.LegacyKeyFaithfulWithoutColonInId | src/main/java/local/mdc/util/dockerslackrelay/DockerSlackRelay.java:138 | when no id contains ':', equal colon-joined keys mean equal ids and equal tokens |

## Left out

- The HTTP server and the replies (lines 28-56, 146-157) are I/O. Handle's reply is modelled only as the embed count or the failure. The status code, the message text, byte lengths and the close are not modelled.
- A request path is the decoded URI path, given as a string. The URI decoding and the server's "/relay" context prefix match are not modelled. The handler itself never checks segment 0, and neither does the model.
- Gson parsing of the request body (lines 76-82) is not modelled: the body is a JSON value. Malformed JSON, which makes the parse throw, is not modelled.
- Gson serialisation (line 167) is not modelled: the body posted is the payload value itself. Member order in objects is not modelled, because objects are maps.
- JSON numbers are integers, and their text is their decimal form. Fractional numbers and Gson's lazily parsed number text are not modelled.
- The timestamp comes from the clock through SimpleDateFormat (lines 62, 91-94). It is a parameter.
- The POST itself (lines 171-188, 192-194, 207-208) is a foreign network call. It is replaced by the scripted reply.
  - An exception at any point of an attempt, including while the body of a 2xx reply is read, is the reply `Raised`.
  - A 400/403 whose error stream cannot be read ends the same way as one that can.
- Thread.sleep's wall-clock wait is a `Slept` or `SleepInterrupted` event carrying the duration.
- Threads, `synchronized`, `isAlive` and daemon status are modelled sequentially.
  - A worker is a flag.
  - Running a worker is a method call that drains the queue.
  - Submissions racing with a worker that is about to exit are not modelled. The source does not make that exit atomic with submit, so nothing is claimed about it.
- Logging (every Logger call, and LineLogFormatter.java) has no effect on behaviour. LineLogFormatter.java is not part of this model.
- Webhook.equals/hashCode (lines 252-260) play no part in what is delivered.
- main (lines 286-331) is not modelled: configuration loading, the shutdown hook and System.exit.
- JavaText.LongDecode reads ASCII digits and letters only. Long.decode also accepts other Unicode decimal digits, and the fullwidth Latin letters (U+FF21-FF3A, U+FF41-FF5A) as digits 10 to 35; the model rejects both.
- Queue.Webhook.Run stands for one worker lifetime and is called once per started worker. It has no precondition tying it to a started worker, and nothing stops a caller from running it while no worker flag is set.
- Retry.Deliver is bounded by the script: the source retries forever, and the model stops with ScriptExhausted when the replies run out. The attempt counter `i` is unbounded; the source's int would wrap after 2^31 attempts.
- Relay.Registry.FindOrCreate keys the registry by the (id, token) pair rather than by the colon-joined string the source builds. The string key is kept as Relay.LegacyFindOrCreate; see Findings.
- Relay.IsPost models equalsIgnoreCase("post") over single chars. That includes U+017F (long s), whose upper case is 'S'.

## Findings

| source | as written | input that shows it | evidently intended | confidence | as-written member | corrected member |
|---|---|---|---|---|---|---|
| src/main/java/local/mdc/util/dockerslackrelay/DockerSlackRelay.java:138-141 | the registry key is id + ":" + token, so two destinations whose id and token split the same string at different colons share one webhook | a request to /relay/a:b/c, then one to /relay/a/b:c: the second payload is queued on, and posted to, the webhook of id "a:b" and token "c" | a destination is identified by the (id, token) pair; its webhook always belongs to that id and token | medium; not executed (real Discord ids contain no colon, but the path is caller-controlled) | Relay.LegacyKeyMisroutes | Relay.Registry.FindOrCreate |
