/**
 * Slack message to Discord webhook payload. Each Slack attachment becomes
 * one Discord embed, in the same order; a handful of members are copied
 * under new names, the colour text is decoded to a number and each field's
 * title and value become a name and a value. Anything of the wrong JSON
 * kind makes the whole message fail.
 */
module Translation {
  import opened Wrappers
  import opened Json
  import JavaText

  /** Why a Slack message could not be translated (the exception the handler catches). */
  datatype TranslationError =
    | AttachmentsNotArray      // "attachments" missing, null or not an array
    | AttachmentNotObject      // an attachment that is not an object
    | ColorUnreadable          // a colour whose text is not a Java long
    | FieldsNotArray           // "fields" present but not an array
    | FieldNotObject           // a field that is not an object
    | FieldPartNotPrimitive    // a field's "title" or "value" missing or not a primitive

  /** JsonPrimitive.getAsString: strings as they are, numbers as their decimal text, booleans as "true"/"false". */
  function PrimitiveText(j: Json): Option<string> {
    match j
    case JString(s) => Some(s)
    case JNumber(n) => Some(JavaText.DecimalString(n))
    case JBool(b) => Some(if b then "true" else "false")
    case _ => None
  }

  /** JsonElement.getAsString: a one-element array reads as its element; null, objects and other arrays throw. */
  function ElementText(j: Json): Option<string> {
    match j
    case JArray(items) => if |items| == 1 then ElementText(items[0]) else None
    case _ => PrimitiveText(j)
  }

  /** The colour of an attachment: none when absent or null, else the decoded text. */
  function ColorOf(a: map<string, Json>): Result<Option<int>, TranslationError> {
    if !Present(a, "color") then Ok(None)
    else match ElementText(a["color"])
      case None => Err(ColorUnreadable)
      case Some(text) =>
        match JavaText.LongDecode(text)
        case None => Err(ColorUnreadable)
        case Some(v) => Ok(Some(v))
  }

  /** field.get(key).getAsJsonPrimitive().getAsString(). */
  function PartText(f: map<string, Json>, key: string): Option<string> {
    if key in f then PrimitiveText(f[key]) else None
  }

  /** One Slack field {title, value} as one Discord field {name, value}, both strings. */
  function TranslateField(f: Json): Result<Json, TranslationError> {
    if !f.JObject? then Err(FieldNotObject)
    else
      var name := PartText(f.members, "title");
      var value := PartText(f.members, "value");
      if name.None? || value.None? then Err(FieldPartNotPrimitive)
      else Ok(JObject(map["name" := JString(name.value), "value" := JString(value.value)]))
  }

  /** The fields, translated one by one in order; the first failure aborts. */
  function TranslateFields(fs: seq<Json>): (r: Result<seq<Json>, TranslationError>)
    ensures r.Ok? ==> |r.value| == |fs|
  {
    if fs == [] then Ok([])
    else match TranslateField(fs[0])
      case Err(e) => Err(e)
      case Ok(f) =>
        match TranslateFields(fs[1..])
        case Err(e) => Err(e)
        case Ok(rest) => Ok([f] + rest)
  }

  /** The fields of an attachment: none when absent or null, else an array to translate. */
  function FieldsOf(a: map<string, Json>): Result<seq<Json>, TranslationError> {
    if !Present(a, "fields") then Ok([])
    else if !a["fields"].JArray? then Err(FieldsNotArray)
    else TranslateFields(a["fields"].items)
  }

  /** The members every embed carries; "color" is added when the attachment has one. */
  const EmbedKeys: set<string> := {"timestamp", "title", "url", "image", "description", "fields", "footer"}

  /** The embed built from one attachment, stamped with the time the request arrived. */
  function TranslateAttachment(att: Json, timestamp: string): Result<Json, TranslationError> {
    if !att.JObject? then Err(AttachmentNotObject)
    else
      var a := att.members;
      match ColorOf(a)
      case Err(e) => Err(e)
      case Ok(color) =>
        match FieldsOf(a)
        case Err(e) => Err(e)
        case Ok(fields) =>
          var embed := map[
            "timestamp" := JString(timestamp),
            "title" := Member(a, "title"),
            "url" := Member(a, "title_link"),
            "image" := JObject(map["url" := Member(a, "image_url")]),
            "description" := Member(a, "text"),
            "fields" := JArray(fields),
            "footer" := JObject(map["footer_icon" := Member(a, "footer_icon"), "text" := Member(a, "footer")])];
          Ok(JObject(if color.Some? then embed["color" := JNumber(color.value)] else embed))
  }

  /** The attachments, translated one by one in order; the first failure aborts. */
  function TranslateAttachments(atts: seq<Json>, timestamp: string): (r: Result<seq<Json>, TranslationError>)
    ensures r.Ok? ==> |r.value| == |atts|
  {
    if atts == [] then Ok([])
    else match TranslateAttachment(atts[0], timestamp)
      case Err(e) => Err(e)
      case Ok(embed) =>
        match TranslateAttachments(atts[1..], timestamp)
        case Err(e) => Err(e)
        case Ok(rest) => Ok([embed] + rest)
  }

  /** The Discord embeds for a Slack message object. */
  function TranslateMessage(msg: map<string, Json>, timestamp: string): Result<seq<Json>, TranslationError> {
    if "attachments" !in msg || !msg["attachments"].JArray? then Err(AttachmentsNotArray)
    else TranslateAttachments(msg["attachments"].items, timestamp)
  }

  // ---------------------------------------------------------------------
  // The loops of the handler, proved against the functions above.

  /** The loop over a field array. */
  method ConvertFields(fs: seq<Json>) returns (r: Result<seq<Json>, TranslationError>)
    ensures r == TranslateFields(fs)
  {
    var out: seq<Json> := [];
    for k := 0 to |fs|
      invariant |out| == k
      invariant forall j :: 0 <= j < k ==> TranslateField(fs[j]) == Ok(out[j])
    {
      var f := TranslateField(fs[k]);
      if f.Err? {
        FieldsFirstError(fs, k);
        return Err(f.error);
      }
      out := out + [f.value];
    }
    FieldsAllOk(fs, out);
    r := Ok(out);
  }

  /** The body of the loop over attachments: one embed. */
  method ConvertAttachment(att: Json, timestamp: string) returns (r: Result<Json, TranslationError>)
    ensures r == TranslateAttachment(att, timestamp)
  {
    if !att.JObject? {
      return Err(AttachmentNotObject);
    }
    var a := att.members;
    var color := ColorOf(a);
    if color.Err? {
      return Err(color.error);
    }
    var fields: Result<seq<Json>, TranslationError> := Ok([]);
    if Present(a, "fields") {
      if !a["fields"].JArray? {
        return Err(FieldsNotArray);
      }
      fields := ConvertFields(a["fields"].items);
      if fields.Err? {
        return Err(fields.error);
      }
    }
    var embed := map[
      "timestamp" := JString(timestamp),
      "title" := Member(a, "title"),
      "url" := Member(a, "title_link"),
      "image" := JObject(map["url" := Member(a, "image_url")]),
      "description" := Member(a, "text"),
      "fields" := JArray(fields.value),
      "footer" := JObject(map["footer_icon" := Member(a, "footer_icon"), "text" := Member(a, "footer")])];
    if color.value.Some? {
      embed := embed["color" := JNumber(color.value.value)];
    }
    r := Ok(JObject(embed));
  }

  /** The loop over the attachments of a message. */
  method ConvertAttachments(atts: seq<Json>, timestamp: string) returns (r: Result<seq<Json>, TranslationError>)
    ensures r == TranslateAttachments(atts, timestamp)
  {
    var embeds: seq<Json> := [];
    for k := 0 to |atts|
      invariant |embeds| == k
      invariant forall j :: 0 <= j < k ==> TranslateAttachment(atts[j], timestamp) == Ok(embeds[j])
    {
      var embed := ConvertAttachment(atts[k], timestamp);
      if embed.Err? {
        AttachmentsFirstError(atts, timestamp, k);
        return Err(embed.error);
      }
      embeds := embeds + [embed.value];
    }
    AttachmentsAllOk(atts, timestamp, embeds);
    r := Ok(embeds);
  }

  // ---------------------------------------------------------------------
  // Properties.

  /** When every field translates, the result lists their translations in order. */
  lemma {:induction false} FieldsAllOk(fs: seq<Json>, out: seq<Json>)
    requires |out| == |fs|
    requires forall j :: 0 <= j < |fs| ==> TranslateField(fs[j]) == Ok(out[j])
    ensures TranslateFields(fs) == Ok(out)
    decreases |fs|
  {
    if fs != [] {
      FieldsAllOk(fs[1..], out[1..]);
      assert [out[0]] + out[1..] == out;
    }
  }

  /** The first field that fails decides the error. */
  lemma {:induction false} FieldsFirstError(fs: seq<Json>, k: nat)
    requires k < |fs| && TranslateField(fs[k]).Err?
    requires forall j :: 0 <= j < k ==> TranslateField(fs[j]).Ok?
    ensures TranslateFields(fs) == Err(TranslateField(fs[k]).error)
    decreases k
  {
    if k > 0 {
      FieldsFirstError(fs[1..], k - 1);
    }
  }

  /** Translation of a field array fails exactly when some field fails; otherwise it is elementwise. */
  lemma {:induction false} FieldsElementwise(fs: seq<Json>)
    ensures TranslateFields(fs).Ok? <==> forall j :: 0 <= j < |fs| ==> TranslateField(fs[j]).Ok?
    ensures TranslateFields(fs).Ok? ==>
      forall j :: 0 <= j < |fs| ==> TranslateFields(fs).value[j] == TranslateField(fs[j]).value
    decreases |fs|
  {
    if fs != [] {
      FieldsElementwise(fs[1..]);
      if TranslateField(fs[0]).Ok? && TranslateFields(fs[1..]).Ok? {
        var r := TranslateFields(fs).value;
        forall j | 0 <= j < |fs| ensures r[j] == TranslateField(fs[j]).value {
          if j > 0 { assert r[j] == TranslateFields(fs[1..]).value[j - 1]; }
        }
      }
    }
  }

  lemma {:induction false} AttachmentsAllOk(atts: seq<Json>, timestamp: string, out: seq<Json>)
    requires |out| == |atts|
    requires forall j :: 0 <= j < |atts| ==> TranslateAttachment(atts[j], timestamp) == Ok(out[j])
    ensures TranslateAttachments(atts, timestamp) == Ok(out)
    decreases |atts|
  {
    if atts != [] {
      AttachmentsAllOk(atts[1..], timestamp, out[1..]);
      assert [out[0]] + out[1..] == out;
    }
  }

  lemma {:induction false} AttachmentsFirstError(atts: seq<Json>, timestamp: string, k: nat)
    requires k < |atts| && TranslateAttachment(atts[k], timestamp).Err?
    requires forall j :: 0 <= j < k ==> TranslateAttachment(atts[j], timestamp).Ok?
    ensures TranslateAttachments(atts, timestamp) == Err(TranslateAttachment(atts[k], timestamp).error)
    decreases k
  {
    if k > 0 {
      AttachmentsFirstError(atts[1..], timestamp, k - 1);
    }
  }

  lemma {:induction false} AttachmentsElementwise(atts: seq<Json>, timestamp: string)
    ensures TranslateAttachments(atts, timestamp).Ok? <==>
      forall j :: 0 <= j < |atts| ==> TranslateAttachment(atts[j], timestamp).Ok?
    ensures TranslateAttachments(atts, timestamp).Ok? ==>
      forall j :: 0 <= j < |atts| ==> TranslateAttachments(atts, timestamp).value[j] == TranslateAttachment(atts[j], timestamp).value
    decreases |atts|
  {
    if atts != [] {
      AttachmentsElementwise(atts[1..], timestamp);
      if TranslateAttachment(atts[0], timestamp).Ok? && TranslateAttachments(atts[1..], timestamp).Ok? {
        var r := TranslateAttachments(atts, timestamp).value;
        forall j | 0 <= j < |atts| ensures r[j] == TranslateAttachment(atts[j], timestamp).value {
          if j > 0 { assert r[j] == TranslateAttachments(atts[1..], timestamp).value[j - 1]; }
        }
      }
    }
  }

  /** A field the translation accepts: an object whose title and value are primitives. */
  predicate FieldAccepted(f: Json) {
    f.JObject? &&
    "title" in f.members && PrimitiveText(f.members["title"]).Some? &&
    "value" in f.members && PrimitiveText(f.members["value"]).Some?
  }

  /**
   * An attachment the translation accepts: an object whose colour, when
   * present and not null, reads as the text of a Java long, and whose
   * fields, when present and not null, are an array of accepted fields.
   */
  predicate AttachmentAccepted(att: Json) {
    att.JObject? &&
    (Present(att.members, "color") ==>
      ElementText(att.members["color"]).Some? &&
      JavaText.LongDecode(ElementText(att.members["color"]).value).Some?) &&
    (Present(att.members, "fields") ==>
      att.members["fields"].JArray? &&
      forall j :: 0 <= j < |att.members["fields"].items| ==> FieldAccepted(att.members["fields"].items[j]))
  }

  lemma FieldAcceptedIff(f: Json)
    ensures TranslateField(f).Ok? <==> FieldAccepted(f)
  {
  }

  /** An attachment is translated exactly when it is accepted. */
  lemma AttachmentAcceptedIff(att: Json, timestamp: string)
    ensures TranslateAttachment(att, timestamp).Ok? <==> AttachmentAccepted(att)
  {
    if att.JObject? && Present(att.members, "fields") && att.members["fields"].JArray? {
      var fs := att.members["fields"].items;
      FieldsElementwise(fs);
      forall j | 0 <= j < |fs| ensures TranslateField(fs[j]).Ok? <==> FieldAccepted(fs[j]) {
        FieldAcceptedIff(fs[j]);
      }
    }
  }

  /**
   * A Slack message is translated exactly when its "attachments" member is
   * an array of accepted attachments; the embeds are then one per
   * attachment, in the same order.
   */
  lemma MessageTranslation(msg: map<string, Json>, timestamp: string)
    ensures TranslateMessage(msg, timestamp).Ok? <==>
      "attachments" in msg && msg["attachments"].JArray? &&
      forall j :: 0 <= j < |msg["attachments"].items| ==> AttachmentAccepted(msg["attachments"].items[j])
    ensures TranslateMessage(msg, timestamp).Ok? ==>
      var atts := msg["attachments"].items;
      var embeds := TranslateMessage(msg, timestamp).value;
      |embeds| == |atts| &&
      forall j :: 0 <= j < |atts| ==> Ok(embeds[j]) == TranslateAttachment(atts[j], timestamp)
  {
    if "attachments" in msg && msg["attachments"].JArray? {
      var atts := msg["attachments"].items;
      AttachmentsElementwise(atts, timestamp);
      forall j | 0 <= j < |atts| ensures TranslateAttachment(atts[j], timestamp).Ok? <==> AttachmentAccepted(atts[j]) {
        AttachmentAcceptedIff(atts[j], timestamp);
      }
    }
  }

  /** Where each copied Slack attachment member lands in the Discord embed. */
  const Renames: seq<(string, seq<string>)> := [
    ("title", ["title"]),
    ("title_link", ["url"]),
    ("image_url", ["image", "url"]),
    ("text", ["description"]),
    ("footer_icon", ["footer", "footer_icon"]),
    ("footer", ["footer", "text"])]

  /** The value reached by following member names from j. */
  function At(j: Json, path: seq<string>): Option<Json>
    decreases |path|
  {
    if path == [] then Some(j)
    else if j.JObject? && path[0] in j.members then At(j.members[path[0]], path[1..])
    else None
  }

  /**
   * The members every embed carries: the copied members sit where the
   * renaming table puts them (null when the attachment lacks them), and the
   * timestamp is the request's.
   */
  lemma EmbedShape(att: Json, timestamp: string)
    requires TranslateAttachment(att, timestamp).Ok?
    ensures var embed := TranslateAttachment(att, timestamp).value;
      embed.JObject? &&
      (forall k :: 0 <= k < |Renames| ==> At(embed, Renames[k].1) == Some(Member(att.members, Renames[k].0))) &&
      At(embed, ["timestamp"]) == Some(JString(timestamp))
  {
    var embed := TranslateAttachment(att, timestamp).value;
    forall k | 0 <= k < |Renames| ensures At(embed, Renames[k].1) == Some(Member(att.members, Renames[k].0)) {
      var (from, path) := Renames[k];
      if |path| == 1 {
        assert At(embed, path) == At(embed.members[path[0]], []);
      } else {
        var inner := embed.members[path[0]];
        assert At(embed, path) == At(inner, path[1..]) == At(inner.members[path[1]], []);
      }
    }
  }

  /** An embed has the fixed members, plus "color" exactly when the attachment has a non-null colour. */
  lemma EmbedMemberNames(att: Json, timestamp: string)
    requires TranslateAttachment(att, timestamp).Ok?
    ensures var embed := TranslateAttachment(att, timestamp).value;
      embed.JObject? && embed.members.Keys == EmbedKeys + (if Present(att.members, "color") then {"color"} else {})
  {
  }

  /** A non-null colour reaches the embed as the number Long.decode reads from its text. */
  lemma EmbedColor(att: Json, timestamp: string)
    requires TranslateAttachment(att, timestamp).Ok? && Present(att.members, "color")
    ensures var embed := TranslateAttachment(att, timestamp).value;
      embed.JObject? && "color" in embed.members && embed.members["color"].JNumber? &&
      JavaText.LongDecode(ElementText(att.members["color"]).value) == Some(embed.members["color"].n)
  {
  }

  /** The embed's "fields" hold one {name, value} per Slack field, in order. */
  lemma EmbedFields(att: Json, timestamp: string)
    requires TranslateAttachment(att, timestamp).Ok?
    ensures var embed := TranslateAttachment(att, timestamp).value;
      var slack := if Present(att.members, "fields") then att.members["fields"].items else [];
      embed.JObject? && "fields" in embed.members && embed.members["fields"].JArray? &&
      |embed.members["fields"].items| == |slack| &&
      forall j :: 0 <= j < |slack| ==>
        FieldAccepted(slack[j]) &&
        embed.members["fields"].items[j] == JObject(map[
          "name" := JString(PrimitiveText(slack[j].members["title"]).value),
          "value" := JString(PrimitiveText(slack[j].members["value"]).value)])
  {
    if Present(att.members, "fields") {
      var fs := att.members["fields"].items;
      FieldsElementwise(fs);
      forall j | 0 <= j < |fs| ensures FieldAccepted(fs[j]) {
        FieldAcceptedIff(fs[j]);
      }
    }
  }

  /**
   * A colour written the way Slack writes it, "#" and hex digits, reaches
   * Discord as the number those digits spell.
   */
  lemma HexColorCarried(att: Json, timestamp: string, hex: string)
    requires TranslateAttachment(att, timestamp).Ok?
    requires 1 <= |hex| <= 15 && JavaText.AllDigits(hex, 16) && "color" in att.members
    requires att.members["color"] == JString("#" + hex)
    ensures TranslateAttachment(att, timestamp).value.members["color"] == JNumber(JavaText.DigitsValue(hex, 16))
  {
    JavaText.DecodeHashHex(hex);
    EmbedColor(att, timestamp);
  }
}
