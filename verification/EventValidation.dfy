/** `validateAndNormalizeEvent`: which records become events, and what an event may contain. */
module EventValidation {
  import opened Common
  import opened Redaction
  import opened SecretKeys
  import SensitiveKeys

  const MAX_HYPOTHESIS_ID_LENGTH := 256
  const MAX_DATA_BYTES := 32 * 1024

  /** The probe's fields of a stored event. */
  datatype ProbeEvent = ProbeEvent(
    hypothesisId: string, timestamp: real, location: string, message: string, data: JsonValue)

  datatype Validation =
    | Accepted(event: ProbeEvent, redactedPaths: seq<string>)  // SECRET_REDACTED is reported iff paths are listed
    | Rejected                                                 // INVALID_SCHEMA

  function Lookup(entries: seq<Entry>, key: string): Option<JsonValue>
  {
    if entries == [] then None
    else if entries[0].key == key then Some(entries[0].value)
    else Lookup(entries[1..], key)
  }

  /** With every key once, a field is found if and only if it is there. */
  lemma {:induction false} LookupFinds(entries: seq<Entry>, key: string, value: JsonValue)
    requires forall j, k | 0 <= j < k < |entries| :: entries[j].key != entries[k].key
    ensures Lookup(entries, key) == Some(value) <==> Entry(key, value) in entries
  {
    if entries != [] {
      var rest := entries[1..];
      assert entries == [entries[0]] + rest;
      LookupFinds(rest, key, value);
      if Entry(key, value) in rest {
        var k :| 0 <= k < |rest| && rest[k] == Entry(key, value);
        assert entries[k + 1].key == key && entries[0].key != key;
      }
    }
  }

  predicate BoundedText(v: Option<JsonValue>, limit: nat)
  {
    v.Some? && v.value.Text? && 0 < Length(v.value.s) <= limit
  }

  /** The bounded schema; `encodedSize` is the byte length of JSON.stringify. */
  predicate ValidEvent(raw: JsonValue, encodedSize: JsonValue -> nat)
  {
    && raw.Object?
    && BoundedText(Lookup(raw.entries, "hypothesisId"), MAX_HYPOTHESIS_ID_LENGTH)
    && Lookup(raw.entries, "timestamp").Some? && Lookup(raw.entries, "timestamp").value.Number?
    && BoundedText(Lookup(raw.entries, "location"), 1024)
    && BoundedText(Lookup(raw.entries, "message"), 1024)
    && Lookup(raw.entries, "data").Some?
    && IsJsonValue(Lookup(raw.entries, "data").value, 0)
    && encodedSize(Lookup(raw.entries, "data").value) <= MAX_DATA_BYTES
  }

  /** Small enough, apart from what is below. */
  predicate Fits(node: JsonValue)
  {
    match node
    case Infinite => false
    case Text(s) => Length(s) <= 4096
    case Array(items) => |items| <= 100
    case Object(entries) => |entries| <= 100 && forall i | 0 <= i < |entries| :: Length(entries[i].key) <= 256
    case _ => true
  }

  /** Nothing in the value is too large, nor more than eight levels down. */
  ghost predicate FitsThroughout(v: JsonValue, depth: nat)
  {
    forall p | Exists(v, p) :: depth + |p| <= 8 && Fits(At(v, p))
  }

  lemma {:induction false} JsonFits(v: JsonValue, depth: nat, p: Position)
    requires IsJsonValue(v, depth) && Exists(v, p)
    ensures depth + |p| <= 8 && Fits(At(v, p))
    decreases |p|
  {
    hide Length;
    if p != [] { JsonFits(Child(v, p[0]), depth + 1, p[1..]); }
  }

  lemma ChildFits(v: JsonValue, depth: nat, i: nat)
    requires FitsThroughout(v, depth) && i < Size(v)
    ensures FitsThroughout(Child(v, i), depth + 1)
  {
    hide Fits;
    forall p | Exists(Child(v, i), p) ensures depth + 1 + |p| <= 8 && Fits(At(Child(v, i), p)) {
      var q := [i] + p;
      assert q[0] == i && q[1..] == p;
      assert Exists(v, q) && At(v, q) == At(Child(v, i), p);
    }
  }

  lemma {:induction false} FittingIsJson(v: JsonValue, depth: nat)
    requires FitsThroughout(v, depth)
    ensures IsJsonValue(v, depth)
  {
    hide Length;
    var root: Position := [];
    assert Exists(v, root) && At(v, root) == v && depth + |root| <= 8 && Fits(v);
    hide FitsThroughout;
    match v
    case Array(items) =>
      forall i | 0 <= i < |items| ensures IsJsonValue(items[i], depth + 1) {
        ChildFits(v, depth, i);
        FittingIsJson(items[i], depth + 1);
      }
    case Object(entries) =>
      forall i | 0 <= i < |entries| ensures IsJsonValue(entries[i].value, depth + 1) {
        ChildFits(v, depth, i);
        FittingIsJson(entries[i].value, depth + 1);
      }
    case _ =>
  }

  /** What `isJsonValue` accepts, node by node. */
  lemma {:induction false} JsonIffItFits(v: JsonValue)
    ensures IsJsonValue(v, 0) <==> FitsThroughout(v, 0)
  {
    hide Fits, IsJsonValue;
    if IsJsonValue(v, 0) {
      forall p | Exists(v, p) ensures |p| <= 8 && Fits(At(v, p)) { JsonFits(v, 0, p); }
    }
    if FitsThroughout(v, 0) { FittingIsJson(v, 0); }
  }

  /** A text of between 1 and `limit` UTF-16 code units under the key. */
  predicate HasText(entries: seq<Entry>, key: string, limit: nat)
  {
    match Lookup(entries, key)
    case Some(Text(s)) => s != "" && Length(s) <= limit
    case _ => false
  }

  lemma {:induction false} EmptyIffLengthZero(s: string)
    ensures Length(s) == 0 <==> s == ""
  {
    LengthBounds(s);
  }

  /** The schema, field by field. */
  ghost predicate FollowsSchema(raw: JsonValue, encodedSize: JsonValue -> nat)
  {
    && raw.Object?
    && HasText(raw.entries, "hypothesisId", 256) && HasText(raw.entries, "location", 1024)
    && HasText(raw.entries, "message", 1024)
    && (exists x: real :: Lookup(raw.entries, "timestamp") == Some(Number(x)))
    && match Lookup(raw.entries, "data")
       case Some(data) => FitsThroughout(data, 0) && encodedSize(data) <= 32768
       case None => false
  }

  lemma {:induction false} HasTextIff(entries: seq<Entry>, key: string, limit: nat)
    ensures HasText(entries, key, limit) <==> BoundedText(Lookup(entries, key), limit)
  {
    hide Lookup;
    if Lookup(entries, key).Some? && Lookup(entries, key).value.Text? {
      EmptyIffLengthZero(Lookup(entries, key).value.s);
    }
  }

  lemma ValidIffItFollows(raw: JsonValue, encodedSize: JsonValue -> nat)
    ensures ValidEvent(raw, encodedSize) <==> FollowsSchema(raw, encodedSize)
  {
    hide Lookup, IsJsonValue, FitsThroughout, HasText, BoundedText;
    if raw.Object? {
      HasTextIff(raw.entries, "hypothesisId", 256);
      HasTextIff(raw.entries, "location", 1024);
      HasTextIff(raw.entries, "message", 1024);
      var timestamp := Lookup(raw.entries, "timestamp");
      if timestamp.Some? && timestamp.value.Number? { assert timestamp == Some(Number(timestamp.value.x)); }
      if Lookup(raw.entries, "data").Some? { JsonIffItFits(Lookup(raw.entries, "data").value); }
    }
  }

  method ValidateAndNormalizeEvent(value: JsonValue, encodedSize: JsonValue -> nat) returns (r: Validation)
    ensures r.Accepted? <==> FollowsSchema(value, encodedSize)
    // what is stored is valid JSON without secrets, and equals the probe's data away from sensitive keys
    ensures r.Accepted? ==>
      var data := Lookup(value.entries, "data").value;
      && IsJsonValue(r.event.data, 0) && FullyRedacted(r.event.data)
      && (forall p | Exists(data, p) && Visible(data, p) ::
            Exists(r.event.data, p) && SameNode(At(data, p), At(r.event.data, p)))
      && (FullyRedacted(data) ==> r.event.data == data)
    ensures r.Accepted? ==>
      forall p, i | Exists(r.event.data, p) && At(r.event.data, p).Object? && 0 <= i < |At(r.event.data, p).entries| ::
        Secret(SensitiveKeys.NormalizeSensitiveKey(At(r.event.data, p).entries[i].key))
        ==> At(r.event.data, p).entries[i].value == Text("[REDACTED]")
    // a redaction is reported whenever the data changed, one path per outermost sensitive position
    ensures r.Accepted? ==>
      var data := Lookup(value.entries, "data").value;
      && |r.redactedPaths| == |Positions(data, 0)|
      && (forall k | 0 <= k < |r.redactedPaths| ::
            Exists(data, Positions(data, 0)[k]) && r.redactedPaths[k] == Rendered(data, "", Positions(data, 0)[k]))
      && (r.redactedPaths == [] ==> r.event.data == data)
    ensures r.Accepted? ==>
      && Lookup(value.entries, "hypothesisId") == Some(Text(r.event.hypothesisId))
      && Lookup(value.entries, "timestamp") == Some(Number(r.event.timestamp))
      && Lookup(value.entries, "location") == Some(Text(r.event.location))
      && Lookup(value.entries, "message") == Some(Text(r.event.message))
  {
    ValidIffItFollows(value, encodedSize);
    if !ValidEvent(value, encodedSize) { return Rejected; }
    var entries := value.entries;
    var data := Lookup(entries, "data").value;
    var redacted, paths := Redact(data, "", []);
    hide Redacted, Paths, IsJsonValue, FullyRedacted, IsSensitiveKey, Lookup, Positions, FollowsSchema, Secret;
    hide SensitiveKeys.NormalizeSensitiveKey;
    RedactionKeepsJson(data, 0);
    RedactedIsFullyRedacted(data);
    RedactedUnchangedIff(data);
    PathsAreRenderedPositions(data, "", 0);
    assert paths == Paths(data, "", 0);
    if paths == [] { NothingListed(data, ""); }
    forall p, i | Exists(redacted, p) && At(redacted, p).Object? && 0 <= i < |At(redacted, p).entries|
      && Secret(SensitiveKeys.NormalizeSensitiveKey(At(redacted, p).entries[i].key))
      ensures At(redacted, p).entries[i].value == Text("[REDACTED]")
    {
      SecretsAreGone(data, p, i);
    }
    forall p | Exists(data, p) && Visible(data, p)
      ensures Exists(redacted, p) && SameNode(At(data, p), At(redacted, p))
    {
      RedactionKeepsVisible(data, p);
    }
    return Accepted(
      ProbeEvent(
        Lookup(entries, "hypothesisId").value.s, Lookup(entries, "timestamp").value.x,
        Lookup(entries, "location").value.s, Lookup(entries, "message").value.s, redacted),
      paths);
  }
}
