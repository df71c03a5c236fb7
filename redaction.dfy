/** Redaction of secrets before request data reaches the log: a recursive
    pass over JSON-like data that hides the values of sensitive keys, and a
    pass over headers that hides sensitive headers. */
module Redaction {
  import opened JsonValue
  import opened Text

  /** Header names, in lower case, whose values never reach the log. */
  const SensitiveHeaders: set<string> :=
    {"authorization", "cookie", "set-cookie", "x-api-key", "x-auth-token"}

  /** Field names, in lower case, whose values never reach the log. */
  const SensitiveFields: set<string> :=
    {"password", "token", "secret", "api_key", "apikey", "auth", "credential"}

  /** The default replacement text. */
  const Redacted: string := "***REDACTED***"

  /** `key.lower() in SENSITIVE_FIELDS`. */
  predicate SensitiveField(key: string) {
    Lower(key) in SensitiveFields
  }

  /** `sanitize_data(data, redact_value)`: a copy of `data` in which every
      object field with a sensitive name holds `redactValue`, whatever it held,
      and every other field and list item is sanitised in turn. */
  function SanitizeData(data: Json, redactValue: string): (r: Json)
    ensures data.JObj? <==> r.JObj?
    ensures data.JArr? <==> r.JArr?
    ensures data.JObj? ==> Keys(r.fields) == Keys(data.fields)
    ensures data.JArr? ==> |r.items| == |data.items|
    ensures data.JObj? ==> forall i :: 0 <= i < |data.fields| ==>
      r.fields[i].1 == if SensitiveField(data.fields[i].0) then JStr(redactValue)
                       else SanitizeData(data.fields[i].1, redactValue)
    ensures data.JArr? ==> forall i :: 0 <= i < |data.items| ==> r.items[i] == SanitizeData(data.items[i], redactValue)
    ensures !data.JObj? && !data.JArr? ==> r == data
    decreases data
  {
    match data
    case JObj(fields) =>
      JObj(seq(|fields|, i requires 0 <= i < |fields| =>
        (fields[i].0, if SensitiveField(fields[i].0) then JStr(redactValue)
                      else SanitizeData(fields[i].1, redactValue))))
    case JArr(items) =>
      JArr(seq(|items|, i requires 0 <= i < |items| => SanitizeData(items[i], redactValue)))
    case _ => data
  }

  /** No field with a sensitive name holds anything but `redactValue`, at any
      depth. */
  predicate Redacts(data: Json, redactValue: string)
    decreases data
  {
    match data
    case JObj(fields) =>
      forall i :: 0 <= i < |fields| ==>
        if SensitiveField(fields[i].0) then fields[i].1 == JStr(redactValue)
        else Redacts(fields[i].1, redactValue)
    case JArr(items) => forall i :: 0 <= i < |items| ==> Redacts(items[i], redactValue)
    case _ => true
  }

  /** Sanitising hides every sensitive value, at every depth. */
  lemma {:induction false} SanitizeRedacts(data: Json, redactValue: string)
    ensures Redacts(SanitizeData(data, redactValue), redactValue)
    decreases data
  {
    match data
    case JObj(fields) =>
      var r := SanitizeData(data, redactValue);
      forall i | 0 <= i < |fields| && !SensitiveField(fields[i].0)
        ensures Redacts(r.fields[i].1, redactValue)
      {
        SanitizeRedacts(fields[i].1, redactValue);
      }
    case JArr(items) =>
      forall i | 0 <= i < |items| ensures Redacts(SanitizeData(items[i], redactValue), redactValue) {
        SanitizeRedacts(items[i], redactValue);
      }
    case _ =>
  }

  /** Data that already hides every sensitive value comes out of sanitising
      unchanged. */
  lemma {:induction false} SanitizeKeepsRedacted(data: Json, redactValue: string)
    requires Redacts(data, redactValue)
    ensures SanitizeData(data, redactValue) == data
    decreases data
  {
    match data
    case JObj(fields) =>
      var r := SanitizeData(data, redactValue);
      forall i | 0 <= i < |fields| ensures r.fields[i] == fields[i] {
        if !SensitiveField(fields[i].0) {
          SanitizeKeepsRedacted(fields[i].1, redactValue);
        }
      }
    case JArr(items) =>
      var r := SanitizeData(data, redactValue);
      forall i | 0 <= i < |items| ensures r.items[i] == items[i] {
        SanitizeKeepsRedacted(items[i], redactValue);
      }
    case _ =>
  }

  /** Sanitising twice is sanitising once. */
  lemma SanitizeIdempotent(data: Json, redactValue: string)
    ensures SanitizeData(SanitizeData(data, redactValue), redactValue) == SanitizeData(data, redactValue)
  {
    SanitizeRedacts(data, redactValue);
    SanitizeKeepsRedacted(SanitizeData(data, redactValue), redactValue);
  }

  /** Two objects with the same keys that differ only under sensitive keys
      sanitise alike: the value of a sensitive field is never looked at. */
  lemma SecretsNotInspected(a: seq<(string, Json)>, b: seq<(string, Json)>, redactValue: string)
    requires Keys(a) == Keys(b)
    requires forall i :: 0 <= i < |a| && !SensitiveField(a[i].0) ==> a[i].1 == b[i].1
    ensures SanitizeData(JObj(a), redactValue) == SanitizeData(JObj(b), redactValue)
  {
    var ra := SanitizeData(JObj(a), redactValue).fields;
    var rb := SanitizeData(JObj(b), redactValue).fields;
    forall i | 0 <= i < |a| ensures ra[i] == rb[i] {
      assert a[i].0 == Keys(a)[i] == Keys(b)[i] == b[i].0;
    }
  }

  /** `sanitize_headers`: the same headers in the same order, with the value
      of exactly the sensitive ones replaced by "***REDACTED***". */
  function SanitizeHeaders(headers: seq<(string, string)>): (r: seq<(string, string)>)
    ensures |r| == |headers|
    ensures forall i :: 0 <= i < |headers| ==> r[i].0 == headers[i].0
    ensures forall i :: 0 <= i < |headers| && Lower(headers[i].0) in SensitiveHeaders ==> r[i].1 == Redacted
    ensures forall i :: 0 <= i < |headers| && Lower(headers[i].0) !in SensitiveHeaders ==> r[i].1 == headers[i].1
  {
    seq(|headers|, i requires 0 <= i < |headers| =>
      (headers[i].0, if Lower(headers[i].0) in SensitiveHeaders then Redacted else headers[i].1))
  }

  /** Sanitising headers twice is sanitising them once. */
  lemma SanitizeHeadersIdempotent(headers: seq<(string, string)>)
    ensures SanitizeHeaders(SanitizeHeaders(headers)) == SanitizeHeaders(headers)
  {
  }
}
