/**
 * The development-only endpoint that saves a track choice for one release:
 * it checks the request body, trims its fields, and upserts the entry for the
 * release in the stored preferences.
 */
module SavePreferences {
  import opened Wrappers
  import opened Strings

  // ---------------------------------------------------------------------------
  // Parsed JSON and JavaScript's view of it
  // ---------------------------------------------------------------------------

  /** A JavaScript number. */
  datatype Number = Finite(v: real) | PosInfinity | NegInfinity | NaN

  /** A value produced by `JSON.parse`. */
  datatype Json =
    | JNull
    | JBool(b: bool)
    | JNumber(n: Number)
    | JString(s: string)
    | JArray(items: seq<Json>)
    | JObject(fields: map<string, Json>)

  /** `typeof v`, `None` standing for `undefined`. */
  function TypeOf(v: Option<Json>): string {
    match v
    case None => "undefined"
    case Some(JNull) => "object"
    case Some(JBool(_)) => "boolean"
    case Some(JNumber(_)) => "number"
    case Some(JString(_)) => "string"
    case Some(JArray(_)) => "object"
    case Some(JObject(_)) => "object"
  }

  /** `!!v`. */
  predicate Truthy(v: Json) {
    match v
    case JNull => false
    case JBool(b) => b
    case JNumber(n) => !(n == Finite(0.0) || n.NaN?)
    case JString(s) => s != ""
    case JArray(_) => true
    case JObject(_) => true
  }

  /** The property `key` of a value; only objects carry the body's keys. */
  function Get(v: Json, key: string): Option<Json> {
    if v.JObject? && key in v.fields then Some(v.fields[key]) else None
  }

  /** `Number.isFinite(n)`. */
  predicate IsFinite(n: Number) {
    n.Finite?
  }

  /** `n < -1`. */
  predicate BelowMinusOne(n: Number) {
    match n
    case Finite(v) => v < -1.0
    case NegInfinity => true
    case _ => false
  }

  /** `!v || typeof v !== "object"` refuses exactly the values that are not
      arrays or objects: `typeof null` is "object", but `null` is falsy. */
  lemma ObjectTest(v: Json)
    ensures Truthy(v) && TypeOf(Some(v)) == "object" <==> v.JArray? || v.JObject?
    ensures TypeOf(Some(v)) != "undefined"
  {
  }

  /** `!Number.isFinite(n) || n < -1` lets through exactly the finite numbers
      from -1 up; NaN and both infinities are refused. */
  lemma IndexTest(n: Number)
    ensures IsFinite(n) && !BelowMinusOne(n) <==> n.Finite? && n.v >= -1.0
  {
  }

  /** A property is present only on an object that has it as a key. */
  lemma GetPresent(v: Json, key: string)
    ensures Get(v, key).Some? <==> v.JObject? && key in v.fields
    ensures Get(v, key).Some? ==> Get(v, key).value == v.fields[key]
    ensures TypeOf(Get(v, key)) == "undefined" <==> !(v.JObject? && key in v.fields)
  {
  }

  // ---------------------------------------------------------------------------
  // The body check (`isSavePreferencesBody`)
  // ---------------------------------------------------------------------------

  predicate IsSavePreferencesBody(body: Json) {
    && Truthy(body) && TypeOf(Some(body)) == "object"
    && TypeOf(Get(body, "releaseId")) == "string"
    && TypeOf(Get(body, "selectedTrackIndex")) == "number"
    && TypeOf(Get(body, "selectedTrackTitle")) == "string"
    && (TypeOf(Get(body, "customSearchQuery")) == "undefined" || TypeOf(Get(body, "customSearchQuery")) == "string")
  }

  /** The check accepts exactly the objects with a string `releaseId`, a
      number `selectedTrackIndex`, a string `selectedTrackTitle` and, when
      present, a string `customSearchQuery`; `null`, arrays and scalars are
      refused. */
  lemma IsSavePreferencesBodyExactly(body: Json)
    ensures IsSavePreferencesBody(body) <==>
      && body.JObject?
      && "releaseId" in body.fields && body.fields["releaseId"].JString?
      && "selectedTrackIndex" in body.fields && body.fields["selectedTrackIndex"].JNumber?
      && "selectedTrackTitle" in body.fields && body.fields["selectedTrackTitle"].JString?
      && ("customSearchQuery" in body.fields ==> body.fields["customSearchQuery"].JString?)
  {
  }

  // ---------------------------------------------------------------------------
  // Replies and the stored preferences
  // ---------------------------------------------------------------------------

  /** A reply: the status and, on failure, the error message. */
  datatype Reply = Reply(status: int, error: Option<string>)

  const Disabled := Reply(403, Some("This endpoint is disabled in production."))
  const InvalidJson := Reply(400, Some("Invalid JSON body."))
  const MissingFields := Reply(400, Some("Missing required fields."))
  const InvalidIndex := Reply(400, Some("Invalid selectedTrackIndex."))
  const InvalidReleaseId := Reply(400, Some("Invalid releaseId."))
  const InvalidTitle := Reply(400, Some("Invalid selectedTrackTitle."))
  const Saved := Reply(200, None)

  /** The preference stored for one release. */
  datatype Entry = Entry(selectedTrackIndex: real, selectedTrackTitle: string, customSearchQuery: Option<string>)

  /** The preferences read from disk; an absent, empty, `null` or unreadable
      file reads as no preferences. */
  class PreferenceStore {
    var prefs: map<string, Entry>

    constructor (stored: Option<map<string, Entry>>)
      ensures prefs == stored.GetOr(map[])
    {
      prefs := stored.GetOr(map[]);
    }

    /** `prefs[releaseId] = entry`: assigning to `"__proto__"` when the
        object has no own property of that name goes to the inherited
        setter, which replaces the object's prototype and adds no key. */
    method Put(releaseId: string, entry: Entry)
      modifies this
      ensures prefs == Upsert(old(prefs), releaseId, entry)
    {
      if releaseId == ProtoKey && ProtoKey !in prefs {
        return;
      }
      prefs := prefs[releaseId := entry];
    }
  }

  /** The one key whose assignment does not create a property of a parsed
      object that lacks it: `Object.prototype.__proto__` is an accessor. */
  const ProtoKey: string := "__proto__"

  /** Whether `prefs[key] = ...` stores an own property: every key except a
      `"__proto__"` that is not already an own property. */
  predicate Assignable(prefs: map<string, Entry>, key: string) {
    key != ProtoKey || key in prefs
  }

  /** The preferences after `prefs[key] = entry`, as `JSON.stringify` sees
      them. */
  function Upsert(prefs: map<string, Entry>, key: string, entry: Entry): map<string, Entry> {
    if Assignable(prefs, key) then prefs[key := entry] else prefs
  }

  /** The upsert adds or replaces the one key and leaves every other key and
      its entry as it was; an unassignable `"__proto__"` leaves the
      preferences as they were. */
  lemma UpsertOnlyKey(prefs: map<string, Entry>, key: string, entry: Entry)
    ensures Assignable(prefs, key) ==> key in Upsert(prefs, key, entry) && Upsert(prefs, key, entry)[key] == entry
    ensures !Assignable(prefs, key) ==> Upsert(prefs, key, entry) == prefs && key !in prefs
    ensures forall k :: k != key ==> (k in Upsert(prefs, key, entry) <==> k in prefs)
    ensures forall k :: k != key && k in prefs ==> Upsert(prefs, key, entry)[k] == prefs[k]
  {
  }

  /** The upsert adds a key exactly when the release had no preferences yet
      and its id is assignable. */
  lemma UpsertSize(prefs: map<string, Entry>, key: string, entry: Entry)
    ensures |Upsert(prefs, key, entry).Keys| ==
      if key in prefs || !Assignable(prefs, key) then |prefs.Keys| else |prefs.Keys| + 1
  {
    var m := Upsert(prefs, key, entry);
    if key in prefs || !Assignable(prefs, key) {
      assert m.Keys == prefs.Keys;
    } else {
      assert m.Keys == prefs.Keys + {key};
    }
  }

  // ---------------------------------------------------------------------------
  // The request (`POST`)
  // ---------------------------------------------------------------------------

  /** The validated request: the trimmed release id and the entry to store. */
  datatype Request = Request(releaseId: string, entry: Entry)

  /** `customSearchQuery` as stored: trimmed, and only when not blank. */
  function SearchQuery(raw: Option<Json>): Option<string> {
    if raw.Some? && raw.value.JString? && Trim(raw.value.s) != "" then Some(Trim(raw.value.s)) else None
  }

  /** The checks of `POST` after the body has been parsed, in their order. */
  function Validate(body: Json): Result<Request, Reply> {
    if !IsSavePreferencesBody(body) then Err(MissingFields)
    else
      var releaseId := Trim(body.fields["releaseId"].s);
      var index := body.fields["selectedTrackIndex"].n;
      var title := Trim(body.fields["selectedTrackTitle"].s);
      if !IsFinite(index) || BelowMinusOne(index) then Err(InvalidIndex)
      else if releaseId == "" then Err(InvalidReleaseId)
      else if title == "" then Err(InvalidTitle)
      else Ok(Request(releaseId, Entry(index.v, title, SearchQuery(Get(body, "customSearchQuery")))))
  }

  /** A body passes exactly when it has the right shape, a finite
      `selectedTrackIndex` of at least -1, and a `releaseId` and a
      `selectedTrackTitle` that are not blank; the stored values are the
      trimmed strings and the index itself, with a search query only when it
      is a string that is not blank. */
  lemma ValidateAccepts(body: Json)
    ensures Validate(body).Ok? <==>
      && IsSavePreferencesBody(body)
      && body.fields["selectedTrackIndex"].n.Finite?
      && body.fields["selectedTrackIndex"].n.v >= -1.0
      && !AllWhitespace(body.fields["releaseId"].s)
      && !AllWhitespace(body.fields["selectedTrackTitle"].s)
    ensures Validate(body).Ok? ==>
      var r := Validate(body).value;
      && r.releaseId == Trim(body.fields["releaseId"].s) && r.releaseId != ""
      && r.entry.selectedTrackIndex == body.fields["selectedTrackIndex"].n.v
      && r.entry.selectedTrackTitle == Trim(body.fields["selectedTrackTitle"].s) && r.entry.selectedTrackTitle != ""
      && (r.entry.customSearchQuery.Some? <==>
            "customSearchQuery" in body.fields && !AllWhitespace(body.fields["customSearchQuery"].s))
      && (r.entry.customSearchQuery.Some? ==> r.entry.customSearchQuery.value == Trim(body.fields["customSearchQuery"].s))
  {
    IsSavePreferencesBodyExactly(body);
  }

  /** A refused body gets the message of the first check it fails, always
      with status 400. */
  lemma ValidateRefusal(body: Json)
    ensures Validate(body).Err? ==> Validate(body).error.status == 400
    ensures !IsSavePreferencesBody(body) ==> Validate(body) == Err(MissingFields)
    ensures IsSavePreferencesBody(body) && !body.fields["selectedTrackIndex"].n.Finite? ==> Validate(body) == Err(InvalidIndex)
  {
  }

  /** The stored strings have no whitespace left to trim. */
  lemma ValidateTrimmed(body: Json)
    requires Validate(body).Ok?
    ensures var r := Validate(body).value;
      && Trim(r.releaseId) == r.releaseId
      && Trim(r.entry.selectedTrackTitle) == r.entry.selectedTrackTitle
      && (r.entry.customSearchQuery.Some? ==> Trim(r.entry.customSearchQuery.value) == r.entry.customSearchQuery.value)
  {
    ValidateAccepts(body);
    IsSavePreferencesBodyExactly(body);
    TrimIdempotent(body.fields["releaseId"].s);
    TrimIdempotent(body.fields["selectedTrackTitle"].s);
    if "customSearchQuery" in body.fields {
      TrimIdempotent(body.fields["customSearchQuery"].s);
    }
  }

  /** What a request comes to: the reply and, when it saves, the preferences
      written back. */
  datatype Outcome = Outcome(reply: Reply, written: Option<map<string, Entry>>)

  /** `POST`, with `production` for `NODE_ENV === "production"`, `body` the
      parsed body (`None` when it is not JSON) and `stored` the preferences
      on disk (`None` when they cannot be read). */
  function Handle(production: bool, body: Option<Json>, stored: Option<map<string, Entry>>): Outcome {
    if production then Outcome(Disabled, None)
    else if body.None? then Outcome(InvalidJson, None)
    else
      match Validate(body.value)
      case Err(reply) => Outcome(reply, None)
      case Ok(req) => Outcome(Saved, Some(Upsert(stored.GetOr(map[]), req.releaseId, req.entry)))
  }

  /** In production nothing is parsed or written; elsewhere a request is
      saved exactly when its body is JSON that passes the checks, and then the
      stored preferences change at the request's release id only: the entry
      is stored there, except for a release id `"__proto__"` that the stored
      preferences do not have, which leaves them as they were. */
  lemma HandleOutcome(production: bool, body: Option<Json>, stored: Option<map<string, Entry>>)
    ensures production ==> Handle(production, body, stored) == Outcome(Disabled, None)
    ensures Handle(production, body, stored).written.Some? <==> !production && body.Some? && Validate(body.value).Ok?
    ensures Handle(production, body, stored).written.Some? <==> Handle(production, body, stored).reply.status == 200
    ensures Handle(production, body, stored).written.Some? ==>
      var req := Validate(body.value).value;
      var written := Handle(production, body, stored).written.value;
      && (Assignable(stored.GetOr(map[]), req.releaseId) ==>
            req.releaseId in written && written[req.releaseId] == req.entry)
      && (!Assignable(stored.GetOr(map[]), req.releaseId) ==> written == stored.GetOr(map[]))
      && forall k :: k != req.releaseId ==>
           (k in written <==> k in stored.GetOr(map[])) && (k in written ==> written[k] == stored.GetOr(map[])[k])
  {
    if !production && body.Some? && Validate(body.value).Ok? {
      var req := Validate(body.value).value;
      UpsertOnlyKey(stored.GetOr(map[]), req.releaseId, req.entry);
    } else if !production && body.Some? {
      ValidateRefusal(body.value);
    }
  }

  /** `POST`: the checks in order, then the in-place update of the stored
      preferences, which are returned as written. */
  method Post(production: bool, body: Option<Json>, stored: Option<map<string, Entry>>)
    returns (reply: Reply, written: Option<map<string, Entry>>)
    ensures Outcome(reply, written) == Handle(production, body, stored)
  {
    if production {
      return Disabled, None;
    }
    if body.None? {
      return InvalidJson, None;
    }
    var b := body.value;
    if !IsSavePreferencesBody(b) {
      return MissingFields, None;
    }
    var releaseId := Trim(b.fields["releaseId"].s);
    var selectedTrackIndex := b.fields["selectedTrackIndex"].n;
    var selectedTrackTitle := Trim(b.fields["selectedTrackTitle"].s);
    var customSearchQueryRaw := Get(b, "customSearchQuery");
    if !IsFinite(selectedTrackIndex) || BelowMinusOne(selectedTrackIndex) {
      return InvalidIndex, None;
    }
    if releaseId == "" {
      return InvalidReleaseId, None;
    }
    if selectedTrackTitle == "" {
      return InvalidTitle, None;
    }
    var customSearchQuery: Option<string> := None;
    if customSearchQueryRaw.Some? && customSearchQueryRaw.value.JString? && |Trim(customSearchQueryRaw.value.s)| > 0 {
      customSearchQuery := Some(Trim(customSearchQueryRaw.value.s));
    }
    var store := new PreferenceStore(stored);
    store.Put(releaseId, Entry(selectedTrackIndex.v, selectedTrackTitle, customSearchQuery));
    return Saved, Some(store.prefs);
  }
}
