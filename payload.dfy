/** The notification payload builder of `txapns/payload.py`: the `aps`
    dictionary assembled from an alert, a badge and a sound, the custom
    keys merged over it, and the 256-byte limit on its JSON form checked
    when a payload is constructed. The JSON serialiser is the parameter
    `dumps`, the same one the wire codec uses. */
module Payloads {
  import opened Wrappers
  import opened Values
  import opened Bytes
  import opened Encoding

  const MaxPayloadLength: nat := 256

  // ---------------------------------------------------------------------
  // PayloadAlert

  /** The attributes of a `PayloadAlert`; the optional ones default to `Null`. */
  datatype PayloadAlert = PayloadAlert(
    body: Value,
    actionLocKey: Value,
    locKey: Value,
    locArgs: Value,
    launchImage: Value)

  /** `PayloadAlert(body)` with every optional attribute left at `None`. */
  function NewAlert(body: Value): PayloadAlert
  {
    PayloadAlert(body, Null, Null, Null, Null)
  }

  const AlertKeys: set<string> := {"body", "action-loc-key", "loc-key", "loc-args", "launch-image"}

  /** `if v: d[k] = v`: the key is added (or overwritten) only for a truthy
      value, and every other entry keeps its value. */
  function PutIfTruthy(d: map<string, Value>, k: string, v: Value): (r: map<string, Value>)
    ensures r.Keys == if Truthy(v) then d.Keys + {k} else d.Keys
    ensures forall j :: j in r ==> r[j] == if j == k && Truthy(v) then v else d[j]
  {
    if Truthy(v) then d[k := v] else d
  }

  /** `d` holds key `k` exactly when the attribute `v` is truthy, and then
      holds `v` itself under it. */
  ghost predicate OptionalEntry(d: map<string, Value>, k: string, v: Value)
  {
    (k in d <==> Truthy(v)) && (k in d ==> d[k] == v)
  }

  /** `PayloadAlert.dict()`: the body always, each optional attribute only
      when it is truthy, under its hyphenated APNs key. */
  function AlertDict(a: PayloadAlert): (d: map<string, Value>)
    ensures "body" in d && d["body"] == a.body
    ensures OptionalEntry(d, "action-loc-key", a.actionLocKey)
    ensures OptionalEntry(d, "loc-key", a.locKey)
    ensures OptionalEntry(d, "loc-args", a.locArgs)
    ensures OptionalEntry(d, "launch-image", a.launchImage)
    ensures d.Keys <= AlertKeys
  {
    var d := map["body" := a.body];
    var d := PutIfTruthy(d, "action-loc-key", a.actionLocKey);
    var d := PutIfTruthy(d, "loc-key", a.locKey);
    var d := PutIfTruthy(d, "loc-args", a.locArgs);
    PutIfTruthy(d, "launch-image", a.launchImage)
  }

  /** The attribute a receiver reads back under key `k`: absent keys read as `None`. */
  function Lookup(d: map<string, Value>, k: string): Value
  {
    if k in d then d[k] else Null
  }

  /** The alert a receiver of the dictionary reconstructs. */
  function AlertFromDict(d: map<string, Value>): PayloadAlert
  {
    PayloadAlert(Lookup(d, "body"), Lookup(d, "action-loc-key"), Lookup(d, "loc-key"),
                 Lookup(d, "loc-args"), Lookup(d, "launch-image"))
  }

  /** A falsy attribute is indistinguishable from an absent one. */
  function OrNull(v: Value): Value
  {
    if Truthy(v) then v else Null
  }

  /** Reading the dictionary back recovers the body and every truthy
      optional attribute; exactly the falsy optional ones are lost. */
  lemma AlertDictReadsBack(a: PayloadAlert)
    ensures AlertFromDict(AlertDict(a)) ==
      PayloadAlert(a.body, OrNull(a.actionLocKey), OrNull(a.locKey), OrNull(a.locArgs), OrNull(a.launchImage))
  {
    var d := AlertDict(a);
    assert Lookup(d, "action-loc-key") == OrNull(a.actionLocKey);
    assert Lookup(d, "loc-key") == OrNull(a.locKey);
    assert Lookup(d, "loc-args") == OrNull(a.locArgs);
    assert Lookup(d, "launch-image") == OrNull(a.launchImage);
  }

  // ---------------------------------------------------------------------
  // Payload

  /** The `alert` argument: a `PayloadAlert` instance or any other value
      (usually a string), which is stored as it is. */
  datatype Alert = AlertObject(alert: PayloadAlert) | AlertValue(value: Value)

  /** `bool(self.alert)`: a `PayloadAlert` defines neither `__len__` nor
      `__nonzero__`, so every instance is true. */
  predicate AlertTruthy(a: Alert)
    ensures !AlertTruthy(a) <==>
      a in {AlertValue(Null), AlertValue(Bool(false)), AlertValue(Int(0)),
            AlertValue(Str("")), AlertValue(List([])), AlertValue(Dict(map[]))}
  {
    a.AlertObject? || Truthy(a.value)
  }

  /** What goes under `'alert'`: the nested dictionary of a `PayloadAlert`,
      otherwise the raw value. */
  function AlertEntry(a: Alert): (r: Value)
    ensures a.AlertValue? ==> r == a.value
    ensures a.AlertObject? ==>
      && r.Dict? && r.entries.Keys <= AlertKeys
      && "body" in r.entries && r.entries["body"] == a.alert.body
      && AlertFromDict(r.entries) == AlertFromDict(AlertDict(a.alert))
  {
    match a
    case AlertObject(x) => Dict(AlertDict(x))
    case AlertValue(v) => v
  }

  datatype Payload = Payload(alert: Alert, badge: Value, sound: Value, custom: map<string, Value>)

  /** `len()` of the error is its `size` property, the size it was built with. */
  datatype PayloadTooLargeError = PayloadTooLargeError(size: nat)
  {
    /** The `size` property. */
    function Size(): (r: nat)
      ensures r == size
    {
      size
    }

    /** `__len__`. */
    function Len(): (r: nat)
      ensures r == Size()
    {
      Size()
    }
  }

  /** What building or checking a payload raises: `int(badge)` failing
      (`TypeError` or `ValueError`), or the size check. */
  datatype PayloadError = BadBadge | TooLarge(tooLarge: PayloadTooLargeError)

  /** The inner dictionary `Payload.dict()` stores under `'aps'`. */
  function ApsDict(p: Payload): (r: Result<map<string, Value>, PayloadError>)
    ensures r.Failure? <==> !p.badge.Null? && IntOf(p.badge).None?
    ensures r.Failure? ==> r.error == BadBadge
    ensures r.Success? ==>
      && ("alert" in r.value <==> AlertTruthy(p.alert))
      && ("alert" in r.value ==> r.value["alert"] == AlertEntry(p.alert))
      && OptionalEntry(r.value, "sound", p.sound)
      && ("badge" in r.value <==> !p.badge.Null?)
      && ("badge" in r.value ==> r.value["badge"] == Int(IntOf(p.badge).value))
      && r.value.Keys <= {"alert", "sound", "badge"}
  {
    var d := if AlertTruthy(p.alert) then map["alert" := AlertEntry(p.alert)] else map[];
    var d := PutIfTruthy(d, "sound", p.sound);
    if p.badge.Null? then Success(d)
    else
      match IntOf(p.badge)
      case None => Failure(BadBadge)
      case Some(n) => Success(d["badge" := Int(n)])
  }

  /** `Payload.dict()`: `{'aps': ...}` updated with the custom entries, so
      a custom key, `'aps'` included, wins over the built one. */
  function PayloadDict(p: Payload): (r: Result<map<string, Value>, PayloadError>)
    ensures r.Success? <==> ApsDict(p).Success?
    ensures r.Failure? ==> r.error == BadBadge
    ensures r.Success? ==>
      && r.value.Keys == {"aps"} + p.custom.Keys
      && (forall k :: k in p.custom ==> r.value[k] == p.custom[k])
      && ("aps" !in p.custom ==> r.value["aps"] == Dict(ApsDict(p).value))
  {
    match ApsDict(p)
    case Failure(e) => Failure(e)
    case Success(aps) => Success(map["aps" := Dict(aps)] + p.custom)
  }

  /** `Payload.json()`: the serialised dictionary. */
  function Json(p: Payload, dumps: Value -> seq<byte>): (r: Result<seq<byte>, PayloadError>)
    ensures r.Success? <==> PayloadDict(p).Success?
    ensures r.Failure? ==> r.error == BadBadge
  {
    match PayloadDict(p)
    case Failure(e) => Failure(e)
    case Success(d) => Success(dumps(Dict(d)))
  }

  /** The test in `_check_size`: an error carrying the size when it
      exceeds the limit; exactly 256 bytes is still accepted. */
  function CheckSize(size: nat): (r: Option<PayloadTooLargeError>)
    ensures r.Some? <==> size > MaxPayloadLength
    ensures r.Some? ==> r.value.Size() == size && r.value.Len() == size
  {
    if size > MaxPayloadLength then Some(PayloadTooLargeError(size)) else None
  }

  /** `Payload(alert, badge, sound, custom)`: the attributes are stored,
      then `_check_size` serialises the payload and raises when it is
      longer than 256 bytes. */
  function NewPayload(alert: Alert, badge: Value, sound: Value, custom: map<string, Value>, dumps: Value -> seq<byte>)
    : (r: Result<Payload, PayloadError>)
    ensures r.Success? <==>
      && (badge.Null? || IntOf(badge).Some?)
      && |Json(Payload(alert, badge, sound, custom), dumps).value| <= MaxPayloadLength
    ensures r.Success? ==> r.value == Payload(alert, badge, sound, custom)
    ensures r.Failure? && !badge.Null? && IntOf(badge).None? ==> r.error == BadBadge
    ensures r.Failure? && (badge.Null? || IntOf(badge).Some?) ==>
      var size := |Json(Payload(alert, badge, sound, custom), dumps).value|;
      && r.error.TooLarge?
      && r.error.tooLarge.Size() == size
      && r.error.tooLarge.Len() == size
      && size > MaxPayloadLength
  {
    var p := Payload(alert, badge, sound, custom);
    match Json(p, dumps)
    case Failure(e) => Failure(e)
    case Success(b) =>
      match CheckSize(|b|)
      case Some(e) => Failure(TooLarge(e))
      case None => Success(p)
  }

  /** A badge string without a single decimal digit makes `int(badge)`
      raise, so neither `dict()` nor the constructor succeeds. */
  lemma NonNumericBadgeRejected(alert: Alert, badge: Value, sound: Value, custom: map<string, Value>,
                                dumps: Value -> seq<byte>)
    requires badge.Str? && forall k :: 0 <= k < |badge.s| ==> !IsDigit(badge.s[k])
    ensures PayloadDict(Payload(alert, badge, sound, custom)) == Failure(BadBadge)
    ensures NewPayload(alert, badge, sound, custom, dumps) == Failure(BadBadge)
  {
    ParseIntNeedsDigit(badge.s);
  }

  /** A constructed payload, passed as a dictionary together with a hex
      token to `encode_notifications`, always packs into one frame: the
      size limit keeps the payload length field far below 65536. */
  lemma AcceptedPayloadFrames(alert: Alert, badge: Value, sound: Value, custom: map<string, Value>,
                              token: Value, dumps: Value -> seq<byte>)
    requires NewPayload(alert, badge, sound, custom, dumps).Success?
    requires token.Str? && IsHexText(token.s)
    ensures var p := Payload(alert, badge, sound, custom);
      var json := Json(p, dumps).value;
      var r := EncodeNotifications(token, Dict(PayloadDict(p).value), dumps);
      && r.Some? && r.value.Success?
      && IsFrame(r.value.value, FitTo(TokenBytes(token).value, TokenLength), json)
      && |r.value.value| <= FrameHeaderLength + MaxPayloadLength
  {
  }
}
