/**
 * JavaScript values as the route handlers see them: parsed JSON request
 * bodies, document-store records and response bodies.
 *
 * Numbers are integers: the handlers only ever compute whole numbers
 * (counters, durations in seconds, limits), and `NaN` is kept apart because
 * `Math.floor` of an invalid date produces it.
 */
module Json {
  import opened Optional
  import opened JsString

  datatype Value =
    | Undefined
    | Null
    | Bool(b: bool)
    | Num(n: int)
    | NaN
    | Str(s: string)
    | Arr(items: seq<Value>)
    | Obj(fields: map<string, Value>)
      /** the store's `serverTimestamp()` placeholder, resolved by the store */
    | ServerTimestamp

  /** A stored document: its top-level fields. */
  type Record = map<string, Value>

  /** JavaScript truthiness: `undefined`, `null`, `false`, `0`, `NaN` and `""` are falsy. */
  predicate Truthy(v: Value)
  {
    match v
    case Undefined => false
    case Null => false
    case Bool(b) => b
    case Num(n) => n != 0
    case NaN => false
    case Str(s) => s != ""
    case _ => true
  }

  /** `typeof v === 'number'` */
  predicate IsNumber(v: Value)
  {
    v.Num? || v.NaN?
  }

  /** `a || b` */
  function Or(a: Value, b: Value): Value
  {
    if Truthy(a) then a else b
  }

  /** Reading a key of a JSON object: a missing key reads as `undefined`. */
  function Get(m: map<string, Value>, key: string): Value
  {
    if key in m then m[key] else Undefined
  }

  /**
   * Property access `v.key` on any value: `None` when it throws (on
   * `undefined` and `null`), otherwise the property, `undefined` when absent.
   */
  function Member(v: Value, key: string): (r: Option<Value>)
    ensures r.None? <==> (v.Undefined? || v.Null?)
    ensures v.Obj? ==> r == Some(Get(v.fields, key))
  {
    match v
    case Undefined => None
    case Null => None
    case Obj(m) => Some(Get(m, key))
    case _ => Some(Undefined)
  }

  /** `{ id: docId, ...data }`: a later field of `data` named `id` wins. */
  function WithId(docId: string, data: Record): (r: Value)
    ensures r.Obj? && r.fields.Keys == data.Keys + {"id"}
    ensures "id" !in data ==> r.fields["id"] == Str(docId)
    ensures forall k :: k in data ==> r.fields[k] == data[k]
  {
    Obj(map["id" := Str(docId)] + data)
  }

  /** `{ id: doc.id, ...doc.data() }` for each document of a query result, in order. */
  function Listing(ids: seq<string>, docs: map<string, Record>): (items: seq<Value>)
    requires forall i :: 0 <= i < |ids| ==> ids[i] in docs
    ensures |items| == |ids|
    ensures forall i :: 0 <= i < |ids| ==> items[i] == WithId(ids[i], docs[ids[i]])
  {
    if ids == [] then [] else Listing(ids[..|ids| - 1], docs) + [WithId(ids[|ids| - 1], docs[ids[|ids| - 1]])]
  }

  lemma ListingSnoc(ids: seq<string>, id: string, docs: map<string, Record>)
    requires forall i :: 0 <= i < |ids| ==> ids[i] in docs
    requires id in docs
    ensures Listing(ids + [id], docs) == Listing(ids, docs) + [WithId(id, docs[id])]
  {
    assert (ids + [id])[..|ids|] == ids;
  }

  /**
   * The store refuses to write `undefined` anywhere inside a value, and an
   * array directly inside an array.
   */
  predicate Storable(v: Value)
  {
    match v
    case Undefined => false
    case Arr(items) => forall i :: 0 <= i < |items| ==> Storable(items[i]) && !items[i].Arr?
    case Obj(m) => forall k :: k in m ==> Storable(m[k])
    case _ => true
  }

  predicate StorableRecord(r: Record)
  {
    forall k :: k in r ==> Storable(r[k])
  }

  /**
   * Membership as the store compares values (`array-contains`,
   * `arrayUnion`, `arrayRemove`): by contents, maps and arrays included.
   */
  predicate Contains(items: seq<Value>, v: Value)
  {
    v in items
  }

  /** A value JavaScript compares by its contents rather than by identity. */
  predicate Primitive(v: Value)
  {
    !(v.Obj? || v.Arr? || v.ServerTimestamp?)
  }

  /**
   * `items.includes(v)` (SameValueZero) for a `v` parsed from a request: a
   * primitive is found when an equal one is listed (`NaN` finds `NaN`); an
   * object or array from the request is a different object from every
   * entry read from the store, so it is never found.
   */
  predicate Includes(items: seq<Value>, v: Value)
  {
    Primitive(v) && v in items
  }


  /**
   * `v.length`, as a number, for the values a comparison `v.length < n`
   * reads: `None` is `undefined`, which no comparison satisfies.
   */
  function Length(v: Value): (r: Option<int>)
    ensures v.Str? ==> r == Some(Utf16Length(v.s))
    ensures v.Arr? ==> r == Some(|v.items|)
  {
    match v
    case Str(s) => Some(Utf16Length(s))
    case Arr(items) => Some(|items|)
    case Obj(m) =>
      (match Get(m, "length")
       case Num(n) => Some(n)
       case Null => Some(0)
       case Bool(b) => Some(if b then 1 else 0)
       case _ => None)
    case _ => None
  }

  /** `v.length < n` */
  predicate ShorterThan(v: Value, n: int)
  {
    var len := Length(v);
    len.Some? && len.value < n
  }

  /** What `NextResponse.json(body, { status })` sends back. */
  datatype Response = Response(status: int, body: Value)

  /** `NextResponse.json({ error: message }, { status })` */
  function Error(status: int, message: string): Response
  {
    Response(status, Obj(map["error" := Str(message)]))
  }

  /** A 200 response `{ success: true, ...fields }`. */
  function Success(fields: map<string, Value>): Response
  {
    Response(200, Obj(map["success" := Bool(true)] + fields))
  }

  /** A handler's answer together with the collection it leaves behind. */
  datatype Handled = Handled(response: Response, store: map<string, Record>)
}
