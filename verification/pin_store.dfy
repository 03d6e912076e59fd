/**
 * The pin store client's pure parts: turning a stored row into an
 * application pin (`to_read` becomes `toRead`, missing collections get
 * defaults), turning a pin into the update it sends (keyed by id, `toRead`
 * written back as `to_read`), and folding the per-pin update outcomes of a
 * batch save into one verdict.  The service itself is a parameter: what a
 * query returns, and whether each update failed.
 */
module PinStore {

  import opened Basics
  import opened JsValue

  /** A row of the `pins` table, with storage-side field names. */
  type Row = Object

  /** Fields copied from a row unchanged, besides the id. */
  const Scalars: set<string> := {"name", "lat", "lng", "title", "intro"}

  /** List fields stored under the same name on both sides; they default to an empty array. */
  const Lists: set<string> := {"questions", "writing", "read"}

  /** The fields with the same name in a row and in a pin, besides the id. */
  const Shared: set<string> := Scalars + Lists + {"music"}

  /** Every field of a pin built from a row. */
  const PinKeys: set<string> := {"id"} + Shared + {"toRead"}

  /** The fields an update writes; the id only selects the row. */
  const PayloadKeys: set<string> := Shared + {"to_read"}

  /** The field names are distinct where the mapping relies on it. */
  lemma KeysDistinct()
    ensures "id" !in Shared && "toRead" !in Shared && "to_read" !in Shared
    ensures Scalars !! Lists && "music" !in Scalars + Lists
  {
  }

  /** What a select on the table gives back. */
  datatype FetchResponse = FetchFailed | Rows(rows: seq<Row>)

  /**
   * One row mapped to an app pin (the object built inside `fetchPins`):
   * `to_read` is renamed `toRead`, and a falsy list or music field is
   * replaced by an empty array or object.
   */
  function RowToPin(row: Row): (p: Pin)
    ensures p.Keys == PinKeys
    ensures p["id"] == Get(row, "id")
    ensures forall k :: k in Scalars ==> p[k] == Get(row, k)
    ensures forall k :: k in Lists && Truthy(Get(row, k)) ==> p[k] == Get(row, k)
    ensures forall k :: k in Lists && !Truthy(Get(row, k)) ==> p[k] == Arr([])
    ensures Truthy(Get(row, "to_read")) ==> p["toRead"] == Get(row, "to_read")
    ensures !Truthy(Get(row, "to_read")) ==> p["toRead"] == Arr([])
    ensures Truthy(Get(row, "music")) ==> p["music"] == Get(row, "music")
    ensures !Truthy(Get(row, "music")) ==> p["music"] == Obj(map[])
  {
    KeysDistinct();
    map k | k in PinKeys ::
      if k in Lists then Or(Get(row, k), Arr([]))
      else if k == "toRead" then Or(Get(row, "to_read"), Arr([]))
      else if k == "music" then Or(Get(row, k), Obj(map[]))
      else Get(row, k)
  }

  /** fetchPins: None on an error, otherwise every row mapped, in the order returned. */
  function FetchPins(response: FetchResponse): (r: Option<seq<Pin>>)
    ensures r.None? <==> response.FetchFailed?
    ensures r.Some? ==> |r.value| == |response.rows|
    ensures r.Some? ==> forall i :: 0 <= i < |r.value| ==> r.value[i] == RowToPin(response.rows[i])
  {
    match response
    case FetchFailed => None
    case Rows(rows) => Some(seq(|rows|, i requires 0 <= i < |rows| => RowToPin(rows[i])))
  }

  /**
   * What the callers do with a fetch: `if (pins) setPins(pins)`.  A failed
   * fetch keeps the pins already shown; a successful one replaces them,
   * even with an empty list, since an empty array is truthy.
   */
  function LoadPins(shown: seq<Pin>, response: FetchResponse): (r: seq<Pin>)
    ensures response.FetchFailed? ==> r == shown
    ensures response.Rows? ==> |r| == |response.rows|
    ensures response.Rows? ==> forall i :: 0 <= i < |r| ==> r[i] == RowToPin(response.rows[i])
  {
    var fetched := FetchPins(response);
    if fetched.Some? then fetched.value else shown
  }

  /** An update request: the id to filter on and the fields to write. */
  datatype UpdateRequest = UpdateRequest(filterId: Value, payload: Row)

  /**
   * The request `updatePin` sends for one pin: every pin field but the id,
   * with `toRead` written as `to_read`, and the id as the row filter.
   */
  function UpdatePin(pin: Pin): (r: UpdateRequest)
    ensures r.filterId == Get(pin, "id")
    ensures r.payload.Keys == PayloadKeys && "id" !in r.payload && "toRead" !in r.payload
    ensures r.payload["to_read"] == Get(pin, "toRead")
    ensures forall k :: k in Shared ==> r.payload[k] == Get(pin, k)
  {
    KeysDistinct();
    UpdateRequest(Get(pin, "id"),
      map k | k in PayloadKeys :: if k == "to_read" then Get(pin, "toRead") else Get(pin, k))
  }

  /**
   * How the table applies an update to a row: each written field replaces
   * the stored one.  Fields whose value is `undefined` are dropped when
   * the request is serialised, so they leave the stored value alone.
   */
  function ApplyUpdate(row: Row, payload: Row): (r: Row)
    ensures forall k :: k in payload && payload[k] != Undefined ==> k in r && r[k] == payload[k]
    ensures forall k :: k in row && !(k in payload && payload[k] != Undefined) ==> k in r && r[k] == row[k]
    ensures r.Keys <= row.Keys + payload.Keys
  {
    map k | k in row.Keys + payload.Keys && (k in row || payload[k] != Undefined) ::
      if k in payload && payload[k] != Undefined then payload[k] else row[k]
  }

  /**
   * A value JSON carries unchanged: no `undefined` anywhere inside it.
   * Serialisation writes an `undefined` array element (a hole) as `null`
   * and drops an object property whose value is `undefined`.
   */
  predicate JsonExact(v: Value)
    decreases v
  {
    match v
    case Undefined => false
    case Arr(elems) => forall i :: 0 <= i < |elems| ==> JsonExact(elems[i])
    case Obj(fields) => forall k :: k in fields ==> JsonExact(fields[k])
    case _ => true
  }

  /**
   * A pin the mapping can reproduce: exactly the pin fields, none of them
   * holding `undefined` at any depth, and the lists and music present
   * (truthy).
   */
  predicate Storable(pin: Pin) {
    && pin.Keys == PinKeys
    && (forall k :: k in pin ==> JsonExact(pin[k]))
    && (forall k :: k in Lists ==> Truthy(pin[k]))
    && Truthy(pin["toRead"])
    && Truthy(pin["music"])
  }

  /**
   * Writing a pin over its row and reading the row back gives the same pin:
   * the only difference between the two sides is the name of `to_read`.
   */
  lemma WriteThenRead(pin: Pin, row: Row)
    requires Storable(pin)
    requires Get(row, "id") == pin["id"]
    ensures RowToPin(ApplyUpdate(row, UpdatePin(pin).payload)) == pin
  {
    KeysDistinct();
    var payload := UpdatePin(pin).payload;
    var stored := ApplyUpdate(row, payload);
    var back := RowToPin(stored);
    forall k | k in PinKeys ensures back[k] == pin[k] {
      if k == "id" {
        assert "id" !in payload;
      } else if k == "toRead" {
        assert Get(stored, "to_read") == pin["toRead"];
      } else {
        assert k in Shared && Get(stored, k) == pin[k];
      }
    }
  }

  /** A row the mapping reads without substituting a default. */
  predicate Complete(row: Row) {
    && (forall k :: k in PayloadKeys ==> k in row && row[k] != Undefined)
    && (forall k :: k in Lists ==> Truthy(row[k]))
    && Truthy(row["to_read"])
    && Truthy(row["music"])
  }

  /**
   * Reading a complete row and saving the pin unchanged writes back exactly
   * the row's own values, filtered on its id.
   */
  lemma ReadThenWrite(row: Row)
    requires Complete(row)
    ensures UpdatePin(RowToPin(row)).filterId == Get(row, "id")
    ensures UpdatePin(RowToPin(row)).payload == map k | k in PayloadKeys :: row[k]
  {
    KeysDistinct();
    var pin := RowToPin(row);
    var payload := UpdatePin(pin).payload;
    forall k | k in PayloadKeys ensures payload[k] == row[k] {
      if k != "to_read" {
        assert k in Shared;
      }
    }
  }

  /** `results.every(r => r === true)`. */
  function Every(results: seq<bool>): (r: bool)
    ensures r <==> forall i :: 0 <= i < |results| ==> results[i]
    decreases |results|
  {
    if results == [] then true
    else
      assert forall i :: 1 <= i < |results| ==> results[i] == results[1..][i - 1];
      results[0] && Every(results[1..])
  }

  /** A batch save: the requests sent, and the verdict `updateAllPins` returns. */
  datatype BatchSave = BatchSave(requests: seq<UpdateRequest>, ok: bool)

  /**
   * updateAllPins: one update per pin, in order; `failed[i]` is the
   * service's answer to the i-th.  The save succeeds iff no update failed.
   */
  function UpdateAllPins(pins: seq<Pin>, failed: seq<bool>): (r: BatchSave)
    requires |failed| == |pins|
    ensures |r.requests| == |pins|
    ensures forall i :: 0 <= i < |pins| ==> r.requests[i] == UpdatePin(pins[i])
    ensures r.ok <==> forall i :: 0 <= i < |failed| ==> !failed[i]
  {
    var results := seq(|failed|, i requires 0 <= i < |failed| => !failed[i]);
    assert forall i :: 0 <= i < |failed| ==> results[i] == !failed[i];
    BatchSave(seq(|pins|, i requires 0 <= i < |pins| => UpdatePin(pins[i])), Every(results))
  }
}
