/**
 * The entity stores of `src/data/storage.js`. Each store keeps one list of records under its key;
 * the operations read the whole list, change it in memory and write it back. The model keeps the
 * list as the field `items` of an `EntityStore` and leaves out the serialisation round trip.
 */
module Storage {
  import opened Wrappers
  import opened Lists

  /** A stored value, as JSON can hold it. */
  datatype Value = Null | Bool(b: bool) | Num(n: int) | Str(s: string) | Arr(elems: seq<Value>) | Obj(fields: map<string, Value>)

  /** A stored object: its own keys and their values; a missing key reads as `undefined`. */
  type Record = map<string, Value>

  /** JavaScript truthiness of a stored value. */
  predicate Truthy(v: Value) {
    match v
    case Null => false
    case Bool(b) => b
    case Num(n) => n != 0
    case Str(s) => s != ""
    case Arr(_) => true
    case Obj(_) => true
  }

  /** `r[key]`: the value, or none for `undefined`. */
  function Get(r: Record, key: string): Option<Value> {
    if key in r then Some(r[key]) else None
  }

  /** `x => x[key] === v`, where `v` may itself be `undefined`. */
  function FieldIs(key: string, v: Option<Value>): Record -> bool {
    (r: Record) => Get(r, key) == v
  }

  function HasId(id: Option<Value>): Record -> bool {
    FieldIs("id", id)
  }

  function LacksId(id: Option<Value>): Record -> bool {
    (r: Record) => !HasId(id)(r)
  }

  /** `s.findIndex(p)`, with -1 as none. */
  function FindIndex(s: seq<Record>, p: Record -> bool): (r: Option<nat>)
    ensures r.None? <==> forall i :: 0 <= i < |s| ==> !p(s[i])
    ensures r.Some? ==> r.value < |s| && p(s[r.value]) && forall i :: 0 <= i < r.value ==> !p(s[i])
  {
    if s == [] then None
    else if p(s[0]) then Some(0)
    else match FindIndex(s[1..], p)
      case None => None
      case Some(k) => Some(k + 1)
  }

  /** `s.find(p)`: the first record satisfying `p` (`undefined`, or `null` after `|| null`, is none). */
  function Find(s: seq<Record>, p: Record -> bool): (r: Option<Record>)
    ensures r.None? <==> forall i :: 0 <= i < |s| ==> !p(s[i])
    ensures r.Some? ==> exists k :: 0 <= k < |s| && s[k] == r.value && p(s[k]) && forall i :: 0 <= i < k ==> !p(s[i])
  {
    match FindIndex(s, p)
    case None => None
    case Some(k) => Some(s[k])
  }

  /** The six stores. */
  datatype Kind = Users | Cases | Audits | Activities | Notifications | Reports

  /** The stores that stamp `updatedAt` on every update. */
  predicate StampsUpdates(kind: Kind) {
    kind == Cases || kind == Reports
  }

  /** The stores whose `create` adds at the end (`push`); the others add at the front (`unshift`). */
  predicate Appends(kind: Kind) {
    kind == Cases || kind == Audits || kind == Activities
  }

  /** `{ ...base, ...updates }`, followed by a fresh `updatedAt` in the stores that stamp updates. */
  function Updated(kind: Kind, base: Record, updates: Record, now: string): (r: Record)
    ensures forall key :: key in r <==> key in base || key in updates || (StampsUpdates(kind) && key == "updatedAt")
    ensures forall key :: key in updates && !(StampsUpdates(kind) && key == "updatedAt") ==> r[key] == updates[key]
    ensures forall key :: key in base && key !in updates && !(StampsUpdates(kind) && key == "updatedAt") ==> r[key] == base[key]
    ensures StampsUpdates(kind) ==> r["updatedAt"] == Str(now)
  {
    var merged := base + updates;
    if StampsUpdates(kind) then merged["updatedAt" := Str(now)] else merged
  }

  /** `data.key || fallback`. */
  function OrDefault(data: Record, key: string, fallback: Value): (v: Value)
    ensures key in data && Truthy(data[key]) ==> v == data[key]
    ensures !(key in data && Truthy(data[key])) ==> v == fallback
  {
    if key in data && Truthy(data[key]) then data[key] else fallback
  }

  /**
   * The record `create` builds from the caller's data: the data, an id (the caller's if truthy,
   * else the generated one) and the store's defaults, with `now` the current ISO time.
   */
  function NewRecord(kind: Kind, data: Record, generatedId: string, now: string): Record {
    var withId := data["id" := OrDefault(data, "id", Str(generatedId))];
    match kind
    case Cases => withId["createdAt" := OrDefault(data, "createdAt", Str(now))]["updatedAt" := Str(now)]
    case Audits => withId["submittedAt" := OrDefault(data, "submittedAt", Str(now))]
    case Activities => withId["createdAt" := OrDefault(data, "createdAt", Str(now))]
    case Notifications => withId["read" := Bool(false)]["createdAt" := OrDefault(data, "createdAt", Str(now))]
    case Reports => withId["createdAt" := OrDefault(data, "createdAt", Str(now))]["updatedAt" := Str(now)]
    case Users => withId
  }

  /** The keys `create` may set on its own in a store. */
  function DefaultedKeys(kind: Kind): set<string> {
    match kind
    case Cases => {"id", "createdAt", "updatedAt"}
    case Audits => {"id", "submittedAt"}
    case Activities => {"id", "createdAt"}
    case Notifications => {"id", "read", "createdAt"}
    case Reports => {"id", "createdAt", "updatedAt"}
    case Users => {"id"}
  }

  /**
   * A created record keeps every other field of the data, keeps a truthy caller id, and a new
   * notification is unread.
   */
  lemma NewRecordFields(kind: Kind, data: Record, generatedId: string, now: string)
    ensures var r := NewRecord(kind, data, generatedId, now);
      && (forall key :: key in data && key !in DefaultedKeys(kind) ==> key in r && r[key] == data[key])
      && (forall key :: key in r ==> key in data || key in DefaultedKeys(kind))
      && "id" in r && r["id"] == OrDefault(data, "id", Str(generatedId))
      && ("id" in data && Truthy(data["id"]) ==> r["id"] == data["id"])
      && (kind == Notifications ==> "read" in r && r["read"] == Bool(false))
      && (StampsUpdates(kind) ==> r["updatedAt"] == Str(now) && r["createdAt"] == OrDefault(data, "createdAt", Str(now)))
  {
  }

  /** `!n.read`: a missing or falsy `read` flag. */
  function Unread(): Record -> bool {
    (r: Record) => !("read" in r && Truthy(r["read"]))
  }

  /** Every record with `read` set to true. */
  function AllRead(s: seq<Record>): (r: seq<Record>)
    ensures |r| == |s|
  {
    seq(|s|, i requires 0 <= i < |s| => s[i]["read" := Bool(true)])
  }

  /** After marking every notification read, none is unread. */
  lemma AllReadHasNoUnread(s: seq<Record>)
    ensures Count(AllRead(s), Unread()) == 0
  {
    FilterNone(AllRead(s), Unread());
  }

  /** Deleting by id shortens the list exactly when some record had that id. */
  lemma {:induction false} FilterShorter(s: seq<Record>, id: Option<Value>)
    ensures |Filter(s, LacksId(id))| < |s| <==> exists i :: 0 <= i < |s| && HasId(id)(s[i])
  {
    if s != [] {
      FilterShorter(s[1..], id);
      if exists i :: 0 <= i < |s[1..]| && HasId(id)(s[1..][i]) {
        var i :| 0 <= i < |s[1..]| && HasId(id)(s[1..][i]);
        assert s[i + 1] == s[1..][i];
      }
      if i :| 0 <= i < |s| && HasId(id)(s[i]) {
        if i > 0 {
          assert s[1..][i - 1] == s[i];
        }
      }
    }
  }

  /** One store and its list of records. */
  class EntityStore {
    const kind: Kind
    var items: seq<Record>

    /** A store with nothing saved under its key: `getAll()` is `[]`. */
    constructor (kind: Kind)
      ensures this.kind == kind && items == []
    {
      this.kind := kind;
      items := [];
    }

    /** `findById`: the first record with that id. */
    function FindById(id: Option<Value>): Option<Record>
      reads this
    {
      Find(items, HasId(id))
    }

    /** `findByUsername`, `findByCaseId`: the first record whose field has that value. */
    function FindBy(key: string, v: Option<Value>): Option<Record>
      reads this
    {
      Find(items, FieldIs(key, v))
    }

    /** `findByGovernorate`, `findBySpecialistId`: every record whose field has that value, in order. */
    function FilterBy(key: string, v: Option<Value>): seq<Record>
      reads this
    {
      Filter(items, FieldIs(key, v))
    }

    /** `getUnreadCount`. */
    function UnreadCount(): (n: nat)
      reads this
      ensures n <= |items|
    {
      Count(items, Unread())
    }

    /**
     * `update(id, updates)`: the first record with that id becomes its merge with the updates
     * (stamped in cases and reports); no other record changes. With no such record the list stays
     * as it was and the result is none.
     */
    method Update(id: Option<Value>, updates: Record, now: string) returns (r: Option<Record>)
      requires kind != Notifications
      modifies this
      ensures |items| == |old(items)|
      ensures FindIndex(old(items), HasId(id)).None? ==> items == old(items) && r.None?
      ensures FindIndex(old(items), HasId(id)).Some? ==>
        var k := FindIndex(old(items), HasId(id)).value;
        && items == old(items)[k := Updated(kind, old(items)[k], updates, now)]
        && r == Some(items[k])
    {
      var index := FindIndex(items, HasId(id));
      match index {
        case None =>
          r := None;
        case Some(k) =>
          items := items[k := Updated(kind, items[k], updates, now)];
          r := Some(items[k]);
      }
    }

    /** `delete(id)`: keeps the records without that id, and reports whether the list got shorter. */
    method Delete(id: Option<Value>) returns (removed: bool)
      requires kind == Cases || kind == Activities || kind == Reports
      modifies this
      ensures items == Filter(old(items), LacksId(id))
      ensures removed <==> exists i :: 0 <= i < |old(items)| && HasId(id)(old(items)[i])
    {
      var before := items;
      items := Filter(items, LacksId(id));
      FilterShorter(before, id);
      removed := |items| < |before|;
    }

    /**
     * `create(data)`: the new record is added at the end (cases, audits, activities) or at the
     * front (notifications, reports) and returned. The generated id and the current time are
     * parameters.
     */
    method Create(data: Record, generatedId: string, now: string) returns (created: Record)
      requires kind != Users
      modifies this
      ensures created == NewRecord(kind, data, generatedId, now)
      ensures Appends(kind) ==> items == old(items) + [created]
      ensures !Appends(kind) ==> items == [created] + old(items)
    {
      created := NewRecord(kind, data, generatedId, now);
      if Appends(kind) {
        items := items + [created];
      } else {
        items := [created] + items;
      }
    }

    /** `markAsRead(id)`: the first notification with that id gets `read = true`; nothing else changes. */
    method MarkAsRead(id: Option<Value>) returns (r: Option<Record>)
      requires kind == Notifications
      modifies this
      ensures FindIndex(old(items), HasId(id)).None? ==> items == old(items) && r.None?
      ensures FindIndex(old(items), HasId(id)).Some? ==>
        var k := FindIndex(old(items), HasId(id)).value;
        && items == old(items)[k := old(items)[k]["read" := Bool(true)]]
        && r == Some(items[k])
    {
      var index := FindIndex(items, HasId(id));
      match index {
        case None =>
          r := None;
        case Some(k) =>
          items := items[k := items[k]["read" := Bool(true)]];
          r := Some(items[k]);
      }
    }

    /** `markAllAsRead`: one pass setting `read = true` on every notification. */
    method MarkAllAsRead()
      requires kind == Notifications
      modifies this
      ensures items == AllRead(old(items))
      ensures UnreadCount() == 0
    {
      ghost var before := items;
      for i := 0 to |items|
        invariant |items| == |before|
        invariant forall j :: 0 <= j < i ==> items[j] == before[j]["read" := Bool(true)]
        invariant forall j :: i <= j < |items| ==> items[j] == before[j]
      {
        items := items[i := items[i]["read" := Bool(true)]];
      }
      assert items == AllRead(before);
      AllReadHasNoUnread(before);
    }
  }
}
