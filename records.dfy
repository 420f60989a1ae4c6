/** Model instances as values: the record a `BaseModel` object holds, its construction from
    keyword arguments, `to_dict`, `__str__`, attribute lookup with class-level defaults (the
    `City` kind), `setattr`, and the first half of `save`. The objects themselves, and the
    methods that mutate them, are in module Models. */
module Records {
  import opened Wrappers
  import opened Maps
  import opened Timestamps

  /** A JSON value as `json.load` returns it: a string, or any other JSON value, kept as the
      text `str()` shows for it. */
  datatype Value = Str(s: string) | Json(text: string)

  /** An instance attribute: a plain value, or a `datetime`. */
  datatype Attr = Val(v: Value) | Time(t: DateTime)

  /** `__dict__`: `__init__` always sets `id`, `created_at` and `updated_at` before anything
      else, and no operation removes an attribute. */
  type Dict = m: map<string, Attr> | "id" in m && "created_at" in m && "updated_at" in m
    witness map["id" := Val(Str("")), "created_at" := Time(Moment(1, 1, 1, 0, 0, 0, 0)),
                "updated_at" := Time(Moment(1, 1, 1, 0, 0, 0, 0))]

  /** A model instance: the name of its class and its `__dict__`. */
  datatype Record = Record(kind: string, attrs: Dict)

  /** What `to_dict` returns and `json.dump` writes for one record. */
  type Document = map<string, Value>

  /** The exceptions the modelled code can raise. */
  datatype Error =
    | KeyMissing(key: string)       // KeyError on a dict subscript
    | BadTimestamp                  // strptime raised ValueError (or TypeError on a non-string)
    | UnknownKind                   // eval of the "__class__" value did not give a model class
    | SelfKeyword                   // TypeError: __init__() got multiple values for 'self'
    | NotTimestamp(key: string)     // AttributeError: a string has no isoformat()
    | NotSerializable               // TypeError from json.dump: a datetime it cannot encode
    | DecodeError                   // json.load on a file that a failed save left empty
    | NoTokens                      // IndexError on arg.split()[0]
    | ReadOnlyAttribute(name: string) // setattr on __class__, __dict__ or __weakref__
    | NotCallable(name: string)     // TypeError: an instance attribute of that name hides the method
    | SaveError                     // some to_dict() inside FileStorage.save raised (which one
                                    // depends on dict order)

  /** The model class names: the `classes` table at console1.py:28-30, and the names
      file_storage1.py imports and `eval` resolves (models/engine/file_storage1.py:4-10). */
  const Kinds: set<string> := {"BaseModel", "User", "City", "Place", "Amenity", "Review", "State"}

  /** What `uuid4()` and the two `datetime.now()` calls at the top of `__init__` return. */
  datatype Draw = Draw(id: string, first: DateTime, second: DateTime)

  predicate IsStampKey(k: string) {
    k == "created_at" || k == "updated_at"
  }

  /** The attributes every `__init__` sets first: a new id and two clock readings. */
  function Fresh(kind: string, d: Draw): (r: Record)
    ensures r.kind == kind && r.attrs["id"] == Val(Str(d.id))
    ensures r.attrs["created_at"] == Time(d.first) && r.attrs["updated_at"] == Time(d.second)
  {
    Record(kind, map["id" := Val(Str(d.id)), "created_at" := Time(d.first),
                     "updated_at" := Time(d.second)])
  }

  /** The clock is read twice, so the two stamps of a fresh record agree only when the two
      readings do. */
  lemma FreshStampsAgreeOnlyIfReadingsDo(kind: string, d: Draw)
    ensures Fresh(kind, d).attrs["created_at"] == Fresh(kind, d).attrs["updated_at"]
        <==> d.first == d.second
  {
  }

  // ---------------------------------------------------------------------------
  // Reconstruction from keyword arguments

  /** `strptime` accepts the value given for a timestamp key (or the key is not given). */
  predicate Parses(kwargs: Document, k: string) {
    k !in kwargs || (kwargs[k].Str? && StrPTime(kwargs[k].s).Some?)
  }

  /** The attribute stored for one keyword argument: timestamps parsed, the rest verbatim. */
  function AsAttr(k: string, v: Value): Attr {
    if IsStampKey(k) && v.Str? && StrPTime(v.s).Some? then Time(StrPTime(v.s).value) else Val(v)
  }

  /** The loop of `__init__` over `kwargs.items()`, applied to the record `base` it starts from;
      the record is lost when a timestamp does not parse. */
  function Assigned(base: Record, kwargs: Document): Result<Record, Error> {
    if Parses(kwargs, "created_at") && Parses(kwargs, "updated_at") then
      Ok(Record(base.kind, base.attrs + map k | k in kwargs :: AsAttr(k, kwargs[k])))
    else Err(BadTimestamp)
  }

  /** `Kind(**kwargs)` for non-empty `kwargs`: Python rejects a "self" keyword before the body
      runs; otherwise the fresh defaults are overwritten key by key. */
  function FromKwargs(kind: string, kwargs: Document, d: Draw): (r: Result<Record, Error>)
    ensures r.Ok? <==> "self" !in kwargs && Parses(kwargs, "created_at") && Parses(kwargs, "updated_at")
    ensures r.Err? ==> r.error == if "self" in kwargs then SelfKeyword else BadTimestamp
  {
    if "self" in kwargs then Err(SelfKeyword) else Assigned(Fresh(kind, d), kwargs)
  }

  /** What reconstruction stores: the class is the one called; the keys are the three
      `__init__` always sets plus every keyword; every keyword other than the timestamps is
      copied verbatim (`id` and `__class__` included), the timestamps are parsed; an
      attribute absent from the keywords keeps its fresh value. */
  lemma FromKwargsEntries(kind: string, kwargs: Document, d: Draw)
    requires FromKwargs(kind, kwargs, d).Ok?
    ensures FromKwargs(kind, kwargs, d).value.kind == kind
    ensures FromKwargs(kind, kwargs, d).value.attrs.Keys == {"id", "created_at", "updated_at"} + kwargs.Keys
    ensures forall k :: k in kwargs && !IsStampKey(k) ==> FromKwargs(kind, kwargs, d).value.attrs[k] == Val(kwargs[k])
    ensures forall k :: k in kwargs && IsStampKey(k) ==>
              FromKwargs(kind, kwargs, d).value.attrs[k] == Time(StrPTime(kwargs[k].s).value)
    ensures forall k :: k in Fresh(kind, d).attrs && k !in kwargs ==>
              FromKwargs(kind, kwargs, d).value.attrs[k] == Fresh(kind, d).attrs[k]
  {
  }

  // ---------------------------------------------------------------------------
  // to_dict

  /** Every attribute other than the timestamps and `__class__` is a plain JSON value. */
  predicate PlainRest(r: Record) {
    forall k :: k in r.attrs && !IsStampKey(k) && k != "__class__" ==> r.attrs[k].Val?
  }

  /** The copy of `__dict__` that `to_dict` builds once the timestamps are `c` and `u`. */
  function Encoded(r: Record, c: DateTime, u: DateTime): (doc: Document)
    requires PlainRest(r)
    ensures doc.Keys == r.attrs.Keys + {"__class__"}
    ensures doc["__class__"] == Str(r.kind)
    ensures doc["created_at"] == Str(IsoFormat(c)) && doc["updated_at"] == Str(IsoFormat(u))
    ensures forall k :: k in r.attrs && !IsStampKey(k) && k != "__class__" ==> r.attrs[k] == Val(doc[k])
  {
    map k | k in r.attrs.Keys + {"__class__"} ::
      if k == "__class__" then Str(r.kind)
      else if k == "created_at" then Str(IsoFormat(c))
      else if k == "updated_at" then Str(IsoFormat(u))
      else r.attrs[k].v
  }

  /** `to_dict()` followed by the JSON encoding `save` gives it: a copy of `__dict__` with
      `__class__` set to the class name and both timestamps rendered by `isoformat()`. A
      timestamp attribute that holds a string (after `update`) has no `isoformat`, and an
      instance attribute named `to_dict` hides the method. */
  function ToDict(r: Record): (res: Result<Document, Error>)
    ensures res.Ok? <==> "to_dict" !in r.attrs && r.attrs["created_at"].Time? && r.attrs["updated_at"].Time?
                         && PlainRest(r)
    ensures "to_dict" in r.attrs ==> res == Err(NotCallable("to_dict"))
    ensures "to_dict" !in r.attrs && !r.attrs["created_at"].Time? ==> res == Err(NotTimestamp("created_at"))
    ensures res.Ok? ==> res.value.Keys == r.attrs.Keys + {"__class__"}
    ensures res.Ok? ==> res.value["__class__"] == Str(r.kind)
    ensures res.Ok? ==> res.value["created_at"] == Str(IsoFormat(r.attrs["created_at"].t))
    ensures res.Ok? ==> res.value["updated_at"] == Str(IsoFormat(r.attrs["updated_at"].t))
    ensures res.Ok? ==> forall k :: k in r.attrs && !IsStampKey(k) && k != "__class__" ==>
              r.attrs[k] == Val(res.value[k])
  {
    if "to_dict" in r.attrs then Err(NotCallable("to_dict"))
    else if !r.attrs["created_at"].Time? then Err(NotTimestamp("created_at"))
    else if !r.attrs["updated_at"].Time? then Err(NotTimestamp("updated_at"))
    else if !PlainRest(r) then Err(NotSerializable)
    else Ok(Encoded(r, r.attrs["created_at"].t, r.attrs["updated_at"].t))
  }

  /** The record reconstruction gives back from a document: `__class__` has become an
      instance attribute holding the class name. */
  function WithClassTag(r: Record): Record {
    Record(r.kind, r.attrs["__class__" := Val(Str(r.kind))])
  }

  /** Both timestamps are `datetime`s with a non-zero microsecond, so `isoformat` writes the
      fraction the parse pattern demands. */
  predicate FractionalStamps(r: Record) {
    && r.attrs["created_at"].Time? && r.attrs["created_at"].t.microsecond != 0
    && r.attrs["updated_at"].Time? && r.attrs["updated_at"].t.microsecond != 0
  }

  lemma AsAttrOfToDict(r: Record, doc: Document, k: string)
    requires ToDict(r) == Ok(doc) && FractionalStamps(r) && k in doc
    ensures AsAttr(k, doc[k]) == WithClassTag(r).attrs[k]
  {
    if IsStampKey(k) {
      assert doc[k] == Str(IsoFormat(r.attrs[k].t));
      StrPTimeOfIsoFormat(r.attrs[k].t);
    }
  }

  /** The keyword-argument loop applied to a `to_dict()` document yields the record's own
      attributes plus `__class__`. */
  lemma KwargsMapOfToDict(r: Record, doc: Document)
    requires ToDict(r) == Ok(doc) && FractionalStamps(r)
    ensures (map k | k in doc :: AsAttr(k, doc[k])) == WithClassTag(r).attrs
  {
    var w := WithClassTag(r).attrs;
    var m := map k | k in doc :: AsAttr(k, doc[k]);
    assert doc.Keys == r.attrs.Keys + {"__class__"} == w.Keys;
    forall k | k in doc
      ensures m[k] == w[k]
    {
      AsAttrOfToDict(r, doc, k);
    }
    assert m.Keys == w.Keys;
  }

  /** Tagging a record with `__class__` does not change its `to_dict()`. */
  lemma ToDictOfWithClassTag(r: Record)
    requires ToDict(r).Ok?
    ensures ToDict(WithClassTag(r)) == ToDict(r)
  {
    var w := WithClassTag(r);
    assert w.attrs["created_at"] == r.attrs["created_at"];
    assert w.attrs["updated_at"] == r.attrs["updated_at"];
    assert PlainRest(w);
    var a := ToDict(w).value;
    var b := ToDict(r).value;
    assert a.Keys == b.Keys;
    forall k | k in a
      ensures a[k] == b[k]
    {
      if !IsStampKey(k) && k != "__class__" {
        assert w.attrs[k] == r.attrs[k];
      }
    }
    assert a == b;
  }

  /** Both rendered timestamps of a `to_dict()` document parse again. */
  lemma StampsOfToDictParse(r: Record, doc: Document)
    requires ToDict(r) == Ok(doc) && FractionalStamps(r)
    ensures Parses(doc, "created_at") && Parses(doc, "updated_at")
  {
    StrPTimeOfIsoFormat(r.attrs["created_at"].t);
    StrPTimeOfIsoFormat(r.attrs["updated_at"].t);
  }

  lemma AssignedOfToDict(r: Record, doc: Document, d: Draw)
    requires ToDict(r) == Ok(doc) && FractionalStamps(r)
    ensures Assigned(Fresh(r.kind, d), doc) == Ok(WithClassTag(r))
  {
    var base := Fresh(r.kind, d);
    StampsOfToDictParse(r, doc);
    KwargsMapOfToDict(r, doc);
    assert base.attrs.Keys == {"id", "created_at", "updated_at"};
    assert "id" in doc && "created_at" in doc && "updated_at" in doc;
    AssignedOverwritingAll(base, doc, WithClassTag(r));
  }

  /** When the keywords cover every attribute of `base`, the loop's result is the keyword
      map alone. */
  lemma AssignedOverwritingAll(base: Record, kwargs: Document, w: Record)
    requires Parses(kwargs, "created_at") && Parses(kwargs, "updated_at")
    requires base.kind == w.kind && base.attrs.Keys <= kwargs.Keys
    requires (map k | k in kwargs :: AsAttr(k, kwargs[k])) == w.attrs
    ensures Assigned(base, kwargs) == Ok(w)
  {
    UnionOfCovered(base.attrs, w.attrs);
  }

  /** Round trip: rebuilding a record from its `to_dict()` gives the same attributes, timestamps
      included, plus the `__class__` entry, and serialises to the same document again. */
  lemma FromKwargsOfToDict(r: Record, d: Draw)
    requires ToDict(r).Ok? && FractionalStamps(r) && "self" !in r.attrs
    ensures FromKwargs(r.kind, ToDict(r).value, d) == Ok(WithClassTag(r))
    ensures ToDict(WithClassTag(r)) == ToDict(r)
  {
    var doc := ToDict(r).value;
    assert "self" !in doc;
    AssignedOfToDict(r, doc, d);
    ToDictOfWithClassTag(r);
  }

  /** With a zero microsecond on either timestamp the round trip raises: `isoformat` drops the
      fraction and `.%f` does not match. */
  lemma FromKwargsOfToDictFailsOnZeroMicrosecond(r: Record, d: Draw)
    requires ToDict(r).Ok? && !FractionalStamps(r)
    ensures FromKwargs(r.kind, ToDict(r).value, d) == Err(if "self" in r.attrs then SelfKeyword else BadTimestamp)
  {
    StrPTimeOfIsoFormat(r.attrs["created_at"].t);
    StrPTimeOfIsoFormat(r.attrs["updated_at"].t);
  }

  // ---------------------------------------------------------------------------
  // __str__

  /** `str(value)` for an attribute value (a `datetime` prints with a space separator). */
  function Text(a: Attr): string {
    match a
    case Val(Str(s)) => s
    case Val(Json(t)) => t
    case Time(t) => Render(t, ' ')
  }

  /** What `print(obj)` shows: the header `[<Kind>] (<id>) ` and then the repr of
      `__dict__`, kept here as the map itself. */
  datatype Line = Line(header: string, dict: map<string, Attr>)

  /** `__str__`. */
  function Describe(r: Record): (l: Line)
    ensures l.dict == r.attrs
  {
    Line("[" + r.kind + "] (" + Text(r.attrs["id"]) + ") ", r.attrs)
  }

  /** Position of the first `c` in `s`, or `|s|`. */
  function IndexOf(s: string, c: char): (i: nat)
    ensures i <= |s| && (i < |s| ==> s[i] == c)
    ensures forall j :: 0 <= j < i ==> s[j] != c
  {
    if s == [] || s[0] == c then 0 else 1 + IndexOf(s[1..], c)
  }

  /** Reads the class name and id back out of a `__str__` header. */
  function ReadHeader(h: string): Option<(string, string)> {
    if |h| >= 3 && h[0] == '[' && h[|h| - 2..] == ") " then
      var body := h[1..|h| - 2];
      var i := IndexOf(body, ']');
      if i + 3 <= |body| && body[i..i + 3] == "] (" then Some((body[..i], body[i + 3..]))
      else None
    else None
  }

  /** The first `c` in `head + tail` is the first character of `tail` when `head` has none. */
  lemma {:induction false} IndexOfAfter(head: string, tail: string, c: char)
    requires forall j :: 0 <= j < |head| ==> head[j] != c
    requires tail != [] && tail[0] == c
    ensures IndexOf(head + tail, c) == |head|
    decreases |head|
  {
    if head == [] {
      assert head + tail == tail;
    } else {
      assert (head + tail)[1..] == head[1..] + tail;
      IndexOfAfter(head[1..], tail, c);
    }
  }

  /** The display line identifies its record: the class name and the id can be read back
      from it (for a class name without `]`, as every model class name is). */
  lemma ReadHeaderOfDescribe(r: Record)
    requires forall j :: 0 <= j < |r.kind| ==> r.kind[j] != ']'
    ensures ReadHeader(Describe(r).header) == Some((r.kind, Text(r.attrs["id"])))
  {
    var id := Text(r.attrs["id"]);
    var h := Describe(r).header;
    var tail := "] (" + id;
    var body := r.kind + tail;
    assert h == "[" + body + ") ";
    assert h[1..|h| - 2] == body;
    assert h[|h| - 2..] == ") ";
    IndexOfAfter(r.kind, tail, ']');
    var i := |r.kind|;
    assert body[i..i + 3] == "] (";
    assert body[..i] == r.kind;
    assert body[i + 3..] == id;
  }

  // ---------------------------------------------------------------------------
  // Attribute lookup, class-level defaults, setattr, save

  /** Class attributes: `City` declares `state_id = ""` and `name = ""` at models/city.py:7-8;
      the other kinds contribute none here. */
  function ClassDefaults(kind: string): (m: map<string, Value>)
    ensures kind == "City" ==> m.Keys == {"state_id", "name"}
    ensures kind != "City" ==> m == map[]
    ensures forall k :: k in m ==> m[k] == Str("")
  {
    if kind == "City" then map["state_id" := Str(""), "name" := Str("")] else map[]
  }

  /** What `getattr(obj, name)` finds: an instance attribute, a class-level value, a method
      of the class, or nothing (AttributeError). */
  datatype Lookup = Own(a: Attr) | ClassValue(v: Value) | Method(name: string) | NoAttribute

  /** Names of the form `__x__`, which Python reserves for the object protocol. */
  predicate IsDunder(name: string) {
    |name| >= 4 && name[..2] == "__" && name[|name| - 2..] == "__"
  }

  /** The methods `BaseModel` defines whose names are not dunder names
      (models/base_model.py:68, 81). */
  const Methods: set<string> := {"save", "to_dict"}

  /** `getattr(obj, name)` for a name that is not a data descriptor of the type: the
      instance's `__dict__` wins, then the class attributes (City's defaults), then the
      methods of `BaseModel`, else AttributeError. A dunder name absent from `__dict__`, and
      any absent name on a kind whose class body is not modelled, is outside the model. */
  function GetAttr(r: Record, name: string): (a: Lookup)
    requires !IsReserved(name)
    requires name in r.attrs || (!IsDunder(name) && (r.kind == "BaseModel" || r.kind == "City"))
    ensures name in r.attrs ==> a == Own(r.attrs[name])
    ensures name !in r.attrs && name in ClassDefaults(r.kind) ==> a == ClassValue(ClassDefaults(r.kind)[name])
    ensures name !in r.attrs && name !in ClassDefaults(r.kind) ==> (a.Method? <==> name in Methods)
    ensures a.NoAttribute? <==> name !in r.attrs && name !in ClassDefaults(r.kind) && name !in Methods
  {
    if name in r.attrs then Own(r.attrs[name])
    else if name in ClassDefaults(r.kind) then ClassValue(ClassDefaults(r.kind)[name])
    else if name in Methods then Method(name)
    else NoAttribute
  }

  /** A fresh City reads `name` and `state_id` as "" through its class, yet neither is in
      its `__dict__`, so `to_dict()` carries neither; it is tagged "City". */
  lemma FreshCity(d: Draw)
    ensures GetAttr(Fresh("City", d), "name") == ClassValue(Str(""))
    ensures GetAttr(Fresh("City", d), "state_id") == ClassValue(Str(""))
    ensures ToDict(Fresh("City", d)).Ok?
    ensures "name" !in ToDict(Fresh("City", d)).value && "state_id" !in ToDict(Fresh("City", d)).value
    ensures ToDict(Fresh("City", d)).value["__class__"] == Str("City")
  {
  }

  /** The attribute names `setattr` cannot give a string to on a model instance. */
  predicate IsReserved(name: string) {
    name == "__class__" || name == "__dict__" || name == "__weakref__"
  }

  /** `setattr(obj, name, value)` with a string value. */
  function SetAttr(r: Record, name: string, value: string): (res: Result<Record, Error>)
    ensures res.Err? <==> IsReserved(name)
    ensures res.Ok? ==> res.value.kind == r.kind
    ensures res.Ok? ==> res.value.attrs.Keys == r.attrs.Keys + {name}
    ensures res.Ok? ==> forall k :: k in r.attrs && k != name ==> res.value.attrs[k] == r.attrs[k]
    ensures res.Ok? ==> GetAttr(res.value, name) == Own(Val(Str(value)))
  {
    if IsReserved(name) then Err(ReadOnlyAttribute(name))
    else Ok(Record(r.kind, r.attrs[name := Val(Str(value))]))
  }

  /** The first statement of `save`: `updated_at` becomes the supplied clock reading. */
  function Touch(r: Record, now: DateTime): (t: Record)
    ensures t.kind == r.kind && t.attrs.Keys == r.attrs.Keys
    ensures t.attrs["updated_at"] == Time(now)
    ensures forall k :: k in r.attrs && k != "updated_at" ==> t.attrs[k] == r.attrs[k]
  {
    Record(r.kind, r.attrs["updated_at" := Time(now)])
  }
}
