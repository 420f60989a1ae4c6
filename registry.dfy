/** The value-level logic of `FileStorage` (models/engine/file_storage1.py): the key a record
    is stored under, the document map `save` writes, and the registry `reload` produces from
    a file. The class that holds the live objects is in module Models. */
module Registry {
  import opened Wrappers
  import opened Timestamps
  import opened Records
  import opened Maps

  /** The registry as values: each key with the record its object holds. */
  type Objects = map<string, Record>

  /** What `json.dump` writes: one document per registry key. */
  type Docs = map<string, Document>

  /** The file at `__file_path` as `reload` finds it: absent, holding text `json.load`
      rejects (a `save` that raised after `open(..., 'w')` truncated it), or a document map. */
  datatype StoredFile = Missing | Unreadable | Written(docs: Docs)

  /** Everything the console can change: the registry and the file. */
  datatype Store = Store(objects: Objects, file: StoredFile)

  /** `obj.__class__.__name__ + "." + str(obj.id)`: the key starts with the class name, and
      when that name has no dot, the first dot ends it and the id text follows. */
  function KeyOf(r: Record): (k: string)
    ensures r.kind <= k && |r.kind| < |k| && k[|r.kind|] == '.'
    ensures (forall j :: 0 <= j < |r.kind| ==> r.kind[j] != '.') ==>
              IndexOf(k, '.') == |r.kind| && k[|r.kind| + 1..] == Text(r.attrs["id"])
  {
    KeyParts(r.kind, Text(r.attrs["id"]));
    r.kind + "." + Text(r.attrs["id"])
  }

  lemma KeyParts(kind: string, id: string)
    ensures kind <= kind + "." + id && (kind + "." + id)[|kind|] == '.' && (kind + "." + id)[|kind| + 1..] == id
    ensures (forall j :: 0 <= j < |kind| ==> kind[j] != '.') ==> IndexOf(kind + "." + id, '.') == |kind|
  {
    assert kind + "." + id == kind + ("." + id);
    if forall j :: 0 <= j < |kind| ==> kind[j] != '.' {
      IndexOfAfter(kind, "." + id, '.');
    }
  }

  /** A key names its kind and id unambiguously when the kind has no dot (every model
      class name): two records share a key only if they share kind and id text. */
  lemma KeyOfIdentifies(r1: Record, r2: Record)
    requires forall j :: 0 <= j < |r1.kind| ==> r1.kind[j] != '.'
    requires forall j :: 0 <= j < |r2.kind| ==> r2.kind[j] != '.'
    requires KeyOf(r1) == KeyOf(r2)
    ensures r1.kind == r2.kind && Text(r1.attrs["id"]) == Text(r2.attrs["id"])
  {
    var k := KeyOf(r1);
    assert |r1.kind| == |r2.kind|;
    assert k[..|r1.kind|] == r1.kind;
    assert k[..|r2.kind|] == r2.kind;
  }

  /** Every entry is stored under the key computed from its own class name and id. */
  predicate KeyConsistent(objs: Objects) {
    forall k :: k in objs ==> k == KeyOf(objs[k])
  }

  /** Every registered record has a `to_dict()`. */
  predicate Encodable(objs: Objects) {
    forall k :: k in objs ==> ToDict(objs[k]).Ok?
  }

  /** The comprehension in `save`: `{key: obj.to_dict() for key, obj in objects.items()}`;
      None when some `to_dict()` raises. */
  function Serialize(objs: Objects): (r: Option<Docs>)
    ensures r.Some? <==> forall k :: k in objs ==> ToDict(objs[k]).Ok?
    ensures r.Some? ==> r.value.Keys == objs.Keys
    ensures r.Some? ==> forall k :: k in objs ==> ToDict(objs[k]) == Ok(r.value[k])
  {
    if Encodable(objs) then
      DocumentsAt(objs);
      Some(Documents(objs))
    else None
  }

  /** The document map of an encodable registry. */
  function Documents(objs: Objects): Docs
    requires Encodable(objs)
  {
    map k | k in objs :: ToDict(objs[k]).value
  }

  /** The document map holds each registered record's `to_dict()` under its key. */
  lemma DocumentsAt(objs: Objects)
    requires Encodable(objs)
    ensures Documents(objs).Keys == objs.Keys
    ensures forall k :: k in objs ==> ToDict(objs[k]) == Ok(Documents(objs)[k])
  {
    forall k | k in objs
      ensures ToDict(objs[k]) == Ok(Documents(objs)[k])
    {
      DocumentAt(objs, k);
    }
  }

  lemma DocumentAt(objs: Objects, k: string)
    requires Encodable(objs) && k in objs
    ensures k in Documents(objs) && ToDict(objs[k]) == Ok(Documents(objs)[k])
  {
    var t := ToDict(objs[k]);
    assert t.Ok?;
    assert Documents(objs)[k] == t.value;
  }

  /** The file after `save`: the document map, or a truncated file when a `to_dict()` raised
      (the file is opened for writing before the comprehension runs). */
  function Persisted(objs: Objects): (f: StoredFile)
    ensures f.Written? <==> Serialize(objs).Some?
    ensures f.Written? ==> f.docs == Serialize(objs).value
    ensures f.Unreadable? <==> Serialize(objs).None?
  {
    match Serialize(objs)
    case Some(docs) => Written(docs)
    case None => Unreadable
  }

  /** One entry of `reload`: `eval(value["__class__"])(**value)`. A missing `__class__` is a
      KeyError; a value that does not evaluate to a model class raises; otherwise the record
      is reconstructed from the whole document, `__class__` included. */
  function Rebuild(doc: Document, d: Draw): (r: Result<Record, Error>)
    ensures "__class__" !in doc ==> r == Err(KeyMissing("__class__"))
    ensures "__class__" in doc && !(doc["__class__"].Str? && doc["__class__"].s in Kinds) ==> r == Err(UnknownKind)
    ensures r.Ok? <==> "__class__" in doc && doc["__class__"].Str? && doc["__class__"].s in Kinds
                       && FromKwargs(doc["__class__"].s, doc, d).Ok?
    ensures r.Ok? ==> r.value.kind == doc["__class__"].s && "__class__" in r.value.attrs
                      && r.value.attrs["__class__"] == Val(doc["__class__"])
  {
    if "__class__" !in doc then Err(KeyMissing("__class__"))
    else if !doc["__class__"].Str? || doc["__class__"].s !in Kinds then Err(UnknownKind)
    else
      var r := FromKwargs(doc["__class__"].s, doc, d);
      assert r.Ok? ==> "__class__" in r.value.attrs.Keys;
      r
  }

  /** Every document of the file can be rebuilt. `draws` gives, per key, what `uuid4()` and
      `datetime.now()` return inside that entry's `__init__`. */
  predicate AllRebuild(docs: Docs, draws: string -> Draw) {
    forall k :: k in docs ==> Rebuild(docs[k], draws(k)).Ok?
  }

  /** The registry after a `reload` that raised nothing: unchanged when the file is missing;
      for a document map, each document rebuilt under its own key, merged over `objs`. None
      when `reload` raises (an unreadable file, or an entry that cannot be rebuilt). */
  function Reloaded(objs: Objects, file: StoredFile, draws: string -> Draw): (r: Option<Objects>)
    ensures file.Missing? ==> r == Some(objs)
    ensures file.Unreadable? ==> r.None?
    ensures file.Written? ==> (r.Some? <==> AllRebuild(file.docs, draws))
    ensures r.Some? && file.Written? ==> r.value.Keys == objs.Keys + file.docs.Keys
    ensures r.Some? && file.Written? ==>
              forall k :: k in file.docs ==> Rebuild(file.docs[k], draws(k)) == Ok(r.value[k])
    ensures r.Some? && file.Written? ==>
              forall k :: k in objs && k !in file.docs ==> r.value[k] == objs[k]
  {
    match file
    case Missing => Some(objs)
    case Unreadable => None
    case Written(docs) => if AllRebuild(docs, draws) then Some(Merged(objs, docs, draws)) else None
  }

  /** Every document of the file rebuilt, under the document's own key. */
  function Rebuilt(docs: Docs, draws: string -> Draw): (r: Objects)
    requires AllRebuild(docs, draws)
    ensures r.Keys == docs.Keys
    ensures forall k :: k in docs ==> Rebuild(docs[k], draws(k)) == Ok(r[k])
  {
    map k | k in docs :: Rebuild(docs[k], draws(k)).value
  }

  /** The loop of `reload` run over every key: `objects[key] = obj`, last write wins. */
  function Merged(objs: Objects, docs: Docs, draws: string -> Draw): (r: Objects)
    requires AllRebuild(docs, draws)
    ensures r.Keys == objs.Keys + docs.Keys
    ensures forall k :: k in docs ==> Rebuild(docs[k], draws(k)) == Ok(r[k])
    ensures forall k :: k in objs && k !in docs ==> r[k] == objs[k]
  {
    objs + Rebuilt(docs, draws)
  }

  /** What rebuilding each document of the file gives, key by key. */
  function Results(docs: Docs, draws: string -> Draw): (m: map<string, Result<Record, Error>>)
    ensures m.Keys == docs.Keys
  {
    map k | k in docs :: Rebuild(docs[k], draws(k))
  }

  /** The registry `cur` part-way through the `reload` loop, once the keys in `done` have
      been processed: each of them holds its rebuilt document, every other entry of `objs`
      is as it was, and nothing else is there. */
  predicate PartlyMerged(objs: Objects, results: map<string, Result<Record, Error>>,
                         done: set<string>, cur: Objects) {
    && done <= results.Keys
    && cur.Keys == objs.Keys + done
    && (forall k :: k in done ==> results[k] == Ok(cur[k]))
    && (forall k :: k in objs && k !in done ==> cur[k] == objs[k])
  }

  /** Part-way through the loop no key of the old registry is lost, and an entry the file
      does not mention is as it was. */
  lemma PartlyMergedKeeps(objs: Objects, docs: Docs, draws: string -> Draw,
                          done: set<string>, cur: Objects)
    requires PartlyMerged(objs, Results(docs, draws), done, cur)
    ensures objs.Keys <= cur.Keys
    ensures forall k :: k in objs && k !in docs ==> cur[k] == objs[k]
  {
  }

  /** Storing one more rebuilt document keeps the loop's description true. */
  lemma PartlyMergedStep(objs: Objects, results: map<string, Result<Record, Error>>,
                         done: set<string>, cur: Objects, key: string)
    requires PartlyMerged(objs, results, done, cur)
    requires key in results && results[key].Ok?
    ensures PartlyMerged(objs, results, done + {key}, cur[key := results[key].value])
  {
    var next := cur[key := results[key].value];
    assert next.Keys == objs.Keys + (done + {key});
  }

  /** A loop stopped part-way leaves only old entries and rebuilt documents. */
  lemma PartlyMergedEntries(objs: Objects, docs: Docs, draws: string -> Draw,
                            done: set<string>, cur: Objects)
    requires PartlyMerged(objs, Results(docs, draws), done, cur)
    ensures forall k :: k in cur ==>
              (k in objs && cur[k] == objs[k]) || (k in docs && Rebuild(docs[k], draws(k)) == Ok(cur[k]))
  {
    forall k | k in cur && !(k in objs && cur[k] == objs[k])
      ensures k in docs && Rebuild(docs[k], draws(k)) == Ok(cur[k])
    {
      assert k in done;
      assert Results(docs, draws)[k] == Rebuild(docs[k], draws(k));
    }
  }

  /** A registry that agrees with `Merged` key by key is `Merged`. */
  lemma MergedByEntries(objs: Objects, docs: Docs, draws: string -> Draw, r: Objects)
    requires AllRebuild(docs, draws)
    requires r.Keys == objs.Keys + docs.Keys
    requires forall k :: k in docs ==> Rebuild(docs[k], draws(k)) == Ok(r[k])
    requires forall k :: k in objs && k !in docs ==> r[k] == objs[k]
    ensures r == Merged(objs, docs, draws)
  {
    var fromFile := Rebuilt(docs, draws);
    forall k | k in docs
      ensures r[k] == fromFile[k]
    {
      var e := Rebuild(docs[k], draws(k));
      assert e == Ok(r[k]) && e == Ok(fromFile[k]);
    }
    UnionByEntries(objs, fromFile, r);
  }

  /** Once every key has been processed, the registry is what `Reloaded` describes. */
  lemma PartlyMergedDone(objs: Objects, docs: Docs, draws: string -> Draw, cur: Objects)
    requires PartlyMerged(objs, Results(docs, draws), docs.Keys, cur)
    ensures AllRebuild(docs, draws)
    ensures Reloaded(objs, Written(docs), draws) == Some(cur)
  {
    RebuiltEverywhere(objs, docs, draws, cur);
    MergedByEntries(objs, docs, draws, cur);
    ReloadedWritten(objs, docs, draws);
  }

  lemma ReloadedWritten(objs: Objects, docs: Docs, draws: string -> Draw)
    requires AllRebuild(docs, draws)
    ensures Reloaded(objs, Written(docs), draws) == Some(Merged(objs, docs, draws))
  {
  }

  lemma RebuiltEverywhere(objs: Objects, docs: Docs, draws: string -> Draw, cur: Objects)
    requires PartlyMerged(objs, Results(docs, draws), docs.Keys, cur)
    ensures forall k :: k in docs ==> Rebuild(docs[k], draws(k)) == Ok(cur[k])
  {
    forall k | k in docs
      ensures Rebuild(docs[k], draws(k)) == Ok(cur[k])
    {
      assert Results(docs, draws)[k] == Rebuild(docs[k], draws(k));
    }
  }

  /** What `save` can write and `reload` can rebuild exactly: every record is of a model
      class, has no "self" attribute, and both timestamps carry a non-zero microsecond. */
  predicate Reloadable(objs: Objects) {
    forall k :: k in objs ==> objs[k].kind in Kinds && FractionalStamps(objs[k]) && "self" !in objs[k].attrs
  }

  lemma RebuildOfToDict(r: Record, d: Draw)
    requires ToDict(r).Ok? && r.kind in Kinds && FractionalStamps(r) && "self" !in r.attrs
    ensures Rebuild(ToDict(r).value, d) == Ok(WithClassTag(r))
  {
    FromKwargsOfToDict(r, d);
  }

  /** Saving and then reloading gives back every saved key, each reconstructed record
      serialising to exactly the saved document; entries only in memory survive the merge. */
  lemma SaveThenReload(live: Objects, objs: Objects, draws: string -> Draw)
    requires Serialize(objs).Some? && Reloadable(objs)
    ensures Reloaded(live, Persisted(objs), draws).Some?
    ensures Reloaded(live, Persisted(objs), draws).value.Keys == live.Keys + objs.Keys
    ensures forall k :: k in objs ==>
              Reloaded(live, Persisted(objs), draws).value[k] == WithClassTag(objs[k])
    ensures forall k :: k in objs ==>
              ToDict(Reloaded(live, Persisted(objs), draws).value[k]) == Ok(Serialize(objs).value[k])
  {
    var docs := Serialize(objs).value;
    forall k | k in docs
      ensures Rebuild(docs[k], draws(k)) == Ok(WithClassTag(objs[k]))
    {
      RebuildOfToDict(objs[k], draws(k));
    }
    assert AllRebuild(docs, draws);
    var r := Reloaded(live, Persisted(objs), draws).value;
    forall k | k in objs
      ensures r[k] == WithClassTag(objs[k]) && ToDict(r[k]) == Ok(docs[k])
    {
      FromKwargsOfToDict(objs[k], draws(k));
    }
  }

  /** A record with a zero microsecond in a timestamp makes the reload of its own save
      raise. */
  lemma SaveThenReloadFailsOnZeroMicrosecond(live: Objects, objs: Objects, draws: string -> Draw, k: string)
    requires Serialize(objs).Some? && k in objs && !FractionalStamps(objs[k])
    ensures Reloaded(live, Persisted(objs), draws).None?
  {
    var doc := Serialize(objs).value[k];
    assert doc == ToDict(objs[k]).value;
    FromKwargsOfToDictFailsOnZeroMicrosecond(objs[k], draws(k));
    assert Rebuild(doc, draws(k)).Err?;
  }
}
