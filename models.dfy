/** The objects of models/base_model.py and models/engine/file_storage1.py: a `BaseModel`
    instance whose `__dict__` its methods update in place, and the `FileStorage` registry
    that maps keys to those live instances and writes them to a file. The two classes call
    each other (`__init__` calls `storage.new`, `save` calls `storage.save`, `reload`
    constructs instances), so they share one module. */
module Models {
  import opened Wrappers
  import opened Maps
  import opened Timestamps
  import opened Records
  import opened Registry

  class BaseModel {
    /** `self.__class__.__name__`: the class the instance was made from. */
    const kind: string
    /** `self.__dict__` */
    var attrs: Dict

    function View(): Record
      reads this
    {
      Record(kind, attrs)
    }

    /** The first three statements of `__init__`: a new id and two clock readings. */
    constructor (kind: string, d: Draw)
      ensures View() == Fresh(kind, d)
    {
      this.kind := kind;
      attrs := Fresh(kind, d).attrs;
    }

    /** The `kwargs` loop of `__init__`: every entry written into `__dict__`, the two
        timestamp keys through `strptime`. When a timestamp raises, its key is returned and
        the half-built instance is never seen again. */
    method Assign(kwargs: Document) returns (failed: Option<string>)
      modifies this
      ensures failed.None? <==> Assigned(old(View()), kwargs).Ok?
      ensures failed.None? ==> View() == Assigned(old(View()), kwargs).value
      ensures failed.Some? ==> failed.value in kwargs && IsStampKey(failed.value) && !Parses(kwargs, failed.value)
    {
      var todo := kwargs.Keys;
      ghost var done: set<string> := {};
      ghost var written := map k | k in kwargs :: AsAttr(k, kwargs[k]);
      while todo != {}
        invariant todo + done == kwargs.Keys && todo !! done
        invariant attrs.Keys == old(attrs).Keys + done
        invariant forall k :: k in done ==> attrs[k] == written[k]
        invariant forall k :: k in old(attrs) && k !in done ==> attrs[k] == old(attrs)[k]
        invariant forall k :: k in done && IsStampKey(k) ==> Parses(kwargs, k)
        decreases todo
      {
        var k :| k in todo;
        var stored := Write(k, kwargs[k]);
        if !stored {
          assert !Parses(kwargs, k);
          return Some(k);
        }
        todo, done := todo - {k}, done + {k};
      }
      assert IsStampKey("created_at") && IsStampKey("updated_at");
      UnionByEntries(old(attrs), written, attrs);
      return None;
    }

    /** One entry of the `kwargs` loop: a direct store into `self.__dict__` (so no name is
        refused), through `strptime` for the two timestamp keys. False, with nothing
        written, when `strptime` raises. */
    method Write(k: string, v: Value) returns (ok: bool)
      modifies this
      ensures ok <==> !IsStampKey(k) || (v.Str? && StrPTime(v.s).Some?)
      ensures ok ==> attrs == old(attrs)[k := AsAttr(k, v)]
      ensures !ok ==> attrs == old(attrs)
    {
      if IsStampKey(k) {
        if !v.Str? || StrPTime(v.s).None? {
          return false;
        }
        attrs := attrs[k := Time(StrPTime(v.s).value)];
      } else {
        attrs := attrs[k := Val(v)];
      }
      return true;
    }

    /** `Kind(**kwargs)` for a model class: a "self" keyword is refused before the body
        runs; without keywords the fresh instance is passed to `storage.new`, which as
        written raises unless its key is already registered; with keywords the instance is
        rebuilt from them and `storage.new` is not called. */
    static method Init(st: FileStorage, kind: string, kwargs: Document, d: Draw)
      returns (res: Result<BaseModel, Error>)
      ensures res.Ok? ==> fresh(res.value)
      ensures kwargs != map[] ==> (res.Ok? <==> FromKwargs(kind, kwargs, d).Ok?)
      ensures kwargs != map[] && res.Ok? ==> res.value.View() == FromKwargs(kind, kwargs, d).value
      ensures kwargs != map[] && res.Err? ==> res.error == FromKwargs(kind, kwargs, d).error
      ensures kwargs == map[] ==> (res.Ok? <==> KeyOf(Fresh(kind, d)) in st.objects)
      ensures kwargs == map[] && res.Ok? ==> res.value.View() == Fresh(kind, d)
      ensures kwargs == map[] && res.Err? ==> res.error == KeyMissing(KeyOf(Fresh(kind, d)))
    {
      if "self" in kwargs {
        return Err(SelfKeyword);
      }
      var m := new BaseModel(kind, d);
      if kwargs != map[] {
        var failed := m.Assign(kwargs);
        if failed.Some? {
          return Err(BadTimestamp);
        }
        return Ok(m);
      }
      var found := st.New(m);
      if found.Err? {
        return Err(found.error);
      }
      return Ok(m);
    }

    /** `Kind()` with `new` doing what its documentation says: the fresh instance is
        registered under its key. */
    static method InitIntended(st: FileStorage, kind: string, d: Draw) returns (m: BaseModel)
      requires st.Valid()
      modifies st
      ensures fresh(m) && m.View() == Fresh(kind, d)
      ensures st.Valid() && st.file == old(st.file)
      ensures st.objects == old(st.objects)[KeyOf(Fresh(kind, d)) := m]
      ensures st.Snapshot() == old(st.Snapshot())[KeyOf(Fresh(kind, d)) := Fresh(kind, d)]
    {
      m := new BaseModel(kind, d);
      st.NewIntended(m);
    }

    /** `setattr(self, name, value)` for a string value. */
    method SetAttribute(name: string, value: string) returns (err: Option<Error>)
      modifies this
      ensures err.None? <==> SetAttr(old(View()), name, value).Ok?
      ensures err.Some? ==> Err(err.value) == SetAttr(old(View()), name, value) && View() == old(View())
      ensures err.None? ==> View() == SetAttr(old(View()), name, value).value
    {
      if IsReserved(name) {
        return Some(ReadOnlyAttribute(name));
      }
      attrs := attrs[name := Val(Str(value))];
      return None;
    }

    /** `save`: `updated_at` becomes the clock reading `now`, then the whole registry is
        written. Nothing else in this instance changes. */
    method Save(st: FileStorage, now: DateTime) returns (ok: bool)
      modifies this, st
      ensures View() == Touch(old(View()), now)
      ensures st.objects == old(st.objects)
      ensures st.file == Persisted(st.Snapshot())
      ensures ok <==> st.file.Written?
    {
      attrs := Touch(View(), now).attrs;
      ok := st.Save();
    }
  }

  class FileStorage {
    /** `__objects` */
    var objects: map<string, BaseModel>
    /** The contents of `__file_path`. */
    var file: StoredFile

    /** No instance is registered under two keys: each entry of `reload` and of `new` is a
        newly built instance. */
    predicate Valid()
      reads this
    {
      forall j, k :: j in objects && k in objects && j != k ==> objects[j] != objects[k]
    }

    /** The registry as values. */
    function Snapshot(): Objects
      reads this`objects, objects.Values
    {
      map k | k in objects :: objects[k].View()
    }

    function State(): Store
      reads this, objects.Values
    {
      Store(Snapshot(), file)
    }

    /** The storage at start-up: no registered objects, and whatever file is on disk. */
    constructor (file: StoredFile)
      ensures Valid() && objects == map[] && this.file == file
    {
      objects := map[];
      this.file := file;
    }

    /** `all()`: the registry itself, not a copy, so that a caller can remove entries from
        it (as `do_destroy` does). */
    method All() returns (r: map<string, BaseModel>)
      ensures r == objects
    {
      r := objects;
    }

    /** `new(obj)` as written: it reads the entry at the instance's key and changes
        nothing, raising KeyError when the key is absent. */
    method New(m: BaseModel) returns (r: Result<BaseModel, Error>)
      ensures r.Ok? <==> KeyOf(m.View()) in objects
      ensures r.Ok? ==> r.value == objects[KeyOf(m.View())]
      ensures r.Err? ==> r.error == KeyMissing(KeyOf(m.View()))
    {
      var key := KeyOf(m.View());
      if key !in objects {
        return Err(KeyMissing(key));
      }
      return Ok(objects[key]);
    }

    /** `new(obj)` as its documentation describes it: the instance is stored under its key. */
    method NewIntended(m: BaseModel)
      requires Valid() && m !in objects.Values
      modifies this`objects
      ensures Valid()
      ensures objects == old(objects)[KeyOf(m.View()) := m]
      ensures Snapshot() == old(Snapshot())[KeyOf(m.View()) := m.View()]
    {
      Put(KeyOf(m.View()), m);
    }

    /** `save()`: the file holds every registered record's `to_dict()`, or is left
        truncated when one of them raises. The registry is not changed. */
    method Save() returns (ok: bool)
      modifies this`file
      ensures file == Persisted(Snapshot())
      ensures ok <==> Serialize(Snapshot()).Some?
    {
      var snap := Snapshot();
      file := Persisted(snap);
      assert Snapshot() == snap;
      ok := file.Written?;
    }

    /** `reload()`: a missing file leaves the registry as it is; otherwise every document is
        rebuilt and stored under the document's own key, replacing any entry there. An
        exception (an unreadable file, an entry that cannot be rebuilt) ends the loop where
        it happens: the entries stored so far stay. `draws(key)` is what `uuid4()` and
        `datetime.now()` return inside that entry's `__init__`. */
    method Reload(draws: string -> Draw) returns (err: Option<Error>)
      requires Valid()
      modifies this`objects
      ensures Valid()
      ensures err.None? <==> Reloaded(old(Snapshot()), file, draws).Some?
      ensures err.None? ==> Snapshot() == Reloaded(old(Snapshot()), file, draws).value
      ensures err.Some? && file.Unreadable? ==> err.value == DecodeError
      ensures err.Some? && file.Written? ==>
                exists k :: k in file.docs && Rebuild(file.docs[k], draws(k)) == Err(err.value)
      ensures err.Some? && file.Written? ==> forall k :: k in Snapshot() ==>
                (k in old(Snapshot()) && Snapshot()[k] == old(Snapshot())[k])
                || (k in file.docs && Rebuild(file.docs[k], draws(k)) == Ok(Snapshot()[k]))
      ensures err.Some? && file.Written? ==> old(Snapshot()).Keys <= Snapshot().Keys
      ensures err.Some? && file.Written? ==> forall k :: k in old(Snapshot()) && k !in file.docs ==>
                Snapshot()[k] == old(Snapshot())[k]
      ensures file.Unreadable? ==> Snapshot() == old(Snapshot())
    {
      if file.Missing? {
        return None;
      }
      if file.Unreadable? {
        return Some(DecodeError);
      }
      ghost var before := Snapshot();
      var docs := file.docs;
      ghost var done;
      err, done := LoadAll(docs, draws);
      if err.Some? {
        var k :| k in docs && Results(docs, draws)[k] == Err(err.value);
        assert Rebuild(docs[k], draws(k)) == Err(err.value);
        PartlyMergedEntries(before, docs, draws, done, Snapshot());
        PartlyMergedKeeps(before, docs, draws, done, Snapshot());
      } else {
        PartlyMergedDone(before, docs, draws, Snapshot());
      }
    }

    /** The loop of `reload` over the entries of a document map. It stops at the first entry
        that cannot be rebuilt; `done` is the set of keys stored before that. */
    method LoadAll(docs: Docs, draws: string -> Draw) returns (err: Option<Error>, ghost done: set<string>)
      requires Valid()
      modifies this`objects
      ensures Valid()
      ensures PartlyMerged(old(Snapshot()), Results(docs, draws), done, Snapshot())
      ensures err.None? ==> done == docs.Keys
      ensures err.Some? ==> exists k :: k in docs && Results(docs, draws)[k] == Err(err.value)
    {
      var todo := docs.Keys;
      done := {};
      ghost var results := Results(docs, draws);
      while todo != {}
        invariant todo + done == docs.Keys && todo !! done
        invariant Valid()
        invariant PartlyMerged(old(Snapshot()), results, done, Snapshot())
        decreases todo
      {
        var key :| key in todo;
        ghost var cur := Snapshot();
        err := Load(key, docs[key], draws(key));
        assert results[key] == Rebuild(docs[key], draws(key));
        if err.Some? {
          return;
        }
        PartlyMergedStep(old(Snapshot()), results, done, cur, key);
        todo, done := todo - {key}, done + {key};
      }
      return None, done;
    }

    /** One iteration of the `reload` loop: `obj = eval(value["__class__"])(**value)` and
        `self.__objects[key] = obj`. Nothing is stored when the entry cannot be rebuilt. */
    method Load(key: string, doc: Document, d: Draw) returns (err: Option<Error>)
      requires Valid()
      modifies this`objects
      ensures Valid()
      ensures err.None? <==> Rebuild(doc, d).Ok?
      ensures err.Some? ==> Rebuild(doc, d) == Err(err.value) && Snapshot() == old(Snapshot())
      ensures err.None? ==> Snapshot() == old(Snapshot())[key := Rebuild(doc, d).value]
    {
      if "__class__" !in doc {
        return Some(KeyMissing("__class__"));
      }
      if !doc["__class__"].Str? || doc["__class__"].s !in Kinds {
        return Some(UnknownKind);
      }
      var res := BaseModel.Init(this, doc["__class__"].s, doc, d);
      if res.Err? {
        return Some(res.error);
      }
      Put(key, res.value);
      return None;
    }

    /** `pop(key)` on the dictionary `all()` hands out, which is `__objects` itself. */
    method Pop(key: string)
      requires Valid() && key in objects
      modifies this`objects
      ensures Valid()
      ensures objects == old(objects) - {key}
      ensures Snapshot() == old(Snapshot()) - {key}
    {
      ghost var want := Snapshot() - {key};
      objects := objects - {key};
      assert Snapshot().Keys == want.Keys;
    }

    /** `self.__objects[key] = obj` for a newly built instance. */
    method Put(key: string, m: BaseModel)
      requires Valid() && m !in objects.Values
      modifies this`objects
      ensures Valid()
      ensures objects == old(objects)[key := m]
      ensures Snapshot() == old(Snapshot())[key := m.View()]
    {
      objects := objects[key := m];
    }
  }
}
