/** The handlers of `HBNBCommand` (console1.py) run against the live `FileStorage`: each
    one leaves the storage and prints what the corresponding function of module Commands
    says. `do_destroy` removes the entry from the dictionary `all()` hands out, and
    `do_update` changes the registered instance itself. */
module Console {
  import opened Wrappers
  import opened Timestamps
  import opened PyText
  import opened Records
  import opened Registry
  import opened Commands
  import opened Models

  /** `do_create` as written. */
  method DoCreate(st: FileStorage, arg: string, d: Draw, now: DateTime) returns (reply: Reply)
    requires st.Valid()
    modifies st
    ensures st.Valid()
    ensures Outcome(reply, st.State()) == Create(arg, old(st.State()), d, now)
  {
    KindsAreWords();
    if |arg| == 0 {
      return Say(ClassMissing);
    }
    var t := Split(arg);
    if |t| != 1 {
      return Silent;
    }
    if arg !in Kinds {
      return Say(NoClass);
    }
    reply := Build(st, arg, d, now);
  }

  /** `new = Kind()` as written, `new.save()`, `print(new.id)`: `__init__` raises unless
      the fresh key is already registered, and `save` stamps the unregistered instance. */
  method Build(st: FileStorage, kind: string, d: Draw, now: DateTime) returns (reply: Reply)
    requires st.Valid()
    modifies st
    ensures st.Valid()
    ensures KeyOf(Fresh(kind, d)) !in old(st.objects) ==>
              Outcome(reply, st.State()) == Outcome(Crash(KeyMissing(KeyOf(Fresh(kind, d)))), old(st.State()))
    ensures KeyOf(Fresh(kind, d)) in old(st.objects) ==>
              Outcome(reply, st.State()) == Saved(old(st.Snapshot()), Say(d.id))
  {
    ghost var before := st.State();
    var res := BaseModel.Init(st, kind, map[], d);
    assert st.State() == before;
    if res.Err? {
      return Crash(res.error);
    }
    var m := res.value;
    assert m !in st.objects.Values;
    var ok := m.Save(st, now);
    assert st.Snapshot() == before.objects;
    ghost var o := Saved(before.objects, Say(d.id));
    assert st.State() == o.store;
    if !ok {
      return Crash(SaveError);
    }
    return Say(Text(m.attrs["id"]));
  }

  /** `do_create` with `storage.new` registering the instance. */
  method DoCreateIntended(st: FileStorage, arg: string, d: Draw, now: DateTime) returns (reply: Reply)
    requires st.Valid()
    modifies st
    ensures st.Valid()
    ensures Outcome(reply, st.State()) == CreateIntended(arg, old(st.State()), d, now)
  {
    KindsAreWords();
    if |arg| == 0 {
      return Say(ClassMissing);
    }
    var t := Split(arg);
    if |t| != 1 {
      return Silent;
    }
    if arg !in Kinds {
      return Say(NoClass);
    }
    reply := Register(st, arg, d, now);
  }

  /** `new = Kind()` with the intended `new`, `new.save()`, `print(new.id)`. */
  method Register(st: FileStorage, kind: string, d: Draw, now: DateTime) returns (reply: Reply)
    requires st.Valid()
    modifies st
    ensures st.Valid()
    ensures Outcome(reply, st.State())
              == Saved(old(st.Snapshot())[KeyOf(Fresh(kind, d)) := Touch(Fresh(kind, d), now)], Say(d.id))
  {
    ghost var before := st.Snapshot();
    ghost var made := Fresh(kind, d);
    ghost var after := before[KeyOf(made) := Touch(made, now)];
    var m := BaseModel.InitIntended(st, kind, d);
    var key := KeyOf(m.View());
    assert st.Snapshot() == before[key := made];
    var id := Text(m.attrs["id"]);
    assert id == d.id;
    var ok := SaveEntry(st, key, now);
    assert st.Snapshot() == after;
    SavedAfter(after, st.file, ok, Say(d.id));
    reply := if ok then Say(id) else Crash(SaveError);
    assert st.State() == Store(after, st.file);
  }

  /** `obj.save()` for the instance registered under `key`: only that entry of the
      registry view changes. */
  method SaveEntry(st: FileStorage, key: string, now: DateTime) returns (ok: bool)
    requires st.Valid() && key in st.objects
    modifies st, st.objects[key]
    ensures st.Valid() && st.objects == old(st.objects)
    ensures st.Snapshot() == old(st.Snapshot())[key := Touch(old(st.Snapshot())[key], now)]
    ensures st.file == Persisted(st.Snapshot())
    ensures ok <==> st.file.Written?
  {
    var m := st.objects[key];
    ghost var was := st.Snapshot();
    ok := m.Save(st, now);
    ghost var want := was[key := m.View()];
    forall k | k in st.objects
      ensures st.Snapshot()[k] == want[k]
    {
      if k != key {
        assert st.objects[k] != m;
      }
    }
    assert st.Snapshot().Keys == want.Keys;
  }

  /** `do_show` */
  method DoShow(st: FileStorage, arg: string) returns (reply: Reply)
    ensures reply == Show(arg, st.State()).reply
  {
    if |arg| == 0 {
      return Say(ClassMissing);
    }
    var t := Split(arg);
    if |t| == 0 {
      return Crash(NoTokens);
    }
    if t[0] !in Kinds {
      return Say(NoClass);
    }
    if |t| > 1 {
      var key := KeyFor(t);
      var all := st.All();
      if key in all {
        return Display(Describe(all[key].View()));
      }
      return Say(NoInstance);
    }
    return Say(IdMissing);
  }

  /** `do_destroy`: the entry is popped from the dictionary `all()` returns, which is the
      registry itself, and the registry saved. */
  method DoDestroy(st: FileStorage, arg: string, evaluable: string -> bool) returns (reply: Reply)
    requires st.Valid()
    modifies st
    ensures st.Valid()
    ensures Outcome(reply, st.State()) == Destroy(arg, old(st.State()), evaluable)
  {
    if |arg| == 0 {
      return Say(ClassMissing);
    }
    var t := Split(arg);
    if |t| == 0 || !evaluable(t[0]) {
      return Say(NoClass);
    }
    if |t| == 1 {
      return Say(IdMissing);
    }
    var key := KeyFor(t);
    var all := st.All();
    if key !in all {
      return Say(NoInstance);
    }
    assert st.State().objects == old(st.State()).objects;
    reply := Remove(st, key);
  }

  /** `storage.all().pop(key)` and `storage.save()`. */
  method Remove(st: FileStorage, key: string) returns (reply: Reply)
    requires st.Valid() && key in st.objects
    modifies st
    ensures st.Valid()
    ensures Outcome(reply, st.State()) == Saved(old(st.Snapshot()) - {key}, Silent)
  {
    ghost var want := st.Snapshot() - {key};
    st.Pop(key);
    var ok := st.Save();
    ghost var o := Saved(want, Silent);
    assert st.State() == o.store;
    if !ok {
      return Crash(SaveError);
    }
    return Silent;
  }

  /** `do_all` */
  method DoAll(st: FileStorage, arg: string) returns (reply: Reply)
    ensures reply == All(arg, st.State()).reply
  {
    var all := st.All();
    if |arg| == 0 {
      return Listing(map k | k in all :: Describe(all[k].View()));
    }
    if arg !in Kinds {
      return Say(NoClass);
    }
    return Listing(map k | k in all && Contains(k, arg) :: Describe(all[k].View()));
  }

  /** `do_update`: after the checks, `setattr` and `save` act on the registered instance. */
  method DoUpdate(st: FileStorage, arg: string, now: DateTime) returns (reply: Reply)
    requires st.Valid()
    modifies st, st.objects.Values
    ensures st.Valid()
    ensures Outcome(reply, st.State()) == Update(arg, old(st.State()), now)
  {
    var t := Split(arg);
    var check := UpdateCheck(t, st.objects.Keys);
    if check.Some? {
      return Say(check.value);
    }
    reply := Change(st, KeyFor(t), t[2], Inner(t[3]), now);
  }

  /** `setattr(storage.all()[key], name, value)` and `storage.all()[key].save()`. */
  method Change(st: FileStorage, key: string, name: string, value: string, now: DateTime)
    returns (reply: Reply)
    requires st.Valid() && key in st.objects
    modifies st, st.objects.Values
    ensures st.Valid()
    ensures Outcome(reply, st.State()) == Apply(key, name, value, old(st.State()), now)
  {
    ghost var s0 := st.State();
    var err := SetEntry(st, key, name, value);
    if err.Some? {
      assert st.State() == s0;
      return Crash(err.value);
    }
    ghost var r := SetAttr(s0.objects[key], name, value).value;
    ghost var mid := st.Snapshot();
    assert mid == s0.objects[key := r];
    if "save" in st.objects[key].attrs {
      assert st.State() == Store(s0.objects[key := r], s0.file);
      return Crash(NotCallable("save"));
    }
    ghost var touched := Touch(r, now);
    var ok := SaveEntry(st, key, now);
    assert st.Snapshot() == mid[key := touched];
    assert mid[key := touched] == s0.objects[key := touched];
    ghost var o := Saved(s0.objects[key := touched], Silent);
    assert Apply(key, name, value, s0, now) == o;
    assert st.State() == o.store;
    if !ok {
      return Crash(SaveError);
    }
    return Silent;
  }

  /** `setattr(obj, name, value)` for the instance registered under `key`. */
  method SetEntry(st: FileStorage, key: string, name: string, value: string) returns (err: Option<Error>)
    requires st.Valid() && key in st.objects
    modifies st.objects[key]
    ensures st.Valid() && st.objects == old(st.objects)
    ensures err.None? <==> SetAttr(old(st.Snapshot())[key], name, value).Ok?
    ensures err.Some? ==> Err(err.value) == SetAttr(old(st.Snapshot())[key], name, value)
                          && st.Snapshot() == old(st.Snapshot())
    ensures err.None? ==> st.Snapshot() == old(st.Snapshot())[key := SetAttr(old(st.Snapshot())[key], name, value).value]
  {
    var m := st.objects[key];
    ghost var was := st.Snapshot();
    err := m.SetAttribute(name, value);
    ghost var want := was[key := m.View()];
    forall k | k in st.objects
      ensures st.Snapshot()[k] == want[k]
    {
      if k != key {
        assert st.objects[k] != m;
      }
    }
    assert st.Snapshot().Keys == want.Keys;
  }

  /** `do_quit` and `do_EOF` */
  method DoQuit(st: FileStorage) returns (reply: Reply)
    ensures reply == Quit(st.State()).reply
  {
    return Exit;
  }
}
