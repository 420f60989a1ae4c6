/** The handlers of `HBNBCommand` (console1.py) as functions from the argument text and
    the store to what the handler prints and the store it leaves. Each handler's checks run
    in the source's order; an exception that escapes a handler is a `Crash`. */
module Commands {
  import opened Wrappers
  import opened Timestamps
  import opened PyText
  import opened Records
  import opened Registry

  const ClassMissing := "** class name missing **"
  const NoClass := "** class doesn't exist **"
  const IdMissing := "** instance id missing **"
  const NoInstance := "** no instance found **"
  const AttrMissing := "** attribute name missing **"
  const ValueMissing := "** value missing **"

  /** What a handler does at the terminal. */
  datatype Reply =
    | Say(text: string)                  // print(text)
    | Display(line: Line)                // print(obj)
    | Listing(lines: map<string, Line>)  // print([str(obj) ...]), each line with its key
    | Silent                             // nothing printed
    | Crash(error: Error)                // an exception escapes the handler
    | Exit                               // the handler returns True and the loop ends

  datatype Outcome = Outcome(reply: Reply, store: Store)

  /** `storage.save()` once the registry has become `objs`, then `reply`; a raising
      `save` leaves the file truncated and the exception escapes. */
  function Saved(objs: Objects, reply: Reply): (o: Outcome)
    ensures o.store == Store(objs, Persisted(objs))
    ensures o.reply == if Serialize(objs).Some? then reply else Crash(SaveError)
  {
    var f := Persisted(objs);
    Outcome(if f.Written? then reply else Crash(SaveError), Store(objs, f))
  }

  /** A save whose file and success flag are known has the outcome `Saved` describes. */
  lemma SavedAfter(objs: Objects, file: StoredFile, ok: bool, reply: Reply)
    requires file == Persisted(objs) && (ok <==> file.Written?)
    ensures Saved(objs, reply) == Outcome(if ok then reply else Crash(SaveError), Store(objs, file))
  {
  }

  /** "<class>.<id>" from the first two tokens. */
  function KeyFor(t: seq<string>): string
    requires |t| >= 2
  {
    t[0] + "." + t[1]
  }

  /** Made of ASCII letters only. */
  predicate Letters(c: string) {
    forall i :: 0 <= i < |c| ==> 'A' <= c[i] <= 'Z' || 'a' <= c[i] <= 'z'
  }

  /** A non-empty run of letters is one token. */
  lemma LettersAreWord(c: string)
    requires c != [] && Letters(c)
    ensures Split(c) == [c]
  {
    assert IsWord(c);
    SplitOfWordThen(c, []);
    assert c + [] == c;
  }

  /** Every class name is a single token. */
  lemma KindsAreWords()
    ensures forall c :: c in Kinds ==> c != "" && Split(c) == [c]
  {
    KindsAreLetters();
    forall c | c in Kinds
      ensures Split(c) == [c]
    {
      LettersAreWord(c);
    }
  }

  lemma KindsAreLetters()
    ensures forall c :: c in Kinds ==> c != [] && Letters(c)
  {
    assert Letters("BaseModel") && Letters("User") && Letters("City") && Letters("Place");
    assert Letters("Amenity") && Letters("Review") && Letters("State");
  }

  // ---------------------------------------------------------------------------
  // create

  /** `do_create` as written: `new = Kind()` calls `storage.new`, which raises KeyError unless
      the fresh key is already registered; only then do `new.save()` (which writes the
      registry, not holding `new`) and `print(new.id)` run. The class test uses the raw
      argument, so a class name with surrounding blanks does not exist. `d` is the uuid and
      clock readings of `__init__`; `now` is the reading in `save`. */
  function Create(arg: string, s: Store, d: Draw, now: DateTime): (o: Outcome)
    ensures o.store.objects == s.objects
    ensures arg == "" ==> o == Outcome(Say(ClassMissing), s)
    ensures arg != "" && |Split(arg)| != 1 ==> o == Outcome(Silent, s)
    ensures arg != "" && |Split(arg)| == 1 && arg !in Kinds ==> o == Outcome(Say(NoClass), s)
    ensures arg in Kinds && KeyOf(Fresh(arg, d)) !in s.objects ==>
              o == Outcome(Crash(KeyMissing(KeyOf(Fresh(arg, d)))), s)
    ensures arg in Kinds && KeyOf(Fresh(arg, d)) in s.objects ==> o == Saved(s.objects, Say(d.id))
  {
    KindsAreWords();
    if arg == "" then Outcome(Say(ClassMissing), s)
    else if |Split(arg)| != 1 then Outcome(Silent, s)
    else if arg !in Kinds then Outcome(Say(NoClass), s)
    else
      var key := KeyOf(Fresh(arg, d));
      if key !in s.objects then Outcome(Crash(KeyMissing(key)), s)
      else Saved(s.objects, Say(d.id))
  }

  /** As written, `create` of a known class with a new id (every uuid4 id, in practice)
      raises and changes nothing. */
  lemma CreateCrashesOnNewId(arg: string, s: Store, d: Draw, now: DateTime)
    requires arg in Kinds && KeyOf(Fresh(arg, d)) !in s.objects
    ensures Create(arg, s, d, now).reply.Crash? && Create(arg, s, d, now).store == s
  {
    KindsAreWords();
  }

  /** `do_create` with `new` storing the fresh instance: it is registered, stamped by
      `save`, written to the file with the rest, and its id printed. */
  function CreateIntended(arg: string, s: Store, d: Draw, now: DateTime): (o: Outcome)
    ensures arg == "" ==> o == Outcome(Say(ClassMissing), s)
    ensures arg != "" && |Split(arg)| != 1 ==> o == Outcome(Silent, s)
    ensures arg !in Kinds ==> o.store == s
    ensures arg != "" && |Split(arg)| == 1 && arg !in Kinds ==> o == Outcome(Say(NoClass), s)
    ensures arg in Kinds ==>
              o == Saved(s.objects[KeyOf(Fresh(arg, d)) := Touch(Fresh(arg, d), now)], Say(d.id))
  {
    KindsAreWords();
    if arg == "" then Outcome(Say(ClassMissing), s)
    else if |Split(arg)| != 1 then Outcome(Silent, s)
    else if arg !in Kinds then Outcome(Say(NoClass), s)
    else
      var r := Fresh(arg, d);
      Saved(s.objects[KeyOf(r) := Touch(r, now)], Say(d.id))
  }

  // ---------------------------------------------------------------------------
  // show

  /** `do_show`: class missing, class doesn't exist, no instance found or the record,
      id missing, in that order. A blank argument has no first token: IndexError. */
  function Show(arg: string, s: Store): (o: Outcome)
    ensures o.store == s
    ensures o.reply.Display? <==> arg != "" && |Split(arg)| >= 2 && Split(arg)[0] in Kinds
                                  && KeyFor(Split(arg)) in s.objects
    ensures o.reply.Display? ==> o.reply.line == Describe(s.objects[KeyFor(Split(arg))])
    ensures o.reply == Say(ClassMissing) <==> arg == ""
    ensures o.reply == Crash(NoTokens) <==> arg != "" && AllSpace(arg)
    ensures o.reply == Say(NoClass) <==> !AllSpace(arg) && Split(arg)[0] !in Kinds
    ensures o.reply == Say(IdMissing) <==> |Split(arg)| == 1 && Split(arg)[0] in Kinds
    ensures o.reply == Say(NoInstance) <==> |Split(arg)| >= 2 && Split(arg)[0] in Kinds
                                            && KeyFor(Split(arg)) !in s.objects
  {
    if arg == "" then Outcome(Say(ClassMissing), s)
    else
      var t := Split(arg);
      if t == [] then Outcome(Crash(NoTokens), s)
      else if t[0] !in Kinds then Outcome(Say(NoClass), s)
      else if |t| > 1 then
        if KeyFor(t) in s.objects then Outcome(Display(Describe(s.objects[KeyFor(t)])), s)
        else Outcome(Say(NoInstance), s)
      else Outcome(Say(IdMissing), s)
  }

  // ---------------------------------------------------------------------------
  // destroy

  /** `do_destroy`. The class test is `eval(arg_list[0])` inside `try ... except
      Exception`, so any evaluable first token passes and a blank argument (no first
      token) reads as a class that does not exist. `evaluable` tells which names `eval`
      accepts. A present key is removed from the registry and the registry saved. */
  function Destroy(arg: string, s: Store, evaluable: string -> bool): (o: Outcome)
    ensures arg == "" ==> o == Outcome(Say(ClassMissing), s)
    ensures o.reply == Say(ClassMissing) <==> arg == ""
    ensures o.reply == Say(NoClass) <==> arg != "" && (AllSpace(arg) || !evaluable(Split(arg)[0]))
    ensures o.reply == Say(IdMissing) <==> |Split(arg)| == 1 && evaluable(Split(arg)[0])
    ensures o.store != s ==> o.reply.Silent? || o.reply == Crash(SaveError)
    ensures o.reply.Silent? || o.reply == Crash(SaveError) <==>
              !AllSpace(arg) && evaluable(Split(arg)[0]) && |Split(arg)| >= 2 && KeyFor(Split(arg)) in s.objects
    ensures |Split(arg)| >= 2 && KeyFor(Split(arg)) in s.objects && evaluable(Split(arg)[0]) ==>
              o == Saved(s.objects - {KeyFor(Split(arg))}, Silent)
    ensures o.reply == Say(NoInstance) <==> |Split(arg)| >= 2 && evaluable(Split(arg)[0])
                                            && KeyFor(Split(arg)) !in s.objects
  {
    if arg == "" then Outcome(Say(ClassMissing), s)
    else
      var t := Split(arg);
      if t == [] || !evaluable(t[0]) then Outcome(Say(NoClass), s)
      else if |t| == 1 then Outcome(Say(IdMissing), s)
      else if KeyFor(t) in s.objects then Saved(s.objects - {KeyFor(t)}, Silent)
      else Outcome(Say(NoInstance), s)
  }

  /** After a destroy that removed a key, showing the same arguments finds no instance;
      every other entry is as it was. */
  lemma DestroyThenShow(arg: string, s: Store, evaluable: string -> bool)
    requires |Split(arg)| >= 2 && Split(arg)[0] in Kinds && evaluable(Split(arg)[0])
    requires KeyFor(Split(arg)) in s.objects
    ensures Show(arg, Destroy(arg, s, evaluable).store).reply == Say(NoInstance)
    ensures forall k :: k in s.objects && k != KeyFor(Split(arg)) ==>
              k in Destroy(arg, s, evaluable).store.objects
              && Destroy(arg, s, evaluable).store.objects[k] == s.objects[k]
  {
  }

  // ---------------------------------------------------------------------------
  // all

  /** `do_all`: every record; or, for a known class, the records whose KEY contains the
      class name as a substring; the argument itself is not split. */
  function All(arg: string, s: Store): (o: Outcome)
    ensures o.store == s
    ensures arg == "" ==> o.reply.Listing? && o.reply.lines.Keys == s.objects.Keys
    ensures arg != "" && arg !in Kinds ==> o.reply == Say(NoClass)
    ensures arg in Kinds ==> o.reply.Listing?
    ensures arg in Kinds ==> forall k :: k in s.objects ==> (k in o.reply.lines <==> Contains(k, arg))
    ensures o.reply.Listing? ==> o.reply.lines.Keys <= s.objects.Keys
    ensures o.reply.Listing? ==> forall k :: k in o.reply.lines ==> o.reply.lines[k] == Describe(s.objects[k])
  {
    if arg == "" then Outcome(Listing(map k | k in s.objects :: Describe(s.objects[k])), s)
    else if arg !in Kinds then Outcome(Say(NoClass), s)
    else Outcome(Listing(map k | k in s.objects && Contains(k, arg) :: Describe(s.objects[k])), s)
  }

  /** With every entry under its own key, `all <Kind>` lists every record of that kind. */
  lemma AllListsEveryRecordOfKind(c: string, s: Store)
    requires c in Kinds && KeyConsistent(s.objects)
    ensures forall k :: k in s.objects && s.objects[k].kind == c ==> k in All(c, s).reply.lines
  {
    var o := All(c, s);
    forall k | k in s.objects && s.objects[k].kind == c
      ensures k in o.reply.lines
    {
      assert k == KeyOf(s.objects[k]);
      KeyContainsKind(s.objects[k]);
    }
  }

  /** A record's key contains its class name. */
  lemma KeyContainsKind(r: Record)
    ensures Contains(KeyOf(r), r.kind)
  {
    assert r.kind <= KeyOf(r);
  }

  /** A witness, not a general property: the filter is a substring test on the key, so a
      `BaseModel` stored under the key "BaseModel.City" is listed by `all City`. */
  lemma AllListsOtherKindsByKey(s: Store, r: Record)
    requires s.objects == map["BaseModel.City" := r]
    ensures "BaseModel.City" in All("City", s).reply.lines
  {
    var key := "BaseModel.City";
    assert OccursAt(key, "City", 10);
    ContainsIffOccurs(key, "City");
  }

  // ---------------------------------------------------------------------------
  // update

  /** The checks of `do_update` on the tokens, in order: the message of the first that
      fails, or None when the command goes ahead. The key test precedes the two count
      tests. */
  function UpdateCheck(t: seq<string>, keys: set<string>): (m: Option<string>)
    ensures m == Some(ClassMissing) <==> |t| == 0
    ensures m == Some(NoClass) <==> |t| >= 1 && t[0] !in Kinds
    ensures m == Some(IdMissing) <==> |t| == 1 && t[0] in Kinds
    ensures m == Some(NoInstance) <==> |t| >= 2 && t[0] in Kinds && KeyFor(t) !in keys
    ensures m == Some(AttrMissing) <==> |t| == 2 && t[0] in Kinds && KeyFor(t) in keys
    ensures m == Some(ValueMissing) <==> |t| == 3 && t[0] in Kinds && KeyFor(t) in keys
    ensures m.None? <==> |t| >= 4 && t[0] in Kinds && KeyFor(t) in keys
  {
    if |t| == 0 then Some(ClassMissing)
    else if t[0] !in Kinds then Some(NoClass)
    else if |t| == 1 then Some(IdMissing)
    else if KeyFor(t) !in keys then Some(NoInstance)
    else if |t| == 2 then Some(AttrMissing)
    else if |t| == 3 then Some(ValueMissing)
    else None
  }

  /** The last two statements of `do_update` on the entry at `key`: `setattr` (raising
      on a read-only name before any change), then `save`, which raises when an instance
      attribute named `save` hides the method and otherwise stamps the record and writes
      the registry. The instance is the registered one, so the change is in the registry. */
  function Apply(key: string, name: string, value: string, s: Store, now: DateTime): (o: Outcome)
    requires key in s.objects
    ensures o.store.objects.Keys == s.objects.Keys
    ensures forall k :: k in s.objects && k != key ==> o.store.objects[k] == s.objects[k]
    ensures IsReserved(name) ==> o == Outcome(Crash(ReadOnlyAttribute(name)), s)
    ensures !IsReserved(name) && name != "save" && "save" !in s.objects[key].attrs ==>
              o == Saved(s.objects[key := Touch(SetAttr(s.objects[key], name, value).value, now)], Silent)
    ensures !IsReserved(name) && (name == "save" || "save" in s.objects[key].attrs) ==>
              o == Outcome(Crash(NotCallable("save")),
                           Store(s.objects[key := SetAttr(s.objects[key], name, value).value], s.file))
  {
    match SetAttr(s.objects[key], name, value)
    case Err(e) => Outcome(Crash(e), s)
    case Ok(r) =>
      if "save" in r.attrs then Outcome(Crash(NotCallable("save")), Store(s.objects[key := r], s.file))
      else Saved(s.objects[key := Touch(r, now)], Silent)
  }

  /** `do_update`: the checks, then `setattr(obj, t[2], t[3][1:-1])` and `obj.save()`. */
  function Update(arg: string, s: Store, now: DateTime): (o: Outcome)
    ensures UpdateCheck(Split(arg), s.objects.Keys).Some? ==>
              o == Outcome(Say(UpdateCheck(Split(arg), s.objects.Keys).value), s)
    ensures UpdateCheck(Split(arg), s.objects.Keys).None? ==>
              o == Apply(KeyFor(Split(arg)), Split(arg)[2], Inner(Split(arg)[3]), s, now)
  {
    var t := Split(arg);
    match UpdateCheck(t, s.objects.Keys)
    case Some(msg) => Outcome(Say(msg), s)
    case None => Apply(KeyFor(t), t[2], Inner(t[3]), s, now)
  }

  /** The fourth token without its first and last character, whatever they are, is what
      `setattr` receives; afterwards `save` stamps `updated_at`. */
  function Updated(r: Record, t: seq<string>, now: DateTime): Record
    requires |t| >= 4 && !IsReserved(t[2])
  {
    Touch(SetAttr(r, t[2], Inner(t[3])).value, now)
  }

  /** A successful update is visible to `show` at the same class and id: the attribute holds
      the stripped value (unless it is `updated_at`, which `save` then overwrites), and the
      record was written to the file. */
  lemma UpdateThenShow(arg: string, s: Store, now: DateTime)
    requires |Split(arg)| >= 4 && Split(arg)[0] in Kinds && KeyFor(Split(arg)) in s.objects
    requires !IsReserved(Split(arg)[2]) && Split(arg)[2] != "save"
    requires "save" !in s.objects[KeyFor(Split(arg))].attrs
    ensures Update(arg, s, now).store.objects[KeyFor(Split(arg))]
              == Updated(s.objects[KeyFor(Split(arg))], Split(arg), now)
    ensures Update(arg, s, now).store.file == Persisted(Update(arg, s, now).store.objects)
    ensures Split(arg)[2] != "updated_at" ==>
              GetAttr(Update(arg, s, now).store.objects[KeyFor(Split(arg))], Split(arg)[2])
                == Own(Val(Str(Inner(Split(arg)[3]))))
    ensures Show(Join(Split(arg)[..2]), Update(arg, s, now).store).reply
              == Display(Describe(Updated(s.objects[KeyFor(Split(arg))], Split(arg), now)))
  {
    var t := Split(arg);
    var ws := t[..2];
    assert ws == [t[0], t[1]];
    SplitJoin(ws);
  }

  /** An update keeps every entry under its own key, unless it sets `id`. */
  lemma UpdateKeepsKeys(arg: string, s: Store, now: DateTime)
    requires KeyConsistent(s.objects)
    requires |Split(arg)| >= 3 ==> Split(arg)[2] != "id"
    ensures KeyConsistent(Update(arg, s, now).store.objects)
  {
    var t := Split(arg);
    if UpdateCheck(t, s.objects.Keys).None? {
      var key := KeyFor(t);
      var r := s.objects[key];
      match SetAttr(r, t[2], Inner(t[3]))
      case Err(_) =>
      case Ok(r') =>
        assert r'.attrs["id"] == r.attrs["id"];
        if "save" in r'.attrs {
          KeyConsistentReplace(s.objects, key, r');
        } else {
          KeyConsistentReplace(s.objects, key, Touch(r', now));
        }
    }
  }

  /** Replacing an entry by a record of the same class and id keeps every key consistent. */
  lemma KeyConsistentReplace(objs: Objects, key: string, r: Record)
    requires KeyConsistent(objs) && key in objs
    requires r.kind == objs[key].kind && r.attrs["id"] == objs[key].attrs["id"]
    ensures KeyConsistent(objs[key := r])
  {
    assert KeyOf(r) == KeyOf(objs[key]);
  }

  /** Updating `id` to another value leaves the record under its old key. */
  lemma UpdateOfIdBreaksKeys(arg: string, s: Store, now: DateTime)
    requires |Split(arg)| >= 4 && Split(arg)[0] in Kinds && KeyFor(Split(arg)) in s.objects
    requires s.objects[KeyFor(Split(arg))].kind == Split(arg)[0]
    requires "save" !in s.objects[KeyFor(Split(arg))].attrs
    requires Split(arg)[2] == "id" && Inner(Split(arg)[3]) != Split(arg)[1]
    ensures !KeyConsistent(Update(arg, s, now).store.objects)
  {
    var t := Split(arg);
    var key := KeyFor(t);
    var o := Update(arg, s, now);
    assert o == Apply(key, "id", Inner(t[3]), s, now);
    var r := o.store.objects[key];
    assert r.kind == t[0] && r.attrs["id"] == Val(Str(Inner(t[3])));
    var n := |t[0]| + 1;
    assert KeyOf(r)[n..] == Inner(t[3]);
    assert key[n..] == t[1];
  }

  // ---------------------------------------------------------------------------
  // quit, EOF

  /** `do_quit` and `do_EOF` return True: the loop ends, and nothing is saved. */
  function Quit(s: Store): (o: Outcome)
    ensures o.reply == Exit && o.store == s
  {
    Outcome(Exit, s)
  }

  // ---------------------------------------------------------------------------
  // Preserved invariants

  /** The intended `create` registers the new record under its own key. */
  lemma CreateIntendedKeepsKeys(arg: string, s: Store, d: Draw, now: DateTime)
    requires KeyConsistent(s.objects)
    ensures KeyConsistent(CreateIntended(arg, s, d, now).store.objects)
  {
  }

  /** "<class> <id>" splits back into the class name and the id. */
  lemma ClassAndIdTokens(c: string, id: string)
    requires c in Kinds && IsWord(id)
    ensures Split(c + " " + id) == [c, id]
  {
    KindsAreLetters();
    assert IsWord(c);
    var ws := [c, id];
    assert ws[1..] == [id];
    assert Join(ws) == c + " " + id;
    SplitJoin(ws);
  }

  /** `show` finds what the intended `create` registered, under the printed id. */
  lemma CreateIntendedThenShow(c: string, s: Store, d: Draw, now: DateTime)
    requires c in Kinds && IsWord(d.id)
    ensures Show(c + " " + d.id, CreateIntended(c, s, d, now).store).reply
              == Display(Describe(Touch(Fresh(c, d), now)))
  {
    ClassAndIdTokens(c, d.id);
    var t := Split(c + " " + d.id);
    var key := KeyOf(Fresh(c, d));
    assert KeyFor(t) == key;
    var after := CreateIntended(c, s, d, now).store;
    assert after.objects == s.objects[key := Touch(Fresh(c, d), now)];
    assert after.objects[KeyFor(t)] == Touch(Fresh(c, d), now);
  }

  lemma DestroyKeepsKeys(arg: string, s: Store, evaluable: string -> bool)
    requires KeyConsistent(s.objects)
    ensures KeyConsistent(Destroy(arg, s, evaluable).store.objects)
  {
  }
}
