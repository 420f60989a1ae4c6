# AirBnB clone storage and console, modelled in Dafny

This project models the core of a small record store driven by a command console (the
`HBNBCommand` console of an AirBnB clone). It has three layers.

- **Records** (`BaseModel`, and `City` as the one concrete kind with attributes of its own).
  A record is its class name plus an attribute dictionary holding `id`, `created_at` and
  `updated_at`. Fresh construction draws a new id and two clock readings, then calls
  `storage.new`. Reconstruction from keyword arguments copies every entry. It parses the two
  timestamps with the pattern `%Y-%m-%dT%H:%M:%S.%f` and does not register the record.
  `to_dict` renders the record as a document with a `__class__` tag and `isoformat()`
  timestamps. `save` stamps `updated_at` and writes the whole registry.
- **Storage** (`FileStorage`). This is a dictionary from `"<Kind>.<id>"` to the live record
  objects, plus the JSON file it is written to. `save` writes one document per key. `reload`
  rebuilds every document of the file and merges it into the registry under the document's
  own key.
- **Console commands** (`create`, `show`, `destroy`, `all`, `update`, `quit`/`EOF`). Each
  handler turns the argument text and the store into a printed reply and a new store. The
  argument checks run in the source's order.

Modules:

| file | module | what it holds |
|---|---|---|
| wrappers.dfy | Wrappers | `Option` and `Result` |
| maps.dfy | Maps | two extensionality lemmas about map union |
| pytext.dfy | PyText | `str.split()`, the slice `s[1:-1]`, the substring test `sub in s` |
| timestamps.dfy | Timestamps | `datetime` values, `isoformat()`, and `strptime` with the fixed pattern |
| records.dfy | Records | a record as a value: construction from keywords, `to_dict`, `__str__`, class defaults, `setattr`, the stamp of `save` |
| registry.dfy | Registry | the registry as a value: keys, the document map `save` writes, what `reload` makes of a file |
| models.dfy | Models | the classes `BaseModel` and `FileStorage`, whose methods update fields in place |
| commands.dfy | Commands | each console handler as a function from arguments and store to reply and store |
| console.dfy | Console | each console handler as a method on the live `FileStorage`, proved equal to its function |

Clock readings, uuids and the file contents are inputs. A `Draw` carries what `uuid4()` and
the two `datetime.now()` calls of `__init__` return. `now` is the reading taken by `save`.
`StoredFile` is the file as `reload` finds it: missing, unreadable, or a document map.
Every raised exception is an `Error` value. An exception that escapes a console handler is
the reply `Crash`.

Where the code and its documentation disagree, the model follows the code:

- `FileStorage.new` is documented as storing the object. The code only reads
  `__objects[key]` (models/engine/file_storage1.py:54). So `create` raises `KeyError` for
  every fresh id and registers nothing. Both versions are modelled; see Findings.
- Reconstruction keeps `__class__` as an ordinary instance attribute. It is not stripped.
  The round trip therefore gives back the record's attributes plus `__class__`.
- The round trip of timestamps holds only when the microsecond is not 0. For microsecond 0,
  `isoformat()` writes no fraction and the fixed pattern rejects the string; see Findings.
- `create` with several tokens prints nothing and changes nothing.
- `destroy` checks the class with `eval`, not with the table of known classes.

## Model

| member | source | states |
|---|---|---|
| Timestamps.Render | models/base_model.py:93-94 | `isoformat()` writes the `YYYY-MM-DDTHH:MM:SS` stem and then 7 more characters (`.ffffff`) exactly when the microsecond is not 0 |
| Timestamps.StrPTimeOfIsoFormat | models/base_model.py:54-62 | parsing an `isoformat()` string with `%Y-%m-%dT%H:%M:%S.%f` gives back the same datetime when the microsecond is not 0, and raises when it is 0 |
| Timestamps.StrPTime | models/base_model.py:62 | `strptime` with the fixed pattern accepts a string only when it starts with four year digits and a dash and ends in a dot followed by one to six digits, and only with fields the `datetime` constructor accepts; `StrPTimeOfIsoFormat` shows which `isoformat()` strings it reads back |
| Records.Fresh | models/base_model.py:55-57 | a fresh record has the class it was made from, the drawn uuid as its id, and the first and second clock readings as `created_at` and `updated_at` |
| Records.FreshStampsAgreeOnlyIfReadingsDo | models/base_model.py:55-57 | a fresh record's `created_at` equals its `updated_at` exactly when the two clock readings are equal |
| Records.FromKwargs | models/base_model.py:59-64 | reconstruction succeeds exactly when no keyword is `self` and each timestamp keyword given is a string the pattern accepts; otherwise the matching error |
| Records.FromKwargsEntries | models/base_model.py:55-64 | reconstruction keeps the called class; its attributes are `id`, both stamps and every keyword; non-timestamp keywords (`id`, `__class__` included) are copied verbatim, timestamps parsed, absent ones keep their fresh value |
| Records.ToDict | models/base_model.py:91-95 | `to_dict` has exactly the record's keys plus `__class__`, which holds the class name; both stamps are `isoformat()` strings and every other attribute is unchanged; it fails when a stamp is not a datetime or `to_dict` is shadowed |
| Records.ToDictOfWithClassTag | models/base_model.py:91-92 | adding the `__class__` attribute does not change `to_dict()` |
| Records.FromKwargsOfToDict | models/base_model.py:59-95 | rebuilding from `to_dict()` gives the record's attributes, timestamps included, plus `__class__`, and serialises to the same document, when both microseconds are non-zero |
| Records.FromKwargsOfToDictFailsOnZeroMicrosecond | models/base_model.py:59-95 | rebuilding from `to_dict()` raises when either microsecond is 0 |
| Records.Describe | models/base_model.py:107 | `__str__` shows the record's whole attribute dictionary after its header |
| Records.ReadHeaderOfDescribe | models/base_model.py:107 | the `[<Kind>] (<id>) ` header identifies the record: class name and id can be read back from it |
| Records.GetAttr | models/city.py:7-8 | for a name that is not a data descriptor, lookup finds the instance attribute first, then City's class default, then a `BaseModel` method (`save`, `to_dict`), and raises AttributeError exactly when none of these has the name |
| Records.ClassDefaults | models/city.py:7-8 | City's class attributes are exactly `state_id` and `name`, both `""`; the other kinds declare none in this model |
| Records.FreshCity | models/city.py:5-8 | a fresh City reads `name` and `state_id` as `""` through its class, yet its `to_dict()` carries neither and is tagged `City` |
| Records.SetAttr | console1.py:152-155 | `setattr` with a string fails only on `__class__`, `__dict__`, `__weakref__`; otherwise the name reads back the value and no other attribute changes |
| Records.Touch | models/base_model.py:78 | the stamp of `save` sets `updated_at` to the given reading and leaves every other attribute and the class unchanged |
| Registry.KeyOf | models/engine/file_storage1.py:54 | the key starts with the class name and a dot; when the class name has no dot, the first dot of the key ends the class name and the id text follows it |
| Registry.KeyOfIdentifies | models/engine/file_storage1.py:54 | two records with dot-free class names share a key only when they share class name and id |
| Registry.Serialize | models/engine/file_storage1.py:61-62 | the saved document map exists exactly when every record has a `to_dict()`; it has the registry's keys and each value is that record's `to_dict()` |
| Registry.Persisted | models/engine/file_storage1.py:60-63 | after `save` the file holds the document map, or is left truncated (unreadable) when a `to_dict()` raised |
| Registry.Rebuild | models/engine/file_storage1.py:74 | an entry is rebuilt exactly when it has a string `__class__` naming a model class and reconstruction succeeds; the result has that class and keeps `__class__`; a missing `__class__` is a KeyError, and a `__class__` that is not a string naming a model class raises |
| Registry.Reloaded | models/engine/file_storage1.py:65-77 | a missing file leaves the registry unchanged; an unreadable file or an entry that cannot be rebuilt raises; otherwise each document is rebuilt under its own key and registry keys absent from the file survive |
| Registry.Merged | models/engine/file_storage1.py:72-75 | the merged registry has the old keys plus the file's keys, file entries win on shared keys, other entries are unchanged |
| Registry.SaveThenReload | models/engine/file_storage1.py:56-77 | reloading what `save` wrote restores every saved key, each record equal to the saved one plus `__class__` and serialising to the saved document, when all microseconds are non-zero and kinds are known |
| Registry.SaveThenReloadFailsOnZeroMicrosecond | models/engine/file_storage1.py:56-77 | a saved record with a zero microsecond makes the reload raise |
| Models.BaseModel.constructor | models/base_model.py:55-57 | a new instance holds the fresh id and the two clock readings |
| Models.BaseModel.Assign | models/base_model.py:59-64 | the keyword loop leaves the instance equal to the reconstruction of its old state, or returns a timestamp key of the keywords whose value does not parse |
| Models.BaseModel.Write | models/base_model.py:61-64 | one keyword is stored straight into `__dict__`, through `strptime` for the two timestamp keys; a failed parse stores nothing |
| Models.BaseModel.Init | models/base_model.py:30-66 | with keywords the instance is the reconstruction and `storage.new` is not called; without keywords it is the fresh record, and `storage.new` as written raises unless its key is already registered |
| Models.BaseModel.InitIntended | models/base_model.py:55-66 | with `new` as documented, the fresh instance is registered under its key and nothing else changes |
| Models.BaseModel.SetAttribute | console1.py:152-155 | `setattr` on the live instance changes it as `SetAttr` says, or fails with nothing changed |
| Models.BaseModel.Save | models/base_model.py:68-79 | `save` stamps `updated_at` and leaves every other attribute unchanged; the registry dictionary still holds the same objects, and the file is rewritten from what they now hold |
| Models.FileStorage.constructor | models/engine/file_storage1.py:35-36 | storage starts with an empty registry and the file on disk |
| Models.FileStorage.All | models/engine/file_storage1.py:38-45 | `all()` returns the registry itself, not a copy |
| Models.FileStorage.New | models/engine/file_storage1.py:47-54 | `new` as written returns the entry at `"<Kind>.<id>"` and changes nothing; an absent key is a KeyError |
| Models.FileStorage.NewIntended | models/engine/file_storage1.py:47-54 | `new` as documented stores the instance under `"<Kind>.<id>"`, replacing any entry there |
| Models.FileStorage.Save | models/engine/file_storage1.py:56-63 | `save` writes the document map of the registry, or truncates the file when a `to_dict()` raises; the registry does not change |
| Models.FileStorage.Reload | models/engine/file_storage1.py:65-77 | `reload` leaves the registry as `Reloaded` describes; an unreadable file raises with the registry unchanged; when an entry raises, the error is that of some entry, no old key is lost, old entries the file does not name are unchanged, and every entry is either an old one or a rebuilt document |
| Models.FileStorage.LoadAll | models/engine/file_storage1.py:72-75 | the reload loop leaves the registry partly merged: each key it finished holds its rebuilt document and every other entry is unchanged; without error every document was stored, otherwise the error is that of some document of the file |
| Models.FileStorage.Load | models/engine/file_storage1.py:74-75 | one entry is rebuilt and stored under the document's key, or nothing is stored and the rebuild error is returned |
| Models.FileStorage.Pop | console1.py:118 | popping from the dictionary `all()` returns removes exactly that key from the registry |
| Models.FileStorage.Put | models/engine/file_storage1.py:75 | storing a new instance under a key changes only that key |
| Commands.Create | console1.py:58-72 | `create`: empty argument is "class name missing"; several or no tokens print nothing; an unknown name is "class doesn't exist"; a known class crashes with KeyError unless the fresh key exists; the registry never changes |
| Commands.CreateCrashesOnNewId | console1.py:66-70 | as written, `create` of a known class with an unregistered id raises and leaves the store unchanged |
| Commands.CreateIntended | console1.py:58-72 | with the intended `new`: the same "class name missing", silent and "class doesn't exist" replies as `create`, with the store unchanged; for a known class, the fresh record stamped by `save` is registered, the file written and the id printed |
| Commands.CreateIntendedThenShow | console1.py:66-99 | with the intended `new`, `show <Kind> <printed id>` displays the record `create` made |
| Commands.CreateIntendedKeepsKeys | console1.py:66-70 | the intended `create` keeps every record under its own `"<Kind>.<id>"` key |
| Commands.Show | console1.py:83-99 | `show` checks class missing, blank argument (IndexError), class doesn't exist, then key found or "no instance found", then "instance id missing", each exactly in its case; it never changes the store |
| Commands.Destroy | console1.py:101-122 | each reply in its case: "class name missing" for an empty argument, "class doesn't exist" for a blank argument or a first token `eval` rejects, "instance id missing" for one evaluable token, "no instance found" for an absent key; the store changes only when the key exists, and then exactly that key is removed and the registry saved |
| Commands.DestroyThenShow | console1.py:115-122 | after `destroy` removes a key, `show` with the same arguments finds no instance and every other entry is unchanged |
| Commands.DestroyKeepsKeys | console1.py:115-119 | `destroy` keeps every record under its own key |
| Commands.All | console1.py:124-131 | `all` lists every record; for a known class exactly the entries whose key contains the class name; otherwise "class doesn't exist"; the store never changes |
| Commands.AllListsEveryRecordOfKind | console1.py:131 | with consistent keys, `all <Kind>` lists every record of that kind |
| Commands.AllListsOtherKindsByKey | console1.py:131 | the filter is a substring test on the key, so a record of another class whose key contains the name is listed too |
| Commands.UpdateCheck | console1.py:135-160 | `update` checks class missing, class doesn't exist, id missing, no instance found, attribute name missing, value missing in that order; the key test comes before the two count tests |
| Commands.Apply | console1.py:152-156 | a successful update changes only the entry at the key, setting the attribute and stamping it, then saves; a read-only name crashes with nothing changed; setting `save`, or an instance that already holds `save`, makes `obj.save()` raise with the attribute set, `updated_at` not stamped and the file not rewritten |
| Commands.Update | console1.py:133-160 | `update` prints the first failed check with the store unchanged, otherwise applies the change |
| Commands.UpdateThenShow | console1.py:146-156 | after an update, the attribute reads the fourth token without its end characters, the file holds the new registry, and `show` displays the updated record |
| Commands.UpdateKeepsKeys | console1.py:152-156 | an update that does not set `id` keeps every record under its own key |
| Commands.UpdateOfIdBreaksKeys | console1.py:152-156 | updating `id` to another value leaves the record under a key that no longer matches it |
| Commands.Quit | console1.py:32-49 | `quit` and EOF end the loop and leave the store, file included, unchanged |
| Console.DoCreate | console1.py:58-72 | the `create` handler on live storage has the outcome `Create` describes |
| Console.Build | console1.py:68-70 | constructing, saving and printing the new instance crashes on an unregistered key and otherwise only rewrites the file |
| Console.DoCreateIntended | console1.py:58-72 | the handler with the intended `new` has the outcome `CreateIntended` describes |
| Console.Register | console1.py:68-70 | with the intended `new`, the store afterwards holds the stamped fresh record and the file is rewritten |
| Console.SaveEntry | console1.py:156 | `save` on a registered instance changes only that entry of the registry and rewrites the file |
| Console.DoShow | console1.py:83-99 | the `show` handler prints what `Show` describes |
| Console.DoDestroy | console1.py:101-122 | the `destroy` handler has the outcome `Destroy` describes |
| Console.Remove | console1.py:117-119 | popping a key and saving leaves the registry without that key and the file rewritten from it |
| Console.DoAll | console1.py:124-131 | the `all` handler prints what `All` describes |
| Console.DoUpdate | console1.py:133-160 | the `update` handler has the outcome `Update` describes |
| Console.Change | console1.py:152-156 | `setattr` then `save` on the registered instance have the outcome `Apply` describes |
| Console.SetEntry | console1.py:152-155 | `setattr` on the registered instance changes only that entry of the registry |
| Console.DoQuit | console1.py:45-49 | the `quit`/EOF handlers return the exit reply |
| PyText.Split | console1.py:65 | `str.split()` yields non-empty tokens free of whitespace, and none exactly when the text is all whitespace |
| PyText.SplitKeepsCharacters | console1.py:65 | the tokens put back together are exactly the non-whitespace characters of the text |
| PyText.SplitJoin | console1.py:135 | splitting single-space-joined tokens gives the tokens back |
| PyText.Inner | console1.py:155 | `s[1:-1]` is `s` without its first and last character, whatever they are, and empty for fewer than two characters |
| PyText.InnerDropsEnds | console1.py:155 | stripping a value framed by any two characters gives the value back |
| PyText.ContainsIffOccurs | console1.py:131 | `sub in s` holds exactly when some slice of `s` equals `sub` |

## Findings

| source | as written | input that shows it | evidently intended | confidence | as-written member | corrected member |
|---|---|---|---|---|---|---|
| models/engine/file_storage1.py:54 | `new` only reads `__objects[key]` and raises `KeyError` when the key is absent | `create City` with any id not yet in the registry: `__init__` raises, nothing is registered, no id is printed | store the object under `"<Kind>.<id>"`, as the method's docstring at line 49 says | high; not executed | Commands.CreateCrashesOnNewId | Commands.CreateIntendedThenShow |
| models/base_model.py:62 | timestamps are parsed with the fixed pattern `%Y-%m-%dT%H:%M:%S.%f`, whose `%f` needs a fraction | a record whose `created_at` has microsecond 0: `isoformat()` writes `2023-10-12T15:32:18`, so rebuilding it from its own `to_dict()` (and so `reload` after `save`) raises ValueError | read back every string `isoformat()` writes, as the `__init__` docstring (line 40) promises for ISO 8601 timestamps | medium; not executed | Records.FromKwargsOfToDictFailsOnZeroMicrosecond | Timestamps.StrPTimeEitherFormOfIsoFormat |

## Left out

- The `cmd` loop, the prompt, `default`, `emptyline` and the `__main__` entry are interactive plumbing. Printed output is the returned `Reply`.
- File opening, `json.dump` and `json.load` are not modelled as text. The file is a `StoredFile` of document maps. A JSON value other than a string is kept as the text `str()` shows for it (`Value.Json`).
- `uuid4()` and `datetime.now()` are inputs (`Draw`, `now`). Global uniqueness of ids is not proved. Whether `save` moves `updated_at` forward depends only on the clock reading supplied.
- The storage singleton `models.storage` is passed explicitly to every method that uses it.
- Registry.Rebuild: `eval` of `__class__` is modelled only as membership in the kind table. A value that evaluates to some other callable (for example `dict`) is treated as an unknown kind, although Python would call it. Every other failure is the single error `UnknownKind`: a NameError or SyntaxError from `eval`, a TypeError for a non-string value, or a TypeError from calling something that is not a class.
- Commands.Destroy: the `eval` class check is an input predicate `evaluable`. Nothing is assumed about which names it accepts.
- Records.Describe: the Python `repr` of the attribute dictionary is kept as the dictionary itself, after the `[<Kind>] (<id>) ` header.
- Commands.All: the listing is a map keyed by registry key. The order of the printed list, which follows dictionary insertion order, is not modelled.
- Models.FileStorage.Reload: on a failing entry the set of entries stored before the failure depends on dictionary order. The model allows any order.
- Registry.Persisted: when several `to_dict()` calls would raise, which error Python reports depends on dictionary order. The model reports `SaveError` without saying which.
- Records.GetAttr: only data attributes, City's two class defaults and the two non-dunder methods of `BaseModel` are modelled. A dunder name missing from `__dict__`, the data descriptors `__class__`, `__dict__` and `__weakref__` (which win over `__dict__`), and the class attributes of kinds other than City are excluded by its precondition.
- Timestamps.StrPTime: only ASCII digits are read. CPython's `\d` also accepts other Unicode decimal digits.
- The kinds `User`, `Place`, `State`, `Amenity` and `Review` are names in the kind table only. Their class attributes are not modelled.
- Positional arguments to `__init__` are ignored by the source and do not appear in the model.
