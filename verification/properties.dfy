/** What the handlers promise together: no staged or released file is left
    behind unowned, every photo a record names stays on disk, and the
    register / replace photo / delete life cycle of one item. */
module Properties {
  import opened Wrappers
  import opened Records
  import opened Responses
  import opened Transitions
  import Routing

  /** The photo files some record refers to. */
  function OwnedFiles(db: seq<Record>): set<FileName> {
    set k | 0 <= k < |db| && db[k].photo.Some? :: db[k].photo.value
  }

  /** Files in the upload directory that no record refers to. */
  function Orphans(s: Store): set<FileName> {
    s.disk - OwnedFiles(s.db)
  }

  /** Every photo a record names is on disk, and no two records share one. */
  predicate Consistent(s: Store) {
    && (forall k | 0 <= k < |s.db| && s.db[k].photo.Some? :: s.db[k].photo.value in s.disk)
    && (forall j, k | 0 <= j < k < |s.db| && s.db[j].photo.Some? :: s.db[j].photo != s.db[k].photo)
  }

  /** The transport saves the uploaded file before the handler runs. */
  function Stage(s: Store, staged: Option<FileName>): Store {
    if staged.Some? then Store(s.db, s.disk + {staged.value}) else s
  }

  lemma {:induction false} OwnedAppend(db: seq<Record>, item: Record)
    ensures OwnedFiles(db + [item]) ==
            OwnedFiles(db) + (if item.photo.Some? then {item.photo.value} else {})
  {
    var db' := db + [item];
    forall f | f in OwnedFiles(db)
      ensures f in OwnedFiles(db')
    {
      var k :| 0 <= k < |db| && db[k].photo == Some(f);
      assert db'[k] == db[k];
    }
    if item.photo.Some? {
      assert db'[|db|] == item;
    }
  }

  /** Replacing record `i` by one with photo `photo` keeps every other owned file. */
  lemma {:induction false} OwnedSet(db: seq<Record>, i: nat, item: Record)
    requires i < |db|
    ensures OwnedFiles(db[i := item]) >=
            OwnedFiles(db) - (if db[i].photo.Some? then {db[i].photo.value} else {})
    ensures item.photo.Some? ==> item.photo.value in OwnedFiles(db[i := item])
    ensures item.photo == db[i].photo ==> OwnedFiles(db[i := item]) == OwnedFiles(db)
  {
    var db' := db[i := item];
    forall f | f in OwnedFiles(db) && (db[i].photo.None? || f != db[i].photo.value)
      ensures f in OwnedFiles(db')
    {
      var k :| 0 <= k < |db| && db[k].photo == Some(f);
      assert db'[k] == db[k];
    }
    if item.photo.Some? {
      assert db'[i] == item;
    }
    if item.photo == db[i].photo {
      forall f | f in OwnedFiles(db')
        ensures f in OwnedFiles(db)
      {
        var k :| 0 <= k < |db'| && db'[k].photo == Some(f);
        assert db[k].photo == db'[k].photo;
      }
      if db[i].photo.Some? {
        assert db'[i].photo == db[i].photo;
      }
    }
  }

  lemma {:induction false} OwnedRemove(db: seq<Record>, i: nat)
    requires i < |db|
    ensures OwnedFiles(RemoveAt(db, i)) >=
            OwnedFiles(db) - (if db[i].photo.Some? then {db[i].photo.value} else {})
  {
    var db' := RemoveAt(db, i);
    forall f | f in OwnedFiles(db) && (db[i].photo.None? || f != db[i].photo.value)
      ensures f in OwnedFiles(db')
    {
      var k :| 0 <= k < |db| && db[k].photo == Some(f);
      if k < i {
        assert db'[k] == db[k];
      } else {
        assert db'[k - 1] == db[k];
      }
    }
  }

  /** Registering never leaves the staged upload unowned (main.js:78-91). */
  lemma {:induction false} RegisterLeavesNoOrphan(s: Store, name: Option<string>, description: Option<string>,
                               upload: Option<FileName>, id: string)
    ensures Orphans(Register(Stage(s, upload), name, description, upload, id).store) <= Orphans(s)
  {
    var s' := Stage(s, upload);
    if Truthy(name) {
      var db' := Register(s', name, description, upload, id).store.db;
      assert db' == s.db + [db'[|s.db|]];
      OwnedAppend(s.db, db'[|s.db|]);
    }
  }

  /** Updating fields never touches photo ownership (main.js:105-115). */
  lemma {:induction false} UpdateLeavesNoOrphan(s: Store, id: string, name: Option<string>, description: Option<string>)
    ensures Orphans(Update(s, id, name, description).store) == Orphans(s)
  {
    var t := Update(s, id, name, description);
    if FindIndex(s.db, id).Some? {
      var i := FindIndex(s.db, id).value;
      assert t.store.db == s.db[i := t.store.db[i]];
      OwnedSet(s.db, i, t.store.db[i]);
    }
  }

  /** Deleting a record releases its photo with it (main.js:117-126). */
  lemma {:induction false} DeleteLeavesNoOrphan(s: Store, id: string)
    ensures Orphans(Delete(s, id).store) <= Orphans(s)
  {
    if FindIndex(s.db, id).Some? {
      OwnedRemove(s.db, FindIndex(s.db, id).value);
    }
  }

  /** Replacing a photo releases the old file, and a rejected replacement
      releases the upload (main.js:144-159). */
  lemma {:induction false} ReplacePhotoLeavesNoOrphan(s: Store, id: string, upload: Option<FileName>)
    ensures Orphans(ReplacePhoto(Stage(s, upload), id, upload).store) <= Orphans(s)
  {
    var s' := Stage(s, upload);
    if FindIndex(s.db, id).Some? && upload.Some? {
      var i := FindIndex(s.db, id).value;
      OwnedSet(s.db, i, s.db[i].(photo := upload));
    }
  }

  /** No request leaves a new unowned file in the upload directory: a staged
      upload ends up attached or deleted, and a replaced or deleted photo is
      deleted. Only the upload routes stage files. */
  lemma {:induction false} StepLeavesNoOrphan(s: Store, req: Request, now: nat, staged: Option<FileName>)
    requires staged.Some? ==> Routing.Uploads(Routing.Match(req.verb, req.path))
    ensures Orphans(Step(Stage(s, staged), req, now, staged).store) <= Orphans(s)
  {
    var s' := Stage(s, staged);
    var name, description := Field(req.body, "inventory_name"), Field(req.body, "description");
    var t := Step(s', req, now, staged);
    var route := Routing.Match(req.verb, req.path);
    if route.RegisterItem? {
      assert t == Register(s', name, description, staged, DecimalString(now));
      RegisterLeavesNoOrphan(s, name, description, staged, DecimalString(now));
    } else if route.UpdateItem? {
      assert staged.None? && t == Update(s, route.id, name, description);
      UpdateLeavesNoOrphan(s, route.id, name, description);
    } else if route.DeleteItem? {
      assert staged.None? && t == Delete(s, route.id);
      DeleteLeavesNoOrphan(s, route.id);
    } else if route.PutPhoto? {
      assert t == ReplacePhoto(s', route.id, staged);
      ReplacePhotoLeavesNoOrphan(s, route.id, staged);
    } else {
      assert staged.None? && t.store == s;
    }
  }

  /** One request with the clock reading and the file the transport staged. */
  datatype Call = Call(req: Request, now: nat, staged: Option<FileName>)

  /** The store after serving `calls` one after another. */
  function Run(s: Store, calls: seq<Call>): Store
    decreases |calls|
  {
    if calls == [] then s
    else
      var c := calls[0];
      Run(Step(Stage(s, c.staged), c.req, c.now, c.staged).store, calls[1..])
  }

  /** The transport stages a file only for the two upload routes. */
  predicate StagesOnlyUploads(calls: seq<Call>) {
    forall k | 0 <= k < |calls| ::
      calls[k].staged.Some? ==> Routing.Uploads(Routing.Match(calls[k].req.verb, calls[k].req.path))
  }

  /** However many requests are served, the unowned files are among those that
      were unowned at the start; from process start, among the files the
      upload directory held before the service ran. */
  lemma {:induction false} RunLeavesNoOrphan(s: Store, calls: seq<Call>)
    requires StagesOnlyUploads(calls)
    ensures Orphans(Run(s, calls)) <= Orphans(s)
    decreases |calls|
  {
    if calls != [] {
      var c := calls[0];
      var s' := Step(Stage(s, c.staged), c.req, c.now, c.staged).store;
      StepLeavesNoOrphan(s, c.req, c.now, c.staged);
      assert StagesOnlyUploads(calls[1..]) by {
        forall k | 0 <= k < |calls[1..]|
          ensures calls[1..][k].staged.Some? ==>
                  Routing.Uploads(Routing.Match(calls[1..][k].req.verb, calls[1..][k].req.path))
        {
          assert calls[1..][k] == calls[k + 1];
        }
      }
      RunLeavesNoOrphan(s', calls[1..]);
    }
  }

  /** Process start: the store is empty, so only files already there are unowned. */
  lemma {:induction false} ServiceLeavesNoOrphan(existing: set<FileName>, calls: seq<Call>)
    requires StagesOnlyUploads(calls)
    ensures Orphans(Run(Store([], existing), calls)) <= existing
  {
    RunLeavesNoOrphan(Store([], existing), calls);
  }

  /** A freshly staged upload that is not yet in the directory keeps the store
      consistent through a registration. */
  lemma {:induction false} RegisterKeepsConsistent(s: Store, name: Option<string>, description: Option<string>,
                                upload: Option<FileName>, id: string)
    requires Consistent(s)
    requires upload.Some? ==> upload.value !in s.disk
    ensures Consistent(Register(Stage(s, upload), name, description, upload, id).store)
  {
  }

  lemma {:induction false} UpdateKeepsConsistent(s: Store, id: string, name: Option<string>, description: Option<string>)
    requires Consistent(s)
    ensures Consistent(Update(s, id, name, description).store)
  {
  }

  lemma {:induction false} DeleteKeepsConsistent(s: Store, id: string)
    requires Consistent(s)
    ensures Consistent(Delete(s, id).store)
  {
  }

  lemma {:induction false} ReplacePhotoKeepsConsistent(s: Store, id: string, upload: Option<FileName>)
    requires Consistent(s)
    requires upload.Some? ==> upload.value !in s.disk
    ensures Consistent(ReplacePhoto(Stage(s, upload), id, upload).store)
  {
  }

  /** Whatever the request, a fresh staged upload keeps every named photo on
      disk and every photo owned by one record at most. */
  lemma {:induction false} StepKeepsConsistent(s: Store, req: Request, now: nat, staged: Option<FileName>)
    requires Consistent(s)
    requires staged.Some? ==> staged.value !in s.disk
    ensures Consistent(Step(Stage(s, staged), req, now, staged).store)
  {
    var s' := Stage(s, staged);
    var name, description := Field(req.body, "inventory_name"), Field(req.body, "description");
    var t := Step(s', req, now, staged);
    var route := Routing.Match(req.verb, req.path);
    if route.RegisterItem? {
      assert t == Register(s', name, description, staged, DecimalString(now));
      RegisterKeepsConsistent(s, name, description, staged, DecimalString(now));
    } else if route.UpdateItem? {
      assert t == Update(s', route.id, name, description);
      UpdateKeepsConsistent(s', route.id, name, description);
    } else if route.DeleteItem? {
      assert t == Delete(s', route.id);
      DeleteKeepsConsistent(s', route.id);
    } else if route.PutPhoto? {
      assert t == ReplacePhoto(s', route.id, staged);
      ReplacePhotoKeepsConsistent(s, route.id, staged);
    } else {
      assert t.store == s';
    }
  }


  /** Every upload the transport stages along the run gets a name that is not
      yet in the directory. */
  predicate FreshUploads(s: Store, calls: seq<Call>)
    decreases |calls|
  {
    calls == [] ||
    var c := calls[0];
    && (c.staged.Some? ==> c.staged.value !in s.disk)
    && FreshUploads(Step(Stage(s, c.staged), c.req, c.now, c.staged).store, calls[1..])
  }

  /** Consistency holds after any run of requests with fresh upload names. */
  lemma {:induction false} RunKeepsConsistent(s: Store, calls: seq<Call>)
    requires Consistent(s)
    requires FreshUploads(s, calls)
    ensures Consistent(Run(s, calls))
    decreases |calls|
  {
    if calls != [] {
      var c := calls[0];
      StepKeepsConsistent(s, c.req, c.now, c.staged);
      RunKeepsConsistent(Step(Stage(s, c.staged), c.req, c.now, c.staged).store, calls[1..]);
    }
  }

  /** No two records share an id. The clock-derived id does not guarantee it. */
  predicate UniqueIds(db: seq<Record>) {
    forall j, k | 0 <= j < k < |db| :: db[j].id != db[k].id
  }

  /** After registering under an id not in use, fetching that id returns the
      new record, with a photo URL exactly when a photo was uploaded. */
  lemma {:induction false} RegisterThenGet(s: Store, name: Option<string>, description: Option<string>,
                        upload: Option<FileName>, id: string)
    requires Truthy(name)
    requires forall k | 0 <= k < |s.db| :: s.db[k].id != id
    ensures var t := Register(s, name, description, upload, id);
            var item := t.store.db[|s.db|];
            GetItem(t.store.db, id) == Response(200, ItemView(item, UrlOf(item))) &&
            (GetItem(t.store.db, id).body.photoUrl.Some? <==> upload.Some?)
  {
    var t := Register(s, name, description, upload, id);
    assert t.store.db == s.db + [t.store.db[|s.db|]];
    FindAppend(s.db, t.store.db[|s.db|], id);
  }

  /** Registering under an id already in use (two registrations within one
      millisecond) appends the new record, but while the older record is in
      the store every lookup by that id still answers with the older one. */
  lemma {:induction false} DuplicateIdShadowed(s: Store, name: Option<string>, description: Option<string>,
                            upload: Option<FileName>, id: string)
    requires Truthy(name)
    requires exists k | 0 <= k < |s.db| :: s.db[k].id == id
    ensures var t := Register(s, name, description, upload, id);
            |t.store.db| == |s.db| + 1 && GetItem(t.store.db, id) == GetItem(s.db, id)
  {
    var t := Register(s, name, description, upload, id);
    assert t.store.db == s.db + [t.store.db[|s.db|]];
    FindAppend(s.db, t.store.db[|s.db|], id);
  }

  /** Deleting by a shared id removes only the first record holding it; the
      next record with that id is then what fetching the id returns. */
  lemma {:induction false} DeleteUncoversDuplicate(s: Store, id: string, j: nat)
    requires FindIndex(s.db, id).Some?
    requires FindIndex(s.db, id).value < j < |s.db| && s.db[j].id == id
    requires forall k | FindIndex(s.db, id).value < k < j :: s.db[k].id != id
    ensures GetItem(Delete(s, id).store.db, id) == Response(200, ItemView(s.db[j], UrlOf(s.db[j])))
  {
    var i := FindIndex(s.db, id).value;
    var db' := Delete(s, id).store.db;
    assert db' == RemoveAt(s.db, i);
    forall k | 0 <= k < j - 1
      ensures db'[k].id != id
    {
      if k < i {
        assert db'[k] == s.db[k];
      } else {
        assert db'[k] == s.db[k + 1];
      }
    }
    assert db'[j - 1] == s.db[j];
    FindFirst(db', j - 1, id);
  }

  /** After a successful photo replacement the photo route serves the new
      file, provided the transport staged it under a new name. */
  lemma {:induction false} ReplaceThenRead(s: Store, id: string, upload: FileName)
    requires FindIndex(s.db, id).Some?
    requires upload in s.disk && s.db[FindIndex(s.db, id).value].photo != Some(upload)
    ensures var t := ReplacePhoto(s, id, Some(upload));
            t.response.status == 200 &&
            ReadPhoto(t.store.db, t.store.disk, id) == Response(200, PhotoFile(upload))
  {
    var t := ReplacePhoto(s, id, Some(upload));
    var i := FindIndex(s.db, id).value;
    FindFirst(t.store.db, i, id);
  }

  /** With unique ids, a deleted record is gone: fetching it is 404 and the
      listing no longer shows it. */
  lemma {:induction false} DeleteThenGet(s: Store, id: string)
    requires UniqueIds(s.db)
    ensures var t := Delete(s, id);
            GetItem(t.store.db, id).status == 404 &&
            forall k | 0 <= k < |t.store.db| :: ListAll(t.store.db).body.items[k].item.id != id
  {
    var t := Delete(s, id);
    if FindIndex(s.db, id).Some? {
      var i := FindIndex(s.db, id).value;
      forall k | 0 <= k < |t.store.db|
        ensures t.store.db[k].id != id
      {
        if k < i {
          assert t.store.db[k] == s.db[k];
        } else {
          assert t.store.db[k] == s.db[k + 1];
        }
      }
    }
  }

  /** Ids are decimal digits, so they never hold a slash. */
  lemma {:induction false} IdHasNoSlash(now: nat)
    ensures DecimalString(now) != "" && '/' !in DecimalString(now)
  {
    var id := DecimalString(now);
    forall k | 0 <= k < |id|
      ensures id[k] != '/'
    {
    }
  }

  /** POST /register reaches the registration handler with a fresh id. */
  lemma {:induction false} RegisterDispatch(s: Store, body: map<string, string>, now: nat, staged: Option<FileName>)
    ensures Step(s, Request("POST", "/register", body), now, staged) ==
            Register(s, Field(body, "inventory_name"), Field(body, "description"), staged, DecimalString(now))
  {
    Routing.RootRoutes("register");
    assert "/register" == "/" + "register";
  }

  /** The item path built from a generated id reaches the handlers for that id. */
  lemma {:induction false} ItemDispatch(s: Store, now: nat, body: map<string, string>, staged: Option<FileName>)
    ensures var id := DecimalString(now);
            && Step(s, Request("GET", "/inventory/" + id, body), now, staged) ==
               Transition(s, GetItem(s.db, id))
            && Step(s, Request("DELETE", "/inventory/" + id, body), now, staged) == Delete(s, id)
  {
    IdHasNoSlash(now);
    Routing.ItemPathRoutes(DecimalString(now));
  }

  /** The photo path built from a generated id reaches the photo handlers for
      that id. */
  lemma {:induction false} PhotoDispatch(s: Store, now: nat, body: map<string, string>, staged: Option<FileName>)
    ensures var id := DecimalString(now);
            && Step(s, Request("GET", "/inventory/" + id + "/photo", body), now, staged) ==
               Transition(s, ReadPhoto(s.db, s.disk, id))
            && Step(s, Request("PUT", "/inventory/" + id + "/photo", body), now, staged) ==
               ReplacePhoto(s, id, staged)
  {
    IdHasNoSlash(now);
    Routing.PhotoPathRoutes(DecimalString(now));
  }

  /** Scenario step: registering "Drill" with no photo under a fresh id. */
  lemma {:induction false} DrillRegistered(s: Store, now: nat)
    requires forall k | 0 <= k < |s.db| :: s.db[k].id != DecimalString(now)
    ensures var drill := Record(DecimalString(now), "Drill", "", None);
            Step(s, Request("POST", "/register", map["inventory_name" := "Drill"]), now, None) ==
            Transition(Store(s.db + [drill], s.disk), Response(201, ItemMessage("Item registered", drill)))
  {
    var body := map["inventory_name" := "Drill"];
    assert Field(body, "inventory_name") == Some("Drill") && Field(body, "description") == None;
    RegisterDispatch(s, body, now, None);
  }

  /** Scenario step: fetching the item just registered shows no photo URL. */
  lemma {:induction false} DrillFetched(db: seq<Record>, disk: set<FileName>, now: nat)
    requires forall k | 0 <= k < |db| :: db[k].id != DecimalString(now)
    ensures var drill := Record(DecimalString(now), "Drill", "", None);
            Step(Store(db + [drill], disk), Request("GET", "/inventory/" + drill.id, map[]), now, None) ==
            Transition(Store(db + [drill], disk), Response(200, ItemView(drill, None)))
  {
    var drill := Record(DecimalString(now), "Drill", "", None);
    FindLast(db, drill);
    ItemDispatch(Store(db + [drill], disk), now, map[], None);
  }

  /** Scenario step: attaching the staged `file` as the item's photo. */
  lemma {:induction false} DrillPhotographed(db: seq<Record>, disk: set<FileName>, now: nat, file: FileName)
    requires forall k | 0 <= k < |db| :: db[k].id != DecimalString(now)
    ensures var drill := Record(DecimalString(now), "Drill", "", None);
            var photographed := drill.(photo := Some(file));
            ReplacePhoto(Store(db + [drill], disk + {file}), drill.id, Some(file)) ==
            Transition(Store(db + [photographed], disk + {file}),
                       Response(200, ItemMessage("Photo updated", photographed)))
  {
    var drill := Record(DecimalString(now), "Drill", "", None);
    FindLast(db, drill);
    assert (db + [drill])[|db| := drill.(photo := Some(file))] == db + [drill.(photo := Some(file))];
  }

  /** Scenario steps on the store holding the photographed item last: read the
      photo, delete the item, fetch it again. */
  lemma {:induction false} DrillServedAndDeleted(db: seq<Record>, disk: set<FileName>,
                                                 now: nat, file: FileName)
    requires forall k | 0 <= k < |db| :: db[k].id != DecimalString(now)
    requires file in disk
    ensures var id := DecimalString(now);
            var photographed := Record(id, "Drill", "", Some(file));
            && Step(Store(db + [photographed], disk), Request("GET", "/inventory/" + id + "/photo", map[]),
                    now, None) ==
               Transition(Store(db + [photographed], disk), Response(200, PhotoFile(file)))
            && Step(Store(db + [photographed], disk), Request("DELETE", "/inventory/" + id, map[]), now, None) ==
               Transition(Store(db, disk - {file}), Response(200, Message("Item deleted")))
            && Step(Store(db, disk - {file}), Request("GET", "/inventory/" + id, map[]), now, None) ==
               Transition(Store(db, disk - {file}), Response(404, Message("Not Found")))
  {
    var photographed := Record(DecimalString(now), "Drill", "", Some(file));
    FindLast(db, photographed);
    PhotoDispatch(Store(db + [photographed], disk), now, map[], None);
    ItemDispatch(Store(db + [photographed], disk), now, map[], None);
    ItemDispatch(Store(db, disk - {file}), now, map[], None);
    assert RemoveAt(db + [photographed], |db|) == db;
  }

  /** The life cycle of one item served end to end through the router:
      register "Drill" without a photo (201, no photo URL), attach a photo
      (200, the photo route serves it), delete the item (200), after which the
      item is 404 and its photo file is gone from the directory. */
  lemma {:induction false} DrillScenario(s: Store, now: nat, file: FileName)
    requires forall k | 0 <= k < |s.db| :: s.db[k].id != DecimalString(now)
    ensures
      var id := DecimalString(now);
      var drill := Record(id, "Drill", "", None);
      var t1 := Step(s, Request("POST", "/register", map["inventory_name" := "Drill"]), now, None);
      var t2 := Step(t1.store, Request("GET", "/inventory/" + id, map[]), now, None);
      var t3 := Step(Stage(t2.store, Some(file)), Request("PUT", "/inventory/" + id + "/photo", map[]),
                     now, Some(file));
      var t4 := Step(t3.store, Request("GET", "/inventory/" + id + "/photo", map[]), now, None);
      var t5 := Step(t4.store, Request("DELETE", "/inventory/" + id, map[]), now, None);
      var t6 := Step(t5.store, Request("GET", "/inventory/" + id, map[]), now, None);
      && t1.response == Response(201, ItemMessage("Item registered", drill))
      && t2.response == Response(200, ItemView(drill, None))
      && t3.response == Response(200, ItemMessage("Photo updated", drill.(photo := Some(file))))
      && t4.response == Response(200, PhotoFile(file))
      && t5.response == Response(200, Message("Item deleted"))
      && t6.response == Response(404, Message("Not Found"))
      && file !in t6.store.disk
  {
    DrillRegistered(s, now);
    DrillFetched(s.db, s.disk, now);
    DrillPhotographed(s.db, s.disk, now, file);
    PhotoDispatch(Stage(Store(s.db + [Record(DecimalString(now), "Drill", "", None)], s.disk), Some(file)),
                  now, map[], Some(file));
    DrillServedAndDeleted(s.db, s.disk + {file}, now, file);
  }
}
