/** The service as a state machine: each route handler is a transition on the
    record store and the set of files in the upload directory, answering with
    a response (main.js:63-194). */
module Transitions {
  import opened Wrappers
  import opened Records
  import opened Responses
  import Routing

  /** `inventoryDB` and the files in the upload directory. */
  datatype Store = Store(db: seq<Record>, disk: set<FileName>)

  datatype Transition = Transition(store: Store, response: Response)

  /** POST /register (main.js:75-92). `upload` is the file the transport has
      staged for the `photo` field, `id` the id the clock supplies. */
  function Register(s: Store, name: Option<string>, description: Option<string>,
                    upload: Option<FileName>, id: string): (t: Transition)
    ensures t.response.status == 201 <==> Truthy(name)
    ensures !Truthy(name) ==>
              t.response == Response(400, Message("Bad Request: inventory_name is required")) &&
              t.store.db == s.db && t.store.disk == Release(s.disk, upload)
    ensures !Truthy(name) && upload.Some? ==> upload.value !in t.store.disk
    ensures Truthy(name) ==>
              t.store.disk == s.disk &&
              |t.store.db| == |s.db| + 1 && t.store.db[..|s.db|] == s.db &&
              t.response.body == ItemMessage("Item registered", t.store.db[|s.db|])
    ensures Truthy(name) ==>
              var item := t.store.db[|s.db|];
              item.id == id && item.name == name.value && item.photo == upload &&
              item.description == (if Truthy(description) then description.value else "")
  {
    if !Truthy(name) then
      Transition(Store(s.db, Release(s.disk, upload)),
                 Response(400, Message("Bad Request: inventory_name is required")))
    else
      var item := Record(id, name.value, description.GetOr(""), upload);
      assert (s.db + [item])[..|s.db|] == s.db;
      Transition(Store(s.db + [item], s.disk), Response(201, ItemMessage("Item registered", item)))
  }

  /** PUT /inventory/:id (main.js:105-115): the name changes only to a
      non-empty value, the description whenever the field is present. */
  function Update(s: Store, id: string, name: Option<string>, description: Option<string>): (t: Transition)
    ensures FindIndex(s.db, id).None? ==> t == Transition(s, Response(404, Message("Not Found")))
    ensures FindIndex(s.db, id).Some? ==>
              var i := FindIndex(s.db, id).value;
              t.store.disk == s.disk && |t.store.db| == |s.db| &&
              t.response == Response(200, ItemMessage("Item updated", t.store.db[i])) &&
              (forall k | 0 <= k < |s.db| && k != i :: t.store.db[k] == s.db[k]) &&
              t.store.db[i].id == id && t.store.db[i].photo == s.db[i].photo &&
              t.store.db[i].name == (if Truthy(name) then name.value else s.db[i].name) &&
              t.store.db[i].description == description.GetOr(s.db[i].description)
  {
    match FindIndex(s.db, id)
    case None => Transition(s, Response(404, Message("Not Found")))
    case Some(i) =>
      var item := s.db[i];
      var named := if Truthy(name) then item.(name := name.value) else item;
      var described := if description.Some? then named.(description := description.value) else named;
      Transition(Store(s.db[i := described], s.disk), Response(200, ItemMessage("Item updated", described)))
  }

  /** DELETE /inventory/:id (main.js:117-126): the first record with the id
      goes, and so does its photo file. */
  function Delete(s: Store, id: string): (t: Transition)
    ensures FindIndex(s.db, id).None? ==> t == Transition(s, Response(404, Message("Not Found")))
    ensures FindIndex(s.db, id).Some? ==>
              var i := FindIndex(s.db, id).value;
              t.response == Response(200, Message("Item deleted")) &&
              t.store.db == RemoveAt(s.db, i) &&
              t.store.disk == Release(s.disk, s.db[i].photo)
    ensures FindIndex(s.db, id).Some? ==>
              var photo := s.db[FindIndex(s.db, id).value].photo;
              |t.store.db| == |s.db| - 1 && t.store.disk <= s.disk &&
              (photo.Some? ==> photo.value !in t.store.disk)
  {
    match FindIndex(s.db, id)
    case None => Transition(s, Response(404, Message("Not Found")))
    case Some(i) =>
      Transition(Store(RemoveAt(s.db, i), Release(s.disk, s.db[i].photo)),
                 Response(200, Message("Item deleted")))
  }

  /** PUT /inventory/:id/photo (main.js:144-159). */
  function ReplacePhoto(s: Store, id: string, upload: Option<FileName>): (t: Transition)
    ensures FindIndex(s.db, id).None? ==>
              t.response == Response(404, Message("Not Found")) &&
              t.store.db == s.db && t.store.disk == Release(s.disk, upload)
    ensures FindIndex(s.db, id).Some? && upload.None? ==>
              t == Transition(s, Response(400, Message("No file uploaded")))
    ensures FindIndex(s.db, id).Some? && upload.Some? ==>
              var i := FindIndex(s.db, id).value;
              var old_photo := s.db[i].photo;
              t.store.db == s.db[i := s.db[i].(photo := upload)] &&
              t.response == Response(200, ItemMessage("Photo updated", t.store.db[i])) &&
              t.store.disk == Release(s.disk, old_photo) &&
              (old_photo.Some? ==> old_photo.value !in t.store.disk) &&
              (upload.value in s.disk && old_photo != upload ==> upload.value in t.store.disk)
  {
    match FindIndex(s.db, id)
    case None => Transition(Store(s.db, Release(s.disk, upload)), Response(404, Message("Not Found")))
    case Some(i) =>
      if upload.None? then Transition(s, Response(400, Message("No file uploaded")))
      else
        var item := s.db[i].(photo := upload);
        Transition(Store(s.db[i := item], Release(s.disk, s.db[i].photo)),
                   Response(200, ItemMessage("Photo updated", item)))
  }

  /** A request as the handlers see it: method, path and the parsed body
      fields (a field that is not sent is `undefined`). */
  datatype Request = Request(verb: string, path: string, body: map<string, string>)

  function Field(body: map<string, string>, key: string): Option<string> {
    if key in body then Some(body[key]) else None
  }

  /** One request served end to end. `now` is the clock reading used for a new
      id; `staged` the file the transport saved for an upload route. */
  function Step(s: Store, req: Request, now: nat, staged: Option<FileName>): (t: Transition)
    ensures t.response.status in {200, 201, 400, 404, 405}
    ensures !Routing.Mutates(Routing.Match(req.verb, req.path)) ==> t.store == s
    ensures t.response.status == 405 <==> Routing.Match(req.verb, req.path).MethodNotAllowed?
  {
    match Routing.Match(req.verb, req.path)
    case ListItems => Transition(s, ListAll(s.db))
    case RegisterItem =>
      Register(s, Field(req.body, "inventory_name"), Field(req.body, "description"),
               staged, DecimalString(now))
    case GetItem(id) => Transition(s, GetItem(s.db, id))
    case UpdateItem(id) =>
      Update(s, id, Field(req.body, "inventory_name"), Field(req.body, "description"))
    case DeleteItem(id) => Delete(s, id)
    case GetPhoto(id) => Transition(s, ReadPhoto(s.db, s.disk, id))
    case PutPhoto(id) => ReplacePhoto(s, id, staged)
    case SearchItem =>
      Transition(s, Search(s.db, Field(req.body, "id"), Field(req.body, "has_photo")))
    case MethodNotAllowed => Transition(s, Response(405, Text("Method Not Allowed")))
    case NotFound => Transition(s, Response(404, Text("Not Found")))
  }
}
