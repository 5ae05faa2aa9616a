/** The running service: the process-wide `inventoryDB` array and the upload
    directory, changed in place by the route handlers (main.js:32-194). */
module Service {
  import opened Wrappers
  import opened Records
  import opened Responses
  import opened Transitions
  import Routing

  class Inventory {
    /** `inventoryDB`, in insertion order. */
    var db: seq<Record>
    /** The names of the files in the upload directory. */
    var disk: set<FileName>

    /** Process start: an empty store over whatever files the upload directory
        already holds (main.js:26-32). */
    constructor (existing: set<FileName>)
      ensures db == [] && disk == existing
    {
      db := [];
      disk := existing;
    }

    function Snapshot(): Store
      reads this
    {
      Store(db, disk)
    }

    /** `deleteFileIfExist` (main.js:34-45). */
    method DeleteFileIfExist(file: Option<FileName>)
      modifies this
      ensures db == old(db)
      ensures disk == Release(old(disk), file)
    {
      if file.Some? {
        if file.value in disk {
          disk := disk - {file.value};
        }
      }
    }

    /** POST /register (main.js:75-92). */
    method PostRegister(name: Option<string>, description: Option<string>,
                        upload: Option<FileName>, id: string) returns (response: Response)
      modifies this
      ensures var t := Register(old(Snapshot()), name, description, upload, id);
              Snapshot() == t.store && response == t.response
    {
      if !Truthy(name) {
        if upload.Some? {
          DeleteFileIfExist(upload);
        }
        return Response(400, Message("Bad Request: inventory_name is required"));
      }
      var item := Record(id, name.value, if Truthy(description) then description.value else "", upload);
      db := db + [item];
      response := Response(201, ItemMessage("Item registered", item));
    }

    /** PUT /inventory/:id (main.js:105-115). */
    method PutItem(id: string, name: Option<string>, description: Option<string>)
      returns (response: Response)
      modifies this
      ensures var t := Update(old(Snapshot()), id, name, description);
              Snapshot() == t.store && response == t.response
    {
      var found := FindIndex(db, id);
      if found.None? {
        return Response(404, Message("Not Found"));
      }
      var i := found.value;
      var item := db[i];
      if Truthy(name) {
        item := item.(name := name.value);
      }
      if description.Some? {
        item := item.(description := description.value);
      }
      db := db[i := item];
      response := Response(200, ItemMessage("Item updated", item));
    }

    /** DELETE /inventory/:id (main.js:117-126). */
    method DeleteItem(id: string) returns (response: Response)
      modifies this
      ensures var t := Delete(old(Snapshot()), id);
              Snapshot() == t.store && response == t.response
    {
      var index := FindIndex(db, id);
      if index.None? {
        return Response(404, Message("Not Found"));
      }
      var deleted := db[index.value];
      DeleteFileIfExist(deleted.photo);
      db := db[..index.value] + db[index.value + 1..];
      response := Response(200, Message("Item deleted"));
    }

    /** PUT /inventory/:id/photo (main.js:144-159). */
    method PutPhoto(id: string, upload: Option<FileName>) returns (response: Response)
      modifies this
      ensures var t := ReplacePhoto(old(Snapshot()), id, upload);
              Snapshot() == t.store && response == t.response
    {
      var found := FindIndex(db, id);
      if found.None? {
        if upload.Some? {
          DeleteFileIfExist(upload);
        }
        return Response(404, Message("Not Found"));
      }
      if upload.None? {
        return Response(400, Message("No file uploaded"));
      }
      var i := found.value;
      DeleteFileIfExist(db[i].photo);
      var item := db[i].(photo := upload);
      db := db[i := item];
      response := Response(200, ItemMessage("Photo updated", item));
    }

    /** One request through the router: the matching handler, or the 405/404
        fallbacks (main.js:63-194). */
    method Handle(req: Request, now: nat, staged: Option<FileName>) returns (response: Response)
      modifies this
      ensures var t := Step(old(Snapshot()), req, now, staged);
              Snapshot() == t.store && response == t.response
    {
      var route := Routing.Match(req.verb, req.path);
      var name, description := Field(req.body, "inventory_name"), Field(req.body, "description");
      if route.ListItems? {
        response := ListAll(db);
      } else if route.RegisterItem? {
        response := PostRegister(name, description, staged, DecimalString(now));
      } else if route.GetItem? {
        response := GetItem(db, route.id);
      } else if route.UpdateItem? {
        response := PutItem(route.id, name, description);
      } else if route.DeleteItem? {
        response := DeleteItem(route.id);
      } else if route.GetPhoto? {
        response := ReadPhoto(db, disk, route.id);
      } else if route.PutPhoto? {
        response := PutPhoto(route.id, staged);
      } else if route.SearchItem? {
        response := Search(db, Field(req.body, "id"), Field(req.body, "has_photo"));
      } else if route.MethodNotAllowed? {
        response := Response(405, Text("Method Not Allowed"));
      } else {
        response := Response(404, Text("Not Found"));
      }
    }
  }
}
