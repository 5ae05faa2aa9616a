/** The read-only handlers: the JSON (or file) each of them answers with, as a
    pure function of the record store and the upload directory
    (main.js:63-73, 94-103, 128-142, 161-179). */
module Responses {
  import opened Wrappers
  import opened Records

  const HOST := "localhost"
  const PORT := "3000"
  const NO_PHOTO_TEXT := "No photo available"

  /** A JSON object with a message and possibly an item, a listing, or a file. */
  datatype Body =
    | Message(message: string)
    | ItemMessage(message: string, item: Record)
    | Listing(count: nat, items: seq<ListEntry>)
      /** An item fetched by id; `photoUrl` is `None` when the key is absent. */
    | ItemView(item: Record, photoUrl: Option<string>)
      /** A search hit; `photoLink` is `None` when the key is absent. */
    | SearchView(item: Record, photoLink: Option<string>)
    | PhotoFile(file: FileName)
      /** A plain-text body sent with `res.send`. */
    | Text(text: string)

  /** An entry of the listing; `photoUrl` is `None` when it is JSON `null`. */
  datatype ListEntry = ListEntry(item: Record, photoUrl: Option<string>)

  datatype Response = Response(status: nat, body: Body)

  /** The path of the photo route of a record. */
  function PhotoPath(id: string): string {
    "/inventory/" + id + "/photo"
  }

  /** The absolute URL of the photo route of a record (main.js:68, 100, 172). */
  function PhotoUrl(id: string): string {
    "http://" + HOST + ":" + PORT + PhotoPath(id)
  }

  /** Different ids give different photo URLs. */
  lemma {:induction false} PhotoUrlInjective(a: string, b: string)
    requires PhotoUrl(a) == PhotoUrl(b)
    ensures a == b
  {
    var prefix := "http://" + HOST + ":" + PORT + "/inventory/";
    assert PhotoUrl(a) == prefix + a + "/photo";
    assert PhotoUrl(b) == prefix + b + "/photo";
    assert a == PhotoUrl(a)[|prefix|..|prefix| + |a|];
    assert b == PhotoUrl(b)[|prefix|..|prefix| + |b|];
  }

  /** The photo URL of a record when it has a photo. */
  function UrlOf(item: Record): (url: Option<string>)
    ensures url.Some? <==> item.photo.Some?
    ensures url.Some? ==> url.value == PhotoUrl(item.id)
  {
    if item.photo.Some? then Some(PhotoUrl(item.id)) else None
  }

  /** GET /inventory (main.js:63-73). */
  function ListAll(db: seq<Record>): (r: Response)
    ensures r.status == 200 && r.body.Listing?
    ensures r.body.count == |db| == |r.body.items|
    ensures forall k | 0 <= k < |db| :: r.body.items[k].item == db[k]
    ensures forall k | 0 <= k < |db| ::
              (r.body.items[k].photoUrl.Some? <==> db[k].photo.Some?) &&
              (db[k].photo.Some? ==> r.body.items[k].photoUrl.value == PhotoUrl(db[k].id))
  {
    var items := seq(|db|, k requires 0 <= k < |db| => ListEntry(db[k], UrlOf(db[k])));
    Response(200, Listing(|items|, items))
  }

  /** GET /inventory/:id (main.js:94-103). */
  function GetItem(db: seq<Record>, id: string): (r: Response)
    ensures r.status == 404 <==> forall k | 0 <= k < |db| :: db[k].id != id
    ensures r.status == 404 ==> r.body == Message("Not Found")
    ensures r.status != 404 ==>
              r.status == 200 && r.body.ItemView? && Find(db, id) == Some(r.body.item) &&
              r.body.item.id == id &&
              (r.body.photoUrl.Some? <==> r.body.item.photo.Some?) &&
              (r.body.photoUrl.Some? ==> r.body.photoUrl.value == PhotoUrl(id))
  {
    match Find(db, id)
    case None => Response(404, Message("Not Found"))
    case Some(item) => Response(200, ItemView(item, UrlOf(item)))
  }

  /** GET /inventory/:id/photo (main.js:128-142): the file is served only when
      the record exists, has a photo and that file is still on disk. */
  function ReadPhoto(db: seq<Record>, disk: set<FileName>, id: string): (r: Response)
    ensures r.status == 200 <==>
              Find(db, id).Some? && Find(db, id).value.photo.Some? &&
              Find(db, id).value.photo.value in disk
    ensures r.status == 200 ==> r.body == PhotoFile(Find(db, id).value.photo.value)
    ensures r.status != 200 ==> r.status == 404 && r.body.Message?
    ensures Find(db, id).None? || Find(db, id).value.photo.None? ==>
              r.body == Message("Not found or no photo")
    ensures Find(db, id).Some? && Find(db, id).value.photo.Some? &&
            Find(db, id).value.photo.value !in disk ==>
              r == Response(404, Message("Photo file missing on disk"))
  {
    match Find(db, id)
    case None => Response(404, Message("Not found or no photo"))
    case Some(item) =>
      match item.photo
      case None => Response(404, Message("Not found or no photo"))
      case Some(file) =>
        if file in disk then Response(200, PhotoFile(file))
        else Response(404, Message("Photo file missing on disk"))
  }

  /** `has_photo === 'on' || has_photo === 'true'` (main.js:170). */
  predicate WantsPhoto(hasPhoto: Option<string>) {
    hasPhoto == Some("on") || hasPhoto == Some("true")
  }

  /** POST /search (main.js:161-179). An absent `id` field matches no record,
      since every stored id is a string. */
  function Search(db: seq<Record>, id: Option<string>, hasPhoto: Option<string>): (r: Response)
    ensures r.status == 404 <==> id.None? || forall k | 0 <= k < |db| :: db[k].id != id.value
    ensures r.status == 404 ==> r.body == Message("Not Found")
    ensures r.status != 404 ==>
              r.status == 200 && r.body.SearchView? && Find(db, id.value) == Some(r.body.item) &&
              (r.body.photoLink.Some? <==> WantsPhoto(hasPhoto))
    ensures r.status != 404 && r.body.photoLink.Some? ==>
              r.body.photoLink.value ==
                if r.body.item.photo.Some? then PhotoUrl(id.value) else NO_PHOTO_TEXT
  {
    if id.None? then Response(404, Message("Not Found"))
    else
      match Find(db, id.value)
      case None => Response(404, Message("Not Found"))
      case Some(item) =>
        var link :=
          if !WantsPhoto(hasPhoto) then None
          else if item.photo.Some? then Some(PhotoUrl(item.id))
          else Some(NO_PHOTO_TEXT);
        Response(200, SearchView(item, link))
  }
}
