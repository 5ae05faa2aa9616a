/** Request dispatch: which handler a (method, path) pair reaches, and the two
    fallback middlewares that answer everything else (main.js:63-194). */
module Routing {
  import opened Wrappers

  /** `s.split('/')`: the pieces between slashes, empty ones included. */
  function Split(s: string): (parts: seq<string>)
    ensures |parts| >= 1
    ensures forall k | 0 <= k < |parts| :: '/' !in parts[k]
    ensures Join(parts) == s
  {
    if |s| == 0 then [""]
    else
      var rest := Split(s[1..]);
      if s[0] == '/' then
        assert ([""] + rest)[1..] == rest;
        [""] + rest
      else
        var parts := [[s[0]] + rest[0]] + rest[1..];
        assert parts[1..] == rest[1..];
        assert s == [s[0]] + s[1..];
        parts
  }

  /** `parts.join('/')`. */
  function Join(parts: seq<string>): string
    requires |parts| >= 1
  {
    if |parts| == 1 then parts[0] else parts[0] + "/" + Join(parts[1..])
  }

  /** A string without a slash splits into itself. */
  lemma {:induction false} SplitNoSlash(a: string)
    requires '/' !in a
    ensures Split(a) == [a]
  {
    if |a| > 0 {
      assert '/' !in a[1..] by {
        forall k | 0 <= k < |a[1..]| ensures a[1..][k] != '/' { assert a[1..][k] == a[k + 1]; }
      }
      SplitNoSlash(a[1..]);
      assert a == [a[0]] + a[1..];
    }
  }

  /** A slash-free head and a slash split off at the first slash. */
  lemma {:induction false} SplitAtSlash(a: string, t: string)
    requires '/' !in a
    ensures Split(a + "/" + t) == [a] + Split(t)
  {
    if |a| == 0 {
      assert a + "/" + t == ['/'] + t;
      assert (['/'] + t)[1..] == t;
    } else {
      var s := a + "/" + t;
      assert s[1..] == a[1..] + "/" + t;
      assert '/' !in a[1..] by {
        forall k | 0 <= k < |a[1..]| ensures a[1..][k] != '/' { assert a[1..][k] == a[k + 1]; }
      }
      SplitAtSlash(a[1..], t);
      assert a == [a[0]] + a[1..];
    }
  }

  /** Splitting undoes joining pieces that hold no slash. */
  lemma {:induction false} SplitJoin(parts: seq<string>)
    requires |parts| >= 1
    requires forall k | 0 <= k < |parts| :: '/' !in parts[k]
    ensures Split(Join(parts)) == parts
  {
    if |parts| == 1 {
      SplitNoSlash(parts[0]);
    } else {
      SplitJoin(parts[1..]);
      SplitAtSlash(parts[0], Join(parts[1..]));
      assert parts == [parts[0]] + parts[1..];
    }
  }

  /** `req.path.split('/')[1]`: `undefined` when the path has no slash. */
  function FirstSegment(path: string): Option<string> {
    var parts := Split(path);
    if |parts| > 1 then Some(parts[1]) else None
  }

  const KNOWN_PATHS: seq<string> := ["/inventory", "/register", "/search"]

  /** `knownPaths.includes('/' + pathBase)`, where `'/' + undefined` is
      `'/undefined'`. */
  predicate IsKnownRoot(segment: Option<string>) {
    "/" + segment.GetOr("undefined") in KNOWN_PATHS
  }

  /** `'/' + s` is a known path exactly when `s` is the path without its slash. */
  lemma {:induction false} KnownRootPrefix(s: string)
    ensures "/" + s in KNOWN_PATHS <==> s in {"inventory", "register", "search"}
  {
    var p := "/" + s;
    assert p[1..] == s;
    if p in KNOWN_PATHS {
      assert p == "/inventory" || p == "/register" || p == "/search";
      assert "/inventory"[1..] == "inventory";
      assert "/register"[1..] == "register";
      assert "/search"[1..] == "search";
    }
    assert "/" + "inventory" == "/inventory";
    assert "/" + "register" == "/register";
    assert "/" + "search" == "/search";
  }

  predicate IsHandledMethod(verb: string) {
    verb == "GET" || verb == "POST" || verb == "PUT" || verb == "DELETE"
  }

  /** The two fallback middlewares (main.js:182-194): a known resource root with
      a method other than GET, POST, PUT and DELETE gets 405, anything else 404. */
  function Fallback(path: string, verb: string): (r: Route)
    ensures r.MethodNotAllowed? || r.NotFound?
    ensures r.MethodNotAllowed? <==>
              FirstSegment(path) in {Some("inventory"), Some("register"), Some("search")} &&
              !IsHandledMethod(verb)
  {
    var segment := FirstSegment(path);
    assert IsKnownRoot(segment) <==>
           segment in {Some("inventory"), Some("register"), Some("search")} by {
      if segment.Some? {
        KnownRootPrefix(segment.value);
      } else {
        assert "/undefined"[1] != "/inventory"[1];
      }
    }
    if IsKnownRoot(segment) && !IsHandledMethod(verb) then MethodNotAllowed else NotFound
  }

  /** What the router does with a request. */
  datatype Route =
    | ListItems
    | RegisterItem
    | GetItem(id: string)
    | UpdateItem(id: string)
    | DeleteItem(id: string)
    | GetPhoto(id: string)
    | PutPhoto(id: string)
    | SearchItem
    | MethodNotAllowed
    | NotFound

  /** The routes whose handler may change the store or the upload directory. */
  predicate Mutates(route: Route) {
    route.RegisterItem? || route.UpdateItem? || route.DeleteItem? || route.PutPhoto?
  }

  /** The routes that stage an uploaded `photo` before their handler runs. */
  predicate Uploads(route: Route) {
    route.RegisterItem? || route.PutPhoto?
  }

  /** A route registered with `app.get` also answers HEAD requests. */
  predicate GetLike(verb: string) {
    verb == "GET" || verb == "HEAD"
  }

  /** The path split into segments, less the one trailing slash that non-strict
      routing ignores. */
  function Segments(path: string): (parts: seq<string>)
    ensures |parts| >= 1
  {
    var parts := Split(path);
    if |parts| >= 2 && parts[|parts| - 1] == "" then parts[..|parts| - 1] else parts
  }

  /** The route table in registration order (main.js:63-179), then the
      fallbacks. Route parameters match one non-empty segment. */
  function Match(verb: string, path: string): (r: Route)
    ensures r.ListItems? ==> GetLike(verb) && Segments(path) == ["", "inventory"]
    ensures r.RegisterItem? ==> verb == "POST" && Segments(path) == ["", "register"]
    ensures r.GetItem? ==> GetLike(verb) && r.id != "" && Segments(path) == ["", "inventory", r.id]
    ensures r.UpdateItem? ==> verb == "PUT" && r.id != "" && Segments(path) == ["", "inventory", r.id]
    ensures r.DeleteItem? ==> verb == "DELETE" && r.id != "" && Segments(path) == ["", "inventory", r.id]
    ensures r.GetPhoto? ==>
              GetLike(verb) && r.id != "" && Segments(path) == ["", "inventory", r.id, "photo"]
    ensures r.PutPhoto? ==>
              verb == "PUT" && r.id != "" && Segments(path) == ["", "inventory", r.id, "photo"]
    ensures r.SearchItem? ==> verb == "POST" && Segments(path) == ["", "search"]
    ensures r.MethodNotAllowed? || r.NotFound? ==> r == Fallback(path, verb)
  {
    var p := Segments(path);
    if |p| == 2 && p[0] == "" && p[1] == "inventory" && GetLike(verb) then ListItems
    else if |p| == 2 && p[0] == "" && p[1] == "register" && verb == "POST" then RegisterItem
    else if |p| == 3 && p[0] == "" && p[1] == "inventory" && p[2] != "" && GetLike(verb) then GetItem(p[2])
    else if |p| == 3 && p[0] == "" && p[1] == "inventory" && p[2] != "" && verb == "PUT" then UpdateItem(p[2])
    else if |p| == 3 && p[0] == "" && p[1] == "inventory" && p[2] != "" && verb == "DELETE" then DeleteItem(p[2])
    else if |p| == 4 && p[0] == "" && p[1] == "inventory" && p[2] != "" && p[3] == "photo" && GetLike(verb) then GetPhoto(p[2])
    else if |p| == 4 && p[0] == "" && p[1] == "inventory" && p[2] != "" && p[3] == "photo" && verb == "PUT" then PutPhoto(p[2])
    else if |p| == 2 && p[0] == "" && p[1] == "search" && verb == "POST" then SearchItem
    else Fallback(path, verb)
  }

  /** 405 is answered exactly for an unsupported method on a known resource
      root; a supported method never gets it. */
  lemma {:induction false} MethodNotAllowedExactly(verb: string, path: string)
    ensures IsHandledMethod(verb) ==> !Match(verb, path).MethodNotAllowed?
    ensures !IsHandledMethod(verb) && verb != "HEAD" ==>
              (Match(verb, path).MethodNotAllowed? <==>
               FirstSegment(path) in {Some("inventory"), Some("register"), Some("search")})
  {
  }

  /** GET and HEAD requests never reach a handler that changes the store or
      the upload directory, and only POST and PUT reach an upload route. */
  lemma {:induction false} ReadsNeverMutate(verb: string, path: string)
    ensures GetLike(verb) ==> !Mutates(Match(verb, path))
    ensures Uploads(Match(verb, path)) ==> verb == "POST" || verb == "PUT"
  {
  }

  /** The paths built from a slash-free segment split back into their pieces. */
  lemma {:induction false} SplitRoot(id: string)
    requires '/' !in id
    ensures Split("/" + id) == ["", id]
  {
    assert Join(["", id]) == "" + "/" + id;
    SplitJoin(["", id]);
  }

  lemma {:induction false} SplitItemPath(id: string)
    requires '/' !in id
    ensures Split("/inventory/" + id) == ["", "inventory", id]
  {
    var item := ["", "inventory", id];
    assert Join(item[1..]) == "inventory" + "/" + id by {
      assert item[1..] == ["inventory", id] && item[1..][1..] == [id];
    }
    assert Join(item) == "/inventory/" + id;
    SplitJoin(item);
  }

  lemma {:induction false} SplitPhotoPath(id: string)
    requires '/' !in id
    ensures Split("/inventory/" + id + "/photo") == ["", "inventory", id, "photo"]
  {
    var photo := ["", "inventory", id, "photo"];
    assert Join(photo[1..][1..]) == id + "/" + "photo" by {
      assert photo[1..][1..] == [id, "photo"] && photo[1..][1..][1..] == ["photo"];
    }
    assert Join(photo) == "" + "/" + ("inventory" + "/" + (id + "/" + "photo"));
    assert Join(photo) == "/inventory/" + id + "/photo";
    SplitJoin(photo);
  }

  /** The photo URL's path reaches the photo routes of the same record. */
  lemma {:induction false} PhotoPathRoutes(id: string)
    requires id != "" && '/' !in id
    ensures Match("GET", "/inventory/" + id + "/photo") == GetPhoto(id)
    ensures Match("PUT", "/inventory/" + id + "/photo") == PutPhoto(id)
  {
    SplitPhotoPath(id);
    assert Segments("/inventory/" + id + "/photo") == ["", "inventory", id, "photo"];
  }

  /** The item path reaches the item routes of the same record. */
  lemma {:induction false} ItemPathRoutes(id: string)
    requires id != "" && '/' !in id
    ensures Match("GET", "/inventory/" + id) == GetItem(id)
    ensures Match("PUT", "/inventory/" + id) == UpdateItem(id)
    ensures Match("DELETE", "/inventory/" + id) == DeleteItem(id)
  {
    SplitItemPath(id);
    assert Segments("/inventory/" + id) == ["", "inventory", id];
  }

  /** A resource root `"/" + root` reaches the collection route of that root. */
  lemma {:induction false} RootRoutes(root: string)
    requires root in {"inventory", "register", "search"}
    ensures root == "inventory" ==> Match("GET", "/" + root) == ListItems
    ensures root == "register" ==> Match("POST", "/" + root) == RegisterItem
    ensures root == "search" ==> Match("POST", "/" + root) == SearchItem
  {
    SplitRoot(root);
    assert Segments("/" + root) == ["", root];
  }
}
