/**
 The web server's route table as registered at start-up, exact (method, uri)
 lookup in registration order, and the not-found fallback that tries the
 flash store before answering 404.
 */
module Routes {
  import opened Http
  import opened StaticFiles
  import opened FileList
  import opened FileManager

  datatype Handler =
    | ListFiles      // GET /list
    | EditorPage     // GET /edit
    | CreateFile     // PUT /edit
    | DeleteFile     // DELETE /edit
    | UploadDone     // POST /edit, once the upload notifications are over
    | ConfigPage     // GET /config
    | AllStatus      // GET /all
    | DataStatus     // GET /data

  datatype Route = Route(verb: Method, uri: string, handler: Handler)

  /** The routes in the order they are registered. */
  const RouteTable: seq<Route> := [
    Route(Get, "/list", ListFiles),
    Route(Get, "/edit", EditorPage),
    Route(Put, "/edit", CreateFile),
    Route(Delete, "/edit", DeleteFile),
    Route(Post, "/edit", UploadDone),
    Route(Get, "/config", ConfigPage),
    Route(Get, "/all", AllStatus),
    Route(Get, "/data", DataStatus)
  ]

  predicate Matches(r: Route, verb: Method, uri: string) {
    r.verb == verb && r.uri == uri
  }

  /** The handler of the first route from index `k` on matching exactly, or None. */
  function LookupFrom(table: seq<Route>, k: nat, verb: Method, uri: string): (h: Option<Handler>)
    requires k <= |table|
    ensures h.None? <==> forall i :: k <= i < |table| ==> !Matches(table[i], verb, uri)
    ensures h.Some? ==> exists i :: k <= i < |table| && Matches(table[i], verb, uri)
                                    && table[i].handler == h.value
                                    && forall j :: k <= j < i ==> !Matches(table[j], verb, uri)
    decreases |table| - k
  {
    if k == |table| then None
    else if Matches(table[k], verb, uri) then Some(table[k].handler)
    else LookupFrom(table, k + 1, verb, uri)
  }

  /** The handler of the first route matching exactly, or None for the not-found fallback. */
  function Lookup(table: seq<Route>, verb: Method, uri: string): (h: Option<Handler>)
    ensures h.None? <==> forall i :: 0 <= i < |table| ==> !Matches(table[i], verb, uri)
    ensures h.Some? ==> exists i :: 0 <= i < |table| && Matches(table[i], verb, uri)
                                    && table[i].handler == h.value
                                    && forall j :: 0 <= j < i ==> !Matches(table[j], verb, uri)
  {
    LookupFrom(table, 0, verb, uri)
  }

  /** The (method, uri) pairs the firmware registers. */
  const Registered: set<(Method, string)> := {
    (Get, "/list"), (Get, "/edit"), (Put, "/edit"), (Delete, "/edit"),
    (Post, "/edit"), (Get, "/config"), (Get, "/all"), (Get, "/data")
  }

  /** The registered pairs are distinct, so registration order does not decide anything. */
  lemma RoutesDistinct()
    ensures forall i, j :: 0 <= i < j < |RouteTable| ==>
              !(RouteTable[i].verb == RouteTable[j].verb && RouteTable[i].uri == RouteTable[j].uri)
  {
  }

  /** Every registered pair has its route in the table. */
  lemma RegisteredRouted(verb: Method, uri: string)
    requires (verb, uri) in Registered
    ensures exists i :: 0 <= i < |RouteTable| && Matches(RouteTable[i], verb, uri)
  {
    var t := RouteTable;
    if (verb, uri) == (Get, "/list") { assert Matches(t[0], verb, uri); }
    else if (verb, uri) == (Get, "/edit") { assert Matches(t[1], verb, uri); }
    else if (verb, uri) == (Put, "/edit") { assert Matches(t[2], verb, uri); }
    else if (verb, uri) == (Delete, "/edit") { assert Matches(t[3], verb, uri); }
    else if (verb, uri) == (Post, "/edit") { assert Matches(t[4], verb, uri); }
    else if (verb, uri) == (Get, "/config") { assert Matches(t[5], verb, uri); }
    else if (verb, uri) == (Get, "/all") { assert Matches(t[6], verb, uri); }
    else { assert Matches(t[7], verb, uri); }
  }

  /** The (method, uri) pair each handler is registered under. */
  function RouteOf(h: Handler): (Method, string) {
    match h
    case ListFiles => (Get, "/list")
    case EditorPage => (Get, "/edit")
    case CreateFile => (Put, "/edit")
    case DeleteFile => (Delete, "/edit")
    case UploadDone => (Post, "/edit")
    case ConfigPage => (Get, "/config")
    case AllStatus => (Get, "/all")
    case DataStatus => (Get, "/data")
  }

  /** Each route of the table is registered, under the pair RouteOf gives its handler. */
  lemma RouteAt(i: int)
    requires 0 <= i < |RouteTable|
    ensures RouteOf(RouteTable[i].handler) == (RouteTable[i].verb, RouteTable[i].uri)
    ensures (RouteTable[i].verb, RouteTable[i].uri) in Registered
  {
    if i == 0 { assert RouteTable[0] == Route(Get, "/list", ListFiles); }
    else if i == 1 { assert RouteTable[1] == Route(Get, "/edit", EditorPage); }
    else if i == 2 { assert RouteTable[2] == Route(Put, "/edit", CreateFile); }
    else if i == 3 { assert RouteTable[3] == Route(Delete, "/edit", DeleteFile); }
    else if i == 4 { assert RouteTable[4] == Route(Post, "/edit", UploadDone); }
    else if i == 5 { assert RouteTable[5] == Route(Get, "/config", ConfigPage); }
    else if i == 6 { assert RouteTable[6] == Route(Get, "/all", AllStatus); }
    else { assert RouteTable[7] == Route(Get, "/data", DataStatus); }
  }

  /** The handler a request reaches determines its method and uri: each handler has one route. */
  lemma HandlerDeterminesRoute(verb: Method, uri: string, h: Handler)
    requires Lookup(RouteTable, verb, uri) == Some(h)
    ensures (verb, uri) == RouteOf(h)
  {
    var i :| 0 <= i < |RouteTable| && Matches(RouteTable[i], verb, uri) && RouteTable[i].handler == h;
    RouteAt(i);
  }

  /** Lookup is exact: a request reaches a registered handler exactly when its pair is registered. */
  lemma LookupIsExact(verb: Method, uri: string)
    ensures Lookup(RouteTable, verb, uri).Some? <==> (verb, uri) in Registered
  {
    if (verb, uri) in Registered {
      RegisteredRouted(verb, uri);
    } else {
      forall i | 0 <= i < |RouteTable| ensures !Matches(RouteTable[i], verb, uri) {
        RouteAt(i);
      }
    }
  }

  /**
   One request against the store: the reply and the store afterwards.
   `openOk` and `removeOk` are the flash store's answers to a create and a
   remove, `entries` what its directory iterator yields for a listing.
   */
  function Dispatch(store: Store, req: Request, openOk: bool, removeOk: bool, entries: seq<string>): (r: Outcome)
    ensures Lookup(RouteTable, req.verb, req.uri).None? ==>
              r == Outcome(ServeOr404(store, req.uri, HasArg(req.args, "download")), store)
    ensures r.store != store ==> req.uri == "/edit" && (req.verb == Put || req.verb == Delete)
  {
    var download := HasArg(req.args, "download");
    match Lookup(RouteTable, req.verb, req.uri)
    case None => Outcome(ServeOr404(store, req.uri, download), store)
    case Some(h) =>
      HandlerDeterminesRoute(req.verb, req.uri, h);
      match h
      case ListFiles => Outcome(ListReply(req.args, entries), store)
      case EditorPage => Outcome(ServeOr404(store, "/edit.htm", download), store)
      case CreateFile => FileCreate(store, req.args, openOk)
      case DeleteFile => FileDelete(store, req.args, removeOk)
      case UploadDone => Outcome(Done, store)
      case ConfigPage => Outcome(Send(200, "text/json", "config"), store)
      case AllStatus => Outcome(StatusJson, store)
      case DataStatus => Outcome(StatusJson, store)
  }

  /** GET /edit serves the editor page "/edit.htm" under the same 404 rule as the fallback. */
  lemma EditorPageServed(store: Store, args: seq<Arg>, openOk: bool, removeOk: bool, entries: seq<string>)
    ensures Dispatch(store, Request(Get, "/edit", args), openOk, removeOk, entries) ==
            Outcome(ServeOr404(store, "/edit.htm", HasArg(args, "download")), store)
    ensures Dispatch(store, Request(Get, "/edit", args), openOk, removeOk, entries).reply == NotFoundReply <==>
            "/edit.htm" !in store && "/edit.htm.gz" !in store
  {
    assert Matches(RouteTable[1], Get, "/edit");
    assert !Matches(RouteTable[0], Get, "/edit");
    var p := "/edit.htm";
    assert !EndsWith(p, "/") by { assert p[|p| - 1] == 'm'; }
    assert p + ".gz" == "/edit.htm.gz";
  }

  /** An unregistered request for a missing object is answered 404 FileNotFound, store untouched. */
  lemma UnmatchedMissingIs404(store: Store, req: Request, openOk: bool, removeOk: bool, entries: seq<string>)
    requires (req.verb, req.uri) !in Registered
    requires ResolveIndex(req.uri) !in store && ResolveIndex(req.uri) + ".gz" !in store
    ensures Dispatch(store, req, openOk, removeOk, entries) == Outcome(NotFoundReply, store)
  {
    LookupIsExact(req.verb, req.uri);
  }

  /** A method the table does not register for a path, such as POST /list, falls back to the store. */
  lemma WrongMethodFallsBack(store: Store, args: seq<Arg>, openOk: bool, removeOk: bool, entries: seq<string>)
    ensures Dispatch(store, Request(Post, "/list", args), openOk, removeOk, entries) ==
            Outcome(ServeOr404(store, "/list", HasArg(args, "download")), store)
  {
    LookupIsExact(Post, "/list");
    assert (Post, "/list") !in Registered;
  }

  /** GET /list with a `dir` argument reaches handleFileList and answers the listing document. */
  lemma ListRouteReply(store: Store, args: seq<Arg>, openOk: bool, removeOk: bool, entries: seq<string>)
    requires HasArg(args, "dir")
    ensures Dispatch(store, Request(Get, "/list", args), openOk, removeOk, entries) ==
            Outcome(Send(200, "text/json", ListJson(entries)), store)
  {
    assert Matches(RouteTable[0], Get, "/list");
  }

  /**
   GET /list with a `dir` argument lists the directory that argument names:
   with the store's iterator over that directory, the reply is the listing
   document, every listed object is that of a stored path under the
   directory, and every such path is listed. The store is untouched.
   */
  lemma ListRouteListsDir(store: Store, args: seq<Arg>, openOk: bool, removeOk: bool, entries: seq<string>)
    requires HasArg(args, "dir")
    requires DirListing(store, ArgValue(args, "dir"), entries)
    ensures Dispatch(store, Request(Get, "/list", args), openOk, removeOk, entries) ==
            Outcome(Send(200, "text/json", ListJson(entries)), store)
    ensures forall i :: 0 <= i < |entries| ==>
              entries[i] in store && StartsWith(entries[i], ArgValue(args, "dir"))
              && EntriesJson(entries)[i] == EntryJson(entries[i])
    ensures forall p :: p in store && StartsWith(p, ArgValue(args, "dir")) ==>
              exists i :: 0 <= i < |entries| && entries[i] == p && EntriesJson(entries)[i] == EntryJson(p)
  {
    ListRouteReply(store, args, openOk, removeOk, entries);
    ListingCoversDirectory(store, ArgValue(args, "dir"), entries);
  }

  /**
   On an empty store, PUT /edit?path=/a.txt creates the file, after which
   GET /list?dir=/ lists exactly that one file.
   */
  lemma CreateThenList(openOk: bool, removeOk: bool, entries: seq<string>)
    requires DirListing(map["/a.txt" := []], "/", entries)
    ensures var created := Dispatch(map[], Request(Put, "/edit", [Arg("path", "/a.txt")]), true, true, []);
            && created == Outcome(Done, map["/a.txt" := []])
            && Dispatch(created.store, Request(Get, "/list", [Arg("dir", "/")]), openOk, removeOk, entries) ==
               Outcome(Send(200, "text/json", "[" + EntryJson("/a.txt") + "]"), created.store)
  {
    assert Matches(RouteTable[2], Put, "/edit") && !Matches(RouteTable[1], Put, "/edit");
    assert !Matches(RouteTable[0], Put, "/edit");
    assert Matches(RouteTable[0], Get, "/list");
    assert HasArg([Arg("dir", "/")], "dir") by {
      assert [Arg("dir", "/")][0].key == "dir";
    }
    SingleFileListing(entries, []);
  }
}
