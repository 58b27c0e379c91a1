/**
 Serving a stored object by path (handleFileRead): a directory path gets
 "index.htm", a gzip-compressed sibling is preferred, and the MIME type comes
 from the path before the ".gz" suffix is added.
 */
module StaticFiles {
  import opened Http
  import opened ContentType

  /** The object served for a request path and the type it is sent with. */
  datatype Served = Served(path: string, mime: string, bytes: seq<byte>)

  /** A path ending in the separator names that directory's index page. */
  function ResolveIndex(path: string): (p: string)
    ensures EndsWith(path, "/") ==> p == path + "index.htm"
    ensures !EndsWith(path, "/") ==> p == path
    ensures !EndsWith(p, "/")
  {
    if EndsWith(path, "/") then
      var p := path + "index.htm";
      assert p[|p| - 1] == 'm';
      p
    else path
  }

  /**
   handleFileRead: None when nothing is served (the function returns false),
   otherwise the object streamed. `download` is whether the request carries
   a `download` argument.
   */
  function FileRead(store: Store, path: string, download: bool): (r: Option<Served>)
    ensures r.None? <==> ResolveIndex(path) !in store && ResolveIndex(path) + ".gz" !in store
    ensures r.Some? ==> r.value.path in store && r.value.bytes == store[r.value.path]
    ensures r.Some? ==> r.value.mime == GetContentType(ResolveIndex(path), download)
    ensures r.Some? && ResolveIndex(path) + ".gz" in store ==> r.value.path == ResolveIndex(path) + ".gz"
    ensures r.Some? && ResolveIndex(path) + ".gz" !in store ==> r.value.path == ResolveIndex(path)
  {
    var p := ResolveIndex(path);
    var mime := GetContentType(p, download);
    var gz := p + ".gz";
    if gz in store || p in store then
      var served := if gz in store then gz else p;
      Some(Served(served, mime, store[served]))
    else
      None
  }

  /**
   For a path not ending in the separator whose compressed variant is stored,
   the compressed bytes are served, typed by the uncompressed name.
   */
  lemma CompressedVariantPreferred(store: Store, path: string, download: bool)
    requires !EndsWith(path, "/") && path + ".gz" in store
    ensures FileRead(store, path, download) ==
            Some(Served(path + ".gz", GetContentType(path, download), store[path + ".gz"]))
  {
  }

  /** A compressed stylesheet keeps its stylesheet type; it is not sent as gzip. */
  lemma CompressedStylesheetType(store: Store)
    requires "/style.css.gz" in store
    ensures FileRead(store, "/style.css", false).Some?
    ensures FileRead(store, "/style.css", false).value.mime == "text/css"
    ensures FileRead(store, "/style.css", false).value.path == "/style.css.gz"
  {
    var f := "/style.css";
    assert !EndsWith(f, "/") by { assert f[|f| - 1] == 's'; }
    assert f[|f| - 4..] != ".htm";
    assert f[|f| - 5..] != ".html";
    assert f[|f| - 4..] == ".css";
    assert f + ".gz" == "/style.css.gz";
  }

  /** A directory request serves its index page, preferring "index.htm.gz". */
  lemma DirectoryServesIndex(store: Store, dir: string, download: bool)
    requires EndsWith(dir, "/")
    ensures FileRead(store, dir, download).Some? <==>
            dir + "index.htm" in store || dir + "index.htm.gz" in store
    ensures FileRead(store, dir, download).Some? ==>
            FileRead(store, dir, download).value.mime == GetContentType(dir + "index.htm", download)
  {
    assert dir + "index.htm" + ".gz" == dir + "index.htm.gz";
  }

  /**
   The reply of a handler that serves a path or else answers 404 FileNotFound
   (the not-found fallback and the GET /edit page).
   */
  function ServeOr404(store: Store, path: string, download: bool): (r: Reply)
    ensures r == NotFoundReply <==> FileRead(store, path, download).None?
    ensures r.Stream? <==> FileRead(store, path, download).Some?
    ensures r.Stream? ==> r.path in store && r.bytes == store[r.path]
                          && r.mime == GetContentType(ResolveIndex(path), download)
  {
    match FileRead(store, path, download)
    case Some(f) => Stream(f.path, f.mime, f.bytes)
    case None => NotFoundReply
  }
}
