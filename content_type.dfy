/**
 The MIME type a served file is sent with: an ordered chain of suffix tests,
 overridden by the `download` request argument.
 */
module ContentType {
  import opened Http

  const OctetStream := "application/octet-stream"
  const DefaultType := "text/plain"

  /** The suffix tests in the order the firmware tries them. */
  const SuffixTable: seq<(string, string)> := [
    (".htm", "text/html"),
    (".html", "text/html"),
    (".css", "text/css"),
    (".js", "application/javascript"),
    (".png", "image/png"),
    (".gif", "image/gif"),
    (".jpg", "image/jpeg"),
    (".ico", "image/x-icon"),
    (".xml", "text/xml"),
    (".pdf", "application/x-pdf"),
    (".zip", "application/x-zip"),
    (".gz", "application/x-gzip")
  ]

  /** The MIME type of the first entry of `table`, from index `k` on, whose suffix ends `filename`. */
  function FirstMatch(table: seq<(string, string)>, k: nat, filename: string): Option<string>
    requires k <= |table|
    decreases |table| - k
  {
    if k == |table| then None
    else if EndsWith(filename, table[k].0) then Some(table[k].1)
    else FirstMatch(table, k + 1, filename)
  }

  /** getContentType: `download` stands for the request carrying a `download` argument. */
  function GetContentType(filename: string, download: bool): (r: string)
    ensures download ==> r == OctetStream
    ensures r == OctetStream ==> download
    ensures !download && !EndsWith(filename, ".htm") && !EndsWith(filename, ".html")
            && !EndsWith(filename, ".css") && !EndsWith(filename, ".js")
            && !EndsWith(filename, ".png") && !EndsWith(filename, ".gif")
            && !EndsWith(filename, ".jpg") && !EndsWith(filename, ".ico")
            && !EndsWith(filename, ".xml") && !EndsWith(filename, ".pdf")
            && !EndsWith(filename, ".zip") && !EndsWith(filename, ".gz")
            ==> r == DefaultType
  {
    if download then "application/octet-stream"
    else if EndsWith(filename, ".htm") then "text/html"
    else if EndsWith(filename, ".html") then "text/html"
    else if EndsWith(filename, ".css") then "text/css"
    else if EndsWith(filename, ".js") then "application/javascript"
    else if EndsWith(filename, ".png") then "image/png"
    else if EndsWith(filename, ".gif") then "image/gif"
    else if EndsWith(filename, ".jpg") then "image/jpeg"
    else if EndsWith(filename, ".ico") then "image/x-icon"
    else if EndsWith(filename, ".xml") then "text/xml"
    else if EndsWith(filename, ".pdf") then "application/x-pdf"
    else if EndsWith(filename, ".zip") then "application/x-zip"
    else if EndsWith(filename, ".gz") then "application/x-gzip"
    else "text/plain"
  }

  /** Without `download`, the type is that of the first matching suffix of the table, else text/plain. */
  lemma ContentTypeIsFirstMatch(filename: string)
    ensures GetContentType(filename, false) ==
            match FirstMatch(SuffixTable, 0, filename)
            case Some(t) => t
            case None => DefaultType
  {
    var t, f := SuffixTable, filename;
    assert FirstMatch(t, 11, f) == if EndsWith(f, ".gz") then Some("application/x-gzip") else None;
    assert FirstMatch(t, 10, f) == if EndsWith(f, ".zip") then Some("application/x-zip") else FirstMatch(t, 11, f);
    assert FirstMatch(t, 9, f) == if EndsWith(f, ".pdf") then Some("application/x-pdf") else FirstMatch(t, 10, f);
    assert FirstMatch(t, 8, f) == if EndsWith(f, ".xml") then Some("text/xml") else FirstMatch(t, 9, f);
    assert FirstMatch(t, 7, f) == if EndsWith(f, ".ico") then Some("image/x-icon") else FirstMatch(t, 8, f);
    assert FirstMatch(t, 6, f) == if EndsWith(f, ".jpg") then Some("image/jpeg") else FirstMatch(t, 7, f);
    assert FirstMatch(t, 5, f) == if EndsWith(f, ".gif") then Some("image/gif") else FirstMatch(t, 6, f);
    assert FirstMatch(t, 4, f) == if EndsWith(f, ".png") then Some("image/png") else FirstMatch(t, 5, f);
    assert FirstMatch(t, 3, f) == if EndsWith(f, ".js") then Some("application/javascript") else FirstMatch(t, 4, f);
    assert FirstMatch(t, 2, f) == if EndsWith(f, ".css") then Some("text/css") else FirstMatch(t, 3, f);
    assert FirstMatch(t, 1, f) == if EndsWith(f, ".html") then Some("text/html") else FirstMatch(t, 2, f);
    assert FirstMatch(t, 0, f) == if EndsWith(f, ".htm") then Some("text/html") else FirstMatch(t, 1, f);
  }

  /** A name ending in ".html" also ends in "html" but not ".htm": the second test catches it. */
  lemma HtmlIsHtml(filename: string)
    requires EndsWith(filename, ".html")
    ensures GetContentType(filename, false) == "text/html"
  {
    assert !EndsWith(filename, ".htm") by {
      assert filename[|filename| - 1] == 'l';
    }
  }

  /** A ".gz" name is typed by its last suffix only: "x.js.gz" is gzip, not javascript. */
  lemma GzipByLastSuffix()
    ensures GetContentType("/x.js.gz", false) == "application/x-gzip"
    ensures GetContentType("/x.js.gz", true) == OctetStream
  {
    var f := "/x.js.gz";
    assert f[|f| - 4..] != ".htm";
    assert f[|f| - 5..] != ".html";
    assert f[|f| - 4..] != ".css";
    assert f[|f| - 3..] != ".js";
    assert f[|f| - 4..] != ".png";
    assert f[|f| - 4..] != ".gif";
    assert f[|f| - 4..] != ".jpg";
    assert f[|f| - 4..] != ".ico";
    assert f[|f| - 4..] != ".xml";
    assert f[|f| - 4..] != ".pdf";
    assert f[|f| - 4..] != ".zip";
    assert f[|f| - 3..] == ".gz";
  }
}
