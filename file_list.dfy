/**
 The directory listing (handleFileList): a JSON array, built by hand, with one
 {"type","name"} object per stored file whose path starts with the requested
 directory.
 */
module FileList {
  import opened Http

  /**
   The flash store lists a directory by prefix: `entries` is what its
   directory iterator yields for `dir` when it yields every stored path that
   starts with `dir`, each once.
   */
  ghost predicate DirListing(store: Store, dir: string, entries: seq<string>) {
    forall p :: multiset(entries)[p] == if p in store && StartsWith(p, dir) then 1 else 0
  }

  /** The firmware never reports directories. */
  const IsDir := false

  /** The name shown for a stored path: the path without its first character. */
  function DisplayName(path: string): (n: string)
    ensures |path| > 0 ==> path == [path[0]] + n
    ensures |path| == 0 ==> n == ""
  {
    if |path| == 0 then "" else path[1..]
  }

  /** The text of an object before its type, and between its type and its name. */
  const TypeKey := "{\"type\":\""
  const NameKey := "\",\"name\":\""
  /** The text of an object up to its name: every entry is typed "file". */
  const EntryHead := TypeKey + "file" + NameKey
  /** The text that closes an object after its name. */
  const EntryTail := "\"}"

  /** The JSON object for one listed file. */
  function EntryJson(path: string): (e: string)
    ensures e == EntryHead + DisplayName(path) + EntryTail
  {
    TypeKey + (if IsDir then "dir" else "file") + NameKey + DisplayName(path) + EntryTail
  }

  /**
   Every listed object is typed "file" and carries the display name between
   a fixed head and tail, so the name can be read back from the object.
   */
  lemma EntryJsonParts(path: string)
    ensures var e := EntryJson(path);
            && |e| == |EntryHead| + |DisplayName(path)| + |EntryTail|
            && e[..|EntryHead|] == EntryHead
            && e[|EntryHead|..|e| - |EntryTail|] == DisplayName(path)
            && e[|e| - |EntryTail|..] == EntryTail
  {
    var e := EntryJson(path);
    var n := DisplayName(path);
    assert e == EntryHead + n + EntryTail;
    assert e[..|EntryHead|] == EntryHead;
    assert e[|EntryHead|..|e| - |EntryTail|] == n;
  }

  /** The elements of `parts` separated by commas. */
  function JoinCommas(parts: seq<string>): string {
    if |parts| == 0 then ""
    else if |parts| == 1 then parts[0]
    else parts[0] + "," + JoinCommas(parts[1..])
  }

  function EntriesJson(entries: seq<string>): (r: seq<string>)
    ensures |r| == |entries|
    ensures forall i :: 0 <= i < |entries| ==> r[i] == EntryJson(entries[i])
  {
    if |entries| == 0 then [] else [EntryJson(entries[0])] + EntriesJson(entries[1..])
  }

  /** The listing document: "[" + the entries' objects separated by commas + "]". */
  function ListJson(entries: seq<string>): string {
    "[" + JoinCommas(EntriesJson(entries)) + "]"
  }

  /** Appending one part to a non-empty join adds a comma and that part. */
  lemma {:induction false} JoinCommasSnoc(parts: seq<string>, x: string)
    requires |parts| > 0
    ensures JoinCommas(parts + [x]) == JoinCommas(parts) + "," + x
  {
    if |parts| == 1 {
      assert parts + [x] == [parts[0], x];
      assert [parts[0], x][1..] == [x];
    } else {
      JoinCommasSnoc(parts[1..], x);
      assert (parts + [x])[1..] == parts[1..] + [x];
    }
  }

  /** The listing text before the closing bracket, once the first `i` entries are written. */
  function ListPrefix(entries: seq<string>, i: nat): string
    requires i <= |entries|
  {
    "[" + JoinCommas(EntriesJson(entries[..i]))
  }

  /** The objects of one more entry are the objects so far and that entry's. */
  lemma EntriesJsonSnoc(entries: seq<string>, e: string)
    ensures EntriesJson(entries + [e]) == EntriesJson(entries) + [EntryJson(e)]
  {
    var r := EntriesJson(entries + [e]);
    assert forall k :: 0 <= k < |entries| ==> r[k] == EntriesJson(entries)[k];
  }

  /** Writing one more entry adds a comma unless it is the first, then the entry's object. */
  lemma ListStep(entries: seq<string>, i: nat)
    requires i < |entries|
    ensures ListPrefix(entries, i + 1) ==
            ListPrefix(entries, i) + (if i == 0 then "" else ",") + EntryJson(entries[i])
  {
    var x := EntryJson(entries[i]);
    var front := EntriesJson(entries[..i]);
    assert entries[..i + 1] == entries[..i] + [entries[i]];
    EntriesJsonSnoc(entries[..i], entries[i]);
    var joined := JoinCommas(front + [x]);
    if i == 0 {
      assert front == [];
      assert front + [x] == [x];
      assert joined == x;
    } else {
      JoinCommasSnoc(front, x);
      assert joined == JoinCommas(front) + "," + x;
    }
  }

  /** Every path the iterator yields is stored under the directory. */
  lemma ListedIsStored(store: Store, dir: string, entries: seq<string>, i: int)
    requires DirListing(store, dir, entries)
    requires 0 <= i < |entries|
    ensures entries[i] in store && StartsWith(entries[i], dir)
  {
    assert multiset(entries)[entries[i]] > 0;
  }

  /** Every stored path under the directory is yielded by the iterator, at some index. */
  lemma StoredIsListed(store: Store, dir: string, entries: seq<string>, p: string) returns (i: int)
    requires DirListing(store, dir, entries)
    requires p in store && StartsWith(p, dir)
    ensures 0 <= i < |entries| && entries[i] == p
  {
    assert multiset(entries)[p] == 1;
    assert p in entries;
    i :| 0 <= i < |entries| && entries[i] == p;
  }

  /**
   A listing from the store's iterator holds exactly the objects of the stored
   paths under the directory: each object is that of such a path, and each
   such path has its object in the listing.
   */
  lemma ListingCoversDirectory(store: Store, dir: string, entries: seq<string>)
    requires DirListing(store, dir, entries)
    ensures forall i :: 0 <= i < |entries| ==>
              entries[i] in store && StartsWith(entries[i], dir) && EntriesJson(entries)[i] == EntryJson(entries[i])
    ensures forall p :: p in store && StartsWith(p, dir) ==>
              exists i :: 0 <= i < |entries| && entries[i] == p && EntriesJson(entries)[i] == EntryJson(p)
  {
    forall i | 0 <= i < |entries|
      ensures entries[i] in store && StartsWith(entries[i], dir)
    {
      ListedIsStored(store, dir, entries, i);
    }
    forall p | p in store && StartsWith(p, dir)
      ensures exists i :: 0 <= i < |entries| && entries[i] == p && EntriesJson(entries)[i] == EntryJson(p)
    {
      var i := StoredIsListed(store, dir, entries, p);
      assert EntriesJson(entries)[i] == EntryJson(p);
    }
  }

  /** The reply of handleFileList for the request's arguments and the entries the iterator yields. */
  function ListReply(args: seq<Arg>, entries: seq<string>): (r: Reply)
    ensures !HasArg(args, "dir") ==> r == BadArgs
    ensures HasArg(args, "dir") ==> r.Send? && r.code == 200 && r.mime == "text/json"
    ensures HasArg(args, "dir") ==> |r.body| >= 2 && r.body[0] == '[' && r.body[|r.body| - 1] == ']'
  {
    if HasArg(args, "dir") then Send(200, "text/json", ListJson(entries)) else BadArgs
  }

  /**
   handleFileList: without a `dir` argument, 500 BAD ARGS; otherwise 200 and
   the listing built entry by entry in the order the iterator yields them.
   */
  method HandleFileList(args: seq<Arg>, entries: seq<string>) returns (reply: Reply)
    ensures !HasArg(args, "dir") ==> reply == BadArgs
    ensures HasArg(args, "dir") ==> reply == Send(200, "text/json", ListJson(entries))
    ensures reply == ListReply(args, entries)
  {
    if !HasArg(args, "dir") {
      return BadArgs;
    }
    var output := "[";
    var i := 0;
    while i < |entries|
      invariant 0 <= i <= |entries|
      invariant output == ListPrefix(entries, i)
      invariant i == 0 ==> output == "["
      invariant i > 0 ==> |output| > 1
    {
      ListStep(entries, i);
      if output != "[" {
        output := output + ",";
      }
      output := output + EntryJson(entries[i]);
      i := i + 1;
    }
    assert entries[..i] == entries;
    output := output + "]";
    return Send(200, "text/json", output);
  }

  /** An empty directory is listed as exactly "[]". */
  lemma EmptyListing(store: Store, dir: string, entries: seq<string>)
    requires DirListing(store, dir, entries)
    requires forall p :: p in store ==> !StartsWith(p, dir)
    ensures ListJson(entries) == "[]"
  {
    assert multiset(entries) == multiset{};
    assert |entries| == |multiset(entries)| == 0;
  }

  /** A sequence whose multiset is one element is that element alone. */
  lemma OnlyEntry(entries: seq<string>, path: string)
    requires multiset(entries) == multiset{path}
    ensures entries == [path]
  {
    assert |entries| == |multiset{path}| == 1;
    assert entries[0] in multiset(entries);
  }

  /** A store holding only "/a.txt" is listed from "/" as one file named "a.txt". */
  lemma SingleFileListing(entries: seq<string>, contents: seq<byte>)
    requires DirListing(map["/a.txt" := contents], "/", entries)
    ensures ListJson(entries) == "[" + EntryJson("/a.txt") + "]"
    ensures DisplayName("/a.txt") == "a.txt"
  {
    assert StartsWith("/a.txt", "/");
    assert multiset(entries) == multiset{"/a.txt"};
    OnlyEntry(entries, "/a.txt");
    assert EntriesJson(entries) == [EntryJson("/a.txt")];
  }
}
