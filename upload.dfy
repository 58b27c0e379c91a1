/**
 The upload state machine behind POST /edit (handleFileUpload). One global
 file handle is opened (truncating) on START, receives each chunk on WRITE
 while it is open, and is closed on END.
 */
module Upload {
  import opened Http

  /** The status the web server reports with each upload notification. */
  datatype UploadEvent =
    | Start(filename: string)
    | Write(chunk: seq<byte>)
    | End(totalSize: nat)
    | Aborted

  /** The flash store and the path the global upload handle has open, if any. */
  datatype UploadState = UploadState(store: Store, file: Option<string>)

  const EditUri := "/edit"

  /** START's path: the uploaded filename with a leading separator. */
  function UploadPath(filename: string): (p: string)
    ensures StartsWith(p, "/")
    ensures StartsWith(filename, "/") ==> p == filename
    ensures !StartsWith(filename, "/") ==> p == "/" + filename
  {
    if StartsWith(filename, "/") then filename
    else
      var p := "/" + filename;
      assert p[..1] == "/";
      p
  }

  /**
   One notification. `openOk` is whether the flash store could open the
   START path for writing; the other notifications do not consult it.
   */
  function Step(s: UploadState, uri: string, ev: UploadEvent, openOk: bool): (r: UploadState)
    ensures uri != EditUri ==> r == s
    ensures uri == EditUri && ev.Start? && openOk ==>
              r == UploadState(s.store[UploadPath(ev.filename) := []], Some(UploadPath(ev.filename)))
    ensures uri == EditUri && ev.Start? && !openOk ==> r == UploadState(s.store, None)
    ensures ev.Write? && s.file.Some? && s.file.value in s.store && uri == EditUri ==>
              r == UploadState(s.store[s.file.value := s.store[s.file.value] + ev.chunk], s.file)
    ensures ev.Write? && !(s.file.Some? && s.file.value in s.store) ==> r == s
    ensures uri == EditUri && ev.End? ==> r == UploadState(s.store, None)
    ensures ev.Aborted? ==> r == s
  {
    if uri != EditUri then s
    else match ev
      case Start(filename) =>
        var path := UploadPath(filename);
        if openOk then UploadState(s.store[path := []], Some(path))
        else UploadState(s.store, None)
      case Write(chunk) =>
        if s.file.Some? && s.file.value in s.store then
          UploadState(s.store[s.file.value := s.store[s.file.value] + chunk], s.file)
        else s
      case End(_) => UploadState(s.store, None)
      case Aborted => s
  }

  /** A sequence of notifications, in arrival order, against one flash answer for every START. */
  function Run(s: UploadState, uri: string, evs: seq<UploadEvent>, openOk: bool): UploadState
    decreases |evs|
  {
    if |evs| == 0 then s else Run(Step(s, uri, evs[0], openOk), uri, evs[1..], openOk)
  }

  function Writes(chunks: seq<seq<byte>>): (evs: seq<UploadEvent>)
    ensures |evs| == |chunks|
    ensures forall i :: 0 <= i < |chunks| ==> evs[i] == Write(chunks[i])
  {
    if |chunks| == 0 then [] else [Write(chunks[0])] + Writes(chunks[1..])
  }

  /** The chunks' bytes one after the other. */
  function Concat(chunks: seq<seq<byte>>): seq<byte> {
    if |chunks| == 0 then [] else chunks[0] + Concat(chunks[1..])
  }

  lemma {:induction false} RunAppend(s: UploadState, uri: string, a: seq<UploadEvent>, b: seq<UploadEvent>, openOk: bool)
    ensures Run(s, uri, a + b, openOk) == Run(Run(s, uri, a, openOk), uri, b, openOk)
    decreases |a|
  {
    if |a| == 0 {
      assert a + b == b;
    } else {
      assert (a + b)[0] == a[0];
      assert (a + b)[1..] == a[1..] + b;
      RunAppend(Step(s, uri, a[0], openOk), uri, a[1..], b, openOk);
    }
  }

  /** While the handle is open on a stored file, the chunks are appended to it in arrival order. */
  lemma {:induction false} WritesAppendInOrder(s: UploadState, chunks: seq<seq<byte>>, openOk: bool)
    requires s.file.Some? && s.file.value in s.store
    ensures Run(s, EditUri, Writes(chunks), openOk) ==
            UploadState(s.store[s.file.value := s.store[s.file.value] + Concat(chunks)], s.file)
    decreases |chunks|
  {
    var p := s.file.value;
    if |chunks| == 0 {
      assert s.store[p] + [] == s.store[p];
      assert s.store[p := s.store[p]] == s.store;
    } else {
      var s1 := Step(s, EditUri, Write(chunks[0]), openOk);
      assert s1 == UploadState(s.store[p := s.store[p] + chunks[0]], s.file);
      assert Writes(chunks)[1..] == Writes(chunks[1..]);
      WritesAppendInOrder(s1, chunks[1..], openOk);
      assert s1.store[p] + Concat(chunks[1..]) == s.store[p] + Concat(chunks);
      assert s1.store[p := s1.store[p] + Concat(chunks[1..])] == s.store[p := s.store[p] + Concat(chunks)];
    }
  }

  /** While no handle is open, every chunk is dropped. */
  lemma {:induction false} WritesDroppedWhenClosed(s: UploadState, uri: string, chunks: seq<seq<byte>>, openOk: bool)
    requires s.file.None?
    ensures Run(s, uri, Writes(chunks), openOk) == s
    decreases |chunks|
  {
    if |chunks| > 0 {
      assert Writes(chunks)[1..] == Writes(chunks[1..]);
      WritesDroppedWhenClosed(s, uri, chunks[1..], openOk);
    }
  }

  /**
   A whole upload, START then each chunk then END, leaves the file holding
   the chunks concatenated in order, and the handle closed.
   */
  lemma UploadStoresConcatenation(s: UploadState, filename: string, chunks: seq<seq<byte>>, total: nat)
    ensures Run(s, EditUri, [Start(filename)] + Writes(chunks) + [End(total)], true) ==
            UploadState(s.store[UploadPath(filename) := Concat(chunks)], None)
  {
    var p := UploadPath(filename);
    var s1 := Step(s, EditUri, Start(filename), true);
    assert s1 == UploadState(s.store[p := []], Some(p));
    RunAppend(s, EditUri, [Start(filename)], Writes(chunks) + [End(total)], true);
    assert [Start(filename)] + Writes(chunks) + [End(total)] == [Start(filename)] + (Writes(chunks) + [End(total)]);
    assert Run(s, EditUri, [Start(filename)], true) == s1;
    RunAppend(s1, EditUri, Writes(chunks), [End(total)], true);
    WritesAppendInOrder(s1, chunks, true);
    assert [] + Concat(chunks) == Concat(chunks);
    assert s1.store[p := [] + Concat(chunks)] == s.store[p := Concat(chunks)];
  }

  /** START, WRITE A, WRITE B, END leaves the file holding A followed by B. */
  lemma TwoChunkUpload(s: UploadState, filename: string, a: seq<byte>, b: seq<byte>, total: nat)
    ensures Run(s, EditUri, [Start(filename), Write(a), Write(b), End(total)], true) ==
            UploadState(s.store[UploadPath(filename) := a + b], None)
  {
    var chunks := [a, b];
    assert Writes(chunks) == [Write(a), Write(b)];
    assert [Start(filename), Write(a), Write(b), End(total)] == [Start(filename)] + Writes(chunks) + [End(total)];
    UploadStoresConcatenation(s, filename, chunks, total);
    assert chunks[1..] == [b];
    assert Concat([b]) == b by {
      assert [b][1..] == [];
    }
    assert Concat(chunks) == a + b;
  }

  /** When START cannot open the file, the chunks that follow are lost and the store keeps its contents. */
  lemma FailedOpenDropsChunks(s: UploadState, filename: string, chunks: seq<seq<byte>>, total: nat)
    ensures Run(s, EditUri, [Start(filename)] + Writes(chunks) + [End(total)], false) ==
            UploadState(s.store, None)
  {
    var s1 := UploadState(s.store, None);
    RunAppend(s, EditUri, [Start(filename)], Writes(chunks) + [End(total)], false);
    assert [Start(filename)] + Writes(chunks) + [End(total)] == [Start(filename)] + (Writes(chunks) + [End(total)]);
    assert Run(s, EditUri, [Start(filename)], false) == s1;
    RunAppend(s1, EditUri, Writes(chunks), [End(total)], false);
    WritesDroppedWhenClosed(s1, EditUri, chunks, false);
  }

  /** Notifications for any other uri leave the store and the handle alone. */
  lemma {:induction false} OtherUriIgnored(s: UploadState, uri: string, evs: seq<UploadEvent>, openOk: bool)
    requires uri != EditUri
    ensures Run(s, uri, evs, openOk) == s
    decreases |evs|
  {
    if |evs| > 0 {
      OtherUriIgnored(s, uri, evs[1..], openOk);
    }
  }

  /**
   An aborted upload leaves its handle open; the next START replaces it, so
   only the new file receives later chunks.
   */
  lemma StartSupersedesStaleHandle(s: UploadState, filename: string, chunk: seq<byte>)
    requires s.file.Some?
    ensures var s1 := Run(s, EditUri, [Aborted, Start(filename), Write(chunk)], true);
            s1.file == Some(UploadPath(filename)) && s1.store == s.store[UploadPath(filename) := chunk]
  {
    var p := UploadPath(filename);
    var evs := [Aborted, Start(filename), Write(chunk)];
    var s2 := Step(s, EditUri, Start(filename), true);
    var s3 := Step(s2, EditUri, Write(chunk), true);
    assert evs[1..] == [Start(filename), Write(chunk)];
    assert evs[1..][1..] == [Write(chunk)];
    assert [Write(chunk)][1..] == [];
    assert Run(s, EditUri, evs, true) == Run(s, EditUri, evs[1..], true);
    assert Run(s, EditUri, evs[1..], true) == Run(s2, EditUri, [Write(chunk)], true);
    assert Run(s2, EditUri, [Write(chunk)], true) == s3;
    assert s2.store[p] + chunk == chunk;
    assert s3.store == s.store[p := chunk];
  }
}
