/**
 The firmware's global state and the handlers that change it: the flash
 store, the single upload handle and the four soil readings.
 */
module Station {
  import opened Http
  import opened StaticFiles
  import opened FileList
  import opened FileManager
  import opened Upload
  import opened Routes
  import opened Soil

  class Station {
    /** The flash file system. */
    var store: Store
    /** The path the global upload handle has open, if any. */
    var uploadFile: Option<string>
    /** The last calibrated soil reading of each of the four channels. */
    const soil: array<int>

    ghost predicate Valid()
      reads this
    {
      soil.Length == 4
    }

    constructor (flash: Store)
      ensures Valid() && fresh(soil)
      ensures store == flash && uploadFile == None && soil[..] == [0, 0, 0, 0]
    {
      store := flash;
      uploadFile := None;
      soil := new int[4](_ => 0);
    }

    /** DELETE /edit; `removeOk` is whether the flash store manages the removal. */
    method HandleFileDelete(args: seq<Arg>, removeOk: bool) returns (reply: Reply)
      modifies this
      ensures Outcome(reply, store) == FileDelete(old(store), args, removeOk)
      ensures uploadFile == old(uploadFile)
    {
      if |args| == 0 {
        return BadArgs;
      }
      var path := args[0].value;
      if path == "/" {
        return BadPath;
      }
      if path !in store {
        return NotFoundReply;
      }
      if removeOk {
        store := store - {path};
      }
      reply := Done;
    }

    /** PUT /edit; `openOk` is whether the flash store can open the new file. */
    method HandleFileCreate(args: seq<Arg>, openOk: bool) returns (reply: Reply)
      modifies this
      ensures Outcome(reply, store) == FileCreate(old(store), args, openOk)
      ensures uploadFile == old(uploadFile)
    {
      if |args| == 0 {
        return BadArgs;
      }
      var path := args[0].value;
      if path == "/" {
        return BadPath;
      }
      if path in store {
        return FileExists;
      }
      if !openOk {
        return CreateFailed;
      }
      store := store[path := []];
      reply := Done;
    }

    /**
     One upload notification for the request `uri`; `openOk` is whether the
     flash store can open the START path for writing.
     */
    method HandleFileUpload(uri: string, ev: UploadEvent, openOk: bool)
      modifies this
      ensures UploadState(store, uploadFile) == Step(UploadState(old(store), old(uploadFile)), uri, ev, openOk)
    {
      if uri != EditUri {
        return;
      }
      match ev
      case Start(filename) =>
        var path := UploadPath(filename);
        if openOk {
          store := store[path := []];
          uploadFile := Some(path);
        } else {
          uploadFile := None;
        }
      case Write(chunk) =>
        if uploadFile.Some? && uploadFile.value in store {
          store := store[uploadFile.value := store[uploadFile.value] + chunk];
        }
      case End(_) =>
        uploadFile := None;
      case Aborted =>
    }

    /** readADC with the four raw samples: every channel is overwritten with its calibrated value. */
    method ReadADC(adc0: int, adc1: int, adc2: int, adc3: int)
      requires Valid()
      modifies soil
      ensures soil[..] == [SoilPercent(adc0), SoilPercent(adc1), SoilPercent(adc2), SoilPercent(adc3)]
      ensures forall i :: 0 <= i < soil.Length ==> 0 <= soil[i] <= 100
    {
      var c0 := Constrain(adc0, Wet, Dry);
      var c1 := Constrain(adc1, Wet, Dry);
      var c2 := Constrain(adc2, Wet, Dry);
      var c3 := Constrain(adc3, Wet, Dry);
      soil[0] := ArduinoMap(c0, Wet, Dry, 100, 0);
      soil[1] := ArduinoMap(c1, Wet, Dry, 100, 0);
      soil[2] := ArduinoMap(c2, Wet, Dry, 100, 0);
      soil[3] := ArduinoMap(c3, Wet, Dry, 100, 0);
    }

    /**
     One request through the route table. `openOk` and `removeOk` are the
     flash store's answers to a create and a remove; `entries` is what its
     directory iterator yields for the `dir` argument of a listing.
     */
    method HandleClient(req: Request, openOk: bool, removeOk: bool, entries: seq<string>) returns (reply: Reply)
      modifies this
      ensures Outcome(reply, store) == Dispatch(old(store), req, openOk, removeOk, entries)
      ensures uploadFile == old(uploadFile)
    {
      var download := HasArg(req.args, "download");
      match Lookup(RouteTable, req.verb, req.uri)
      case None =>
        reply := ServeOr404(store, req.uri, download);
      case Some(h) =>
        match h
        case ListFiles =>
          reply := HandleFileList(req.args, entries);
        case EditorPage =>
          reply := ServeOr404(store, "/edit.htm", download);
        case CreateFile =>
          reply := HandleFileCreate(req.args, openOk);
        case DeleteFile =>
          reply := HandleFileDelete(req.args, removeOk);
        case UploadDone =>
          reply := Done;
        case ConfigPage =>
          reply := Send(200, "text/json", "config");
        case AllStatus =>
          reply := StatusJson;
        case DataStatus =>
          reply := StatusJson;
    }
  }
}
