/**
 The file manager's guard chains over the flash store: delete (DELETE /edit)
 and create (PUT /edit). Each yields the reply sent and the store afterwards.
 */
module FileManager {
  import opened Http

  datatype Outcome = Outcome(reply: Reply, store: Store)

  const FileExists := PlainText(500, "FILE EXISTS")
  const CreateFailed := PlainText(500, "CREATE FAILED")
  const Done := PlainText(200, "")

  /**
   handleFileDelete: the target is the request's first argument; `removeOk`
   is whether the flash store manages to remove it. The firmware does not look
   at that answer: the reply is the same either way.
   */
  function FileDelete(store: Store, args: seq<Arg>, removeOk: bool): (r: Outcome)
    ensures r.reply == Done <==> |args| > 0 && args[0].value != "/" && args[0].value in store
    ensures r.reply == Done && removeOk ==> r.store == store - {args[0].value}
    ensures !(r.reply == Done && removeOk) ==> r.store == store
    ensures |args| == 0 ==> r.reply == BadArgs
    ensures |args| > 0 && args[0].value == "/" ==> r.reply == BadPath
    ensures |args| > 0 && args[0].value != "/" && args[0].value !in store ==> r.reply == NotFoundReply
  {
    if |args| == 0 then Outcome(BadArgs, store)
    else
      var path := args[0].value;
      if path == "/" then Outcome(BadPath, store)
      else if path !in store then Outcome(NotFoundReply, store)
      else Outcome(Done, if removeOk then store - {path} else store)
  }

  /**
   handleFileCreate: the target is the request's first argument; `openOk`
   is whether the flash store could open the new file for writing.
   */
  function FileCreate(store: Store, args: seq<Arg>, openOk: bool): (r: Outcome)
    ensures r.reply == Done <==> |args| > 0 && args[0].value != "/" && args[0].value !in store && openOk
    ensures r.reply == Done ==> r.store == store[args[0].value := []]
    ensures r.reply != Done ==> r.store == store
    ensures |args| == 0 ==> r.reply == BadArgs
    ensures |args| > 0 && args[0].value == "/" ==> r.reply == BadPath
    ensures |args| > 0 && args[0].value != "/" && args[0].value in store ==> r.reply == FileExists
    ensures |args| > 0 && args[0].value != "/" && args[0].value !in store && !openOk ==> r.reply == CreateFailed
  {
    if |args| == 0 then Outcome(BadArgs, store)
    else
      var path := args[0].value;
      if path == "/" then Outcome(BadPath, store)
      else if path in store then Outcome(FileExists, store)
      else if !openOk then Outcome(CreateFailed, store)
      else Outcome(Done, store[path := []])
  }

  /** Deleting the root always fails, whatever the store holds. */
  lemma DeleteRootFails(store: Store, args: seq<Arg>, removeOk: bool)
    requires |args| > 0 && args[0].value == "/"
    ensures FileDelete(store, args, removeOk) == Outcome(BadPath, store)
  {
  }

  /** Deleting the same path twice: the second attempt answers 404 and changes nothing. */
  lemma DeleteTwiceNotFound(store: Store, args: seq<Arg>, removeOk: bool)
    requires |args| > 0 && args[0].value != "/"
    ensures var once := FileDelete(store, args, true).store;
            FileDelete(once, args, removeOk) == Outcome(NotFoundReply, once)
  {
  }

  /** Creating the same path twice: after a successful create the second answers FILE EXISTS. */
  lemma CreateTwiceExists(store: Store, args: seq<Arg>, openOk: bool, openOk': bool)
    requires FileCreate(store, args, openOk).reply == Done
    ensures var once := FileCreate(store, args, openOk).store;
            FileCreate(once, args, openOk') == Outcome(FileExists, once)
  {
  }

  /** Creating a new file and then deleting it restores the store. */
  lemma CreateThenDelete(store: Store, args: seq<Arg>)
    requires FileCreate(store, args, true).reply == Done
    ensures FileDelete(FileCreate(store, args, true).store, args, true) == Outcome(Done, store)
  {
    var path := args[0].value;
    assert store[path := []] - {path} == store;
  }

  /** Deleting a file and creating it again leaves it present and empty, all else unchanged. */
  lemma DeleteThenCreate(store: Store, args: seq<Arg>)
    requires FileDelete(store, args, true).reply == Done
    ensures FileCreate(FileDelete(store, args, true).store, args, true) == Outcome(Done, store[args[0].value := []])
  {
    var path := args[0].value;
    assert (store - {path})[path := []] == store[path := []];
  }

  /** A removal the flash store refuses is still answered 200, and the file stays. */
  lemma FailedRemoveStillDone(store: Store, args: seq<Arg>)
    requires |args| > 0 && args[0].value != "/" && args[0].value in store
    ensures FileDelete(store, args, false) == Outcome(Done, store)
    ensures FileDelete(store, args, true) == Outcome(Done, store - {args[0].value})
  {
  }
}
