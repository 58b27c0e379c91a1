/**
 Shared vocabulary of the sensor node's web server: the flash store as a map
 from paths to bytes, a request reduced to method, uri and arguments, and the
 replies a handler can send.
 */
module Http {

  datatype Option<+T> = None | Some(value: T)

  newtype byte = x: int | 0 <= x < 256

  /** The flash file system (SPIFFS), seen as a map from full paths to contents. */
  type Store = map<string, seq<byte>>

  /** The request methods the web server distinguishes. */
  datatype Method = Get | Head | Post | Put | Patch | Delete | Options

  /** One query or form argument, in the order the server parsed it. */
  datatype Arg = Arg(key: string, value: string)

  datatype Request = Request(verb: Method, uri: string, args: seq<Arg>)

  /** What a handler answers. */
  datatype Reply =
    | Send(code: int, mime: string, body: string)
      // the server streams the stored object `path` (200) with type `mime`
    | Stream(path: string, mime: string, bytes: seq<byte>)
      // the /all and /data status documents, built by a JSON library
    | StatusJson

  predicate StartsWith(s: string, prefix: string) {
    |prefix| <= |s| && s[..|prefix|] == prefix
  }

  predicate EndsWith(s: string, suffix: string) {
    |suffix| <= |s| && s[|s| - |suffix|..] == suffix
  }

  /** The server's hasArg(name): some argument carries that key. */
  predicate HasArg(args: seq<Arg>, name: string) {
    exists i :: 0 <= i < |args| && args[i].key == name
  }

  /** The server's arg(name): the value of the first argument with that key, or "" if none. */
  function ArgValue(args: seq<Arg>, name: string): (v: string)
    ensures !HasArg(args, name) ==> v == ""
    ensures HasArg(args, name) ==>
      exists i :: 0 <= i < |args| && args[i].key == name && args[i].value == v
                  && forall j :: 0 <= j < i ==> args[j].key != name
  {
    if |args| == 0 then ""
    else if args[0].key == name then args[0].value
    else
      var v := ArgValue(args[1..], name);
      assert HasArg(args[1..], name) ==>
        exists i :: 0 <= i < |args| && args[i].key == name && args[i].value == v
                    && forall j :: 0 <= j < i ==> args[j].key != name
      by {
        if HasArg(args[1..], name) {
          var k :| 0 <= k < |args[1..]| && args[1..][k].key == name && args[1..][k].value == v
                   && forall j :: 0 <= j < k ==> args[1..][j].key != name;
          assert args[k + 1].key == name && args[k + 1].value == v;
          assert forall j :: 1 <= j < k + 1 ==> args[j] == args[1..][j - 1];
        }
      }
      assert HasArg(args, name) ==> HasArg(args[1..], name) by {
        if HasArg(args, name) {
          var i :| 0 <= i < |args| && args[i].key == name;
          assert args[1..][i - 1].key == name;
        }
      }
      assert HasArg(args[1..], name) ==> HasArg(args, name) by {
        if HasArg(args[1..], name) {
          var i :| 0 <= i < |args[1..]| && args[1..][i].key == name;
          assert args[i + 1].key == name;
        }
      }
      v
  }

  function PlainText(code: int, body: string): Reply {
    Send(code, "text/plain", body)
  }

  const NotFoundReply := PlainText(404, "FileNotFound")
  const BadArgs := PlainText(500, "BAD ARGS")
  const BadPath := PlainText(500, "BAD PATH")
}
