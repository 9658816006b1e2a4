/** `FlashSocketTransport.handle`: how one HTTP request to the Flash transport is
    routed, from its HTTP method (`verb`) and its path info (null is `None`). */
module FlashDispatch {
  import opened Wrappers
  import opened JavaText

  const BadRequestStatus: int := 400
  const FlashFileName: string := "WebSocketMain.swf"
  const FlashContentType: string := "application/x-shockwave-flash"
  /** The class-path resource the swf is copied from. */
  const FlashResource: string := "com/glines/socketio/" + FlashFileName

  /** What `handle` does with a request. `IndexOutOfBounds` is the
      `ArrayIndexOutOfBoundsException` raised by `parts[0]` when the path splits
      into no pieces at all. */
  datatype Route =
    | BadRequest(status: int, message: string)
    | ServeSwf(contentType: string, resource: string)
    | ToDelegate
    | IndexOutOfBounds

  /** The sub-path the swf is served at: the type label, a slash, the file name. */
  function FlashFilePath(typeLabel: string): string
  {
    typeLabel + "/" + FlashFileName
  }

  function Rejection(typeLabel: string): Route
  {
    BadRequest(BadRequestStatus, "Invalid " + typeLabel + " transport request")
  }

  /** A path `handle` accepts past its first check: present, not empty, not "/". */
  predicate PathPresent(path: Option<string>)
  {
    path.Some? && path.value != "" && path.value != "/"
  }

  /** The path with one leading slash removed. */
  function StripSlash(p: string): (r: string)
    ensures |p| > 0 && p[0] == '/' ==> p == "/" + r
    ensures (|p| == 0 || p[0] != '/') ==> r == p
  {
    if |p| > 0 && p[0] == '/' then p[1..] else p
  }

  /** The text before the first slash. */
  function FirstSegment(s: string): string
  {
    s[..IndexOf(s, '/')]
  }

  /** Routing, in the order `handle` tests things: the empty-path check, then
      the method (`&&` short-circuits, so a non-GET never reaches `parts[0]`),
      then the first piece of the split path, then the whole path. */
  function Handle(typeLabel: string, verb: string, path: Option<string>): (r: Route)
    ensures !PathPresent(path) ==> r == Rejection(typeLabel)
    ensures verb != "GET" ==> r == Rejection(typeLabel)
    ensures r.BadRequest? ==> r == Rejection(typeLabel)
    ensures r.ServeSwf? ==> r == ServeSwf(FlashContentType, FlashResource)
  {
    if !PathPresent(path) then Rejection(typeLabel)
    else
      var stripped := StripSlash(path.value);
      var parts := Split(stripped, '/');
      if verb != "GET" then Rejection(typeLabel)
      else if |parts| == 0 then IndexOutOfBounds
      else if parts[0] != typeLabel then Rejection(typeLabel)
      else if stripped != FlashFilePath(typeLabel) then ToDelegate
      else ServeSwf(FlashContentType, FlashResource)
  }

  /** A GET whose path, once stripped, is made of slashes only (the path "//",
      for one) splits into nothing, and `parts[0]` throws. */
  lemma IndexOutOfBoundsIff(typeLabel: string, verb: string, path: Option<string>)
    ensures Handle(typeLabel, verb, path) == IndexOutOfBounds <==>
      verb == "GET" && PathPresent(path) && AllAre(StripSlash(path.value), '/')
  {
    if PathPresent(path) {
      var stripped := StripSlash(path.value);
      SplitEmptyIff(stripped, '/');
      assert |stripped| > 0;
    }
  }

  /** A request is rejected with 400 exactly when the path is missing, empty or
      "/", or the method is not GET, or the first path segment is not the type
      label (a path of slashes only, which has no first segment, excepted). */
  lemma BadRequestIff(typeLabel: string, verb: string, path: Option<string>)
    ensures Handle(typeLabel, verb, path).BadRequest? <==>
      || !PathPresent(path)
      || verb != "GET"
      || (!AllAre(StripSlash(path.value), '/') && FirstSegment(StripSlash(path.value)) != typeLabel)
  {
    if PathPresent(path) && verb == "GET" {
      var stripped := StripSlash(path.value);
      SplitEmptyIff(stripped, '/');
      if |Split(stripped, '/')| > 0 {
        SplitHead(stripped, '/');
      }
    }
  }

  /** A GET whose first segment is the type label goes to the delegate unless
      the stripped path is exactly the swf path. */
  lemma DelegateIff(typeLabel: string, verb: string, path: Option<string>)
    ensures Handle(typeLabel, verb, path) == ToDelegate <==>
      && verb == "GET"
      && PathPresent(path)
      && !AllAre(StripSlash(path.value), '/')
      && FirstSegment(StripSlash(path.value)) == typeLabel
      && StripSlash(path.value) != FlashFilePath(typeLabel)
  {
    if PathPresent(path) && verb == "GET" {
      var stripped := StripSlash(path.value);
      SplitEmptyIff(stripped, '/');
      if |Split(stripped, '/')| > 0 {
        SplitHead(stripped, '/');
      }
    }
  }

  /** For a type label without a slash, the swf is served exactly to a GET whose
      stripped path is the swf path; such a request never reaches the delegate. */
  lemma ServeSwfIff(typeLabel: string, verb: string, path: Option<string>)
    requires '/' !in typeLabel
    ensures Handle(typeLabel, verb, path).ServeSwf? <==>
      verb == "GET" && path.Some? && StripSlash(path.value) == FlashFilePath(typeLabel)
  {
    if path.Some? {
      var stripped := StripSlash(path.value);
      if stripped == FlashFilePath(typeLabel) {
        IndexOfAfter(typeLabel, '/', FlashFileName);
        assert stripped == typeLabel + ['/'] + FlashFileName;
        assert stripped[..|typeLabel|] == typeLabel;
        assert !AllAre(stripped, '/') by {
          assert stripped[|typeLabel|] == '/';
          if |typeLabel| > 0 {
            assert stripped[0] == typeLabel[0] && stripped[0] != '/';
          } else {
            assert stripped[1] == 'W';
          }
        }
        assert PathPresent(path);
        DelegateIff(typeLabel, verb, path);
        BadRequestIff(typeLabel, verb, path);
        IndexOutOfBoundsIff(typeLabel, verb, path);
      }
    }
  }

  /** The path "//" passes the empty-path check, strips to "/", splits into no
      pieces, and `parts[0]` throws instead of answering 400. */
  lemma SlashesOnlyPathThrows(typeLabel: string)
    ensures Handle(typeLabel, "GET", Some("//")) == IndexOutOfBounds
  {
    assert StripSlash("//") == "/";
    IndexOutOfBoundsIff(typeLabel, "GET", Some("//"));
  }

  /** Routing with the guard the empty-path check evidently intends: a path with
      no first segment is rejected with 400 like every other malformed path. */
  function HandleChecked(typeLabel: string, verb: string, path: Option<string>): (r: Route)
    ensures r != IndexOutOfBounds
    ensures Handle(typeLabel, verb, path) != IndexOutOfBounds ==> r == Handle(typeLabel, verb, path)
    ensures r.BadRequest? <==>
      || !PathPresent(path)
      || verb != "GET"
      || AllAre(StripSlash(path.value), '/')
      || FirstSegment(StripSlash(path.value)) != typeLabel
  {
    BadRequestIff(typeLabel, verb, path);
    IndexOutOfBoundsIff(typeLabel, verb, path);
    if !PathPresent(path) then Rejection(typeLabel)
    else
      var stripped := StripSlash(path.value);
      var parts := Split(stripped, '/');
      if verb != "GET" || |parts| == 0 || parts[0] != typeLabel then Rejection(typeLabel)
      else if stripped != FlashFilePath(typeLabel) then ToDelegate
      else ServeSwf(FlashContentType, FlashResource)
  }
}
