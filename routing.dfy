/**
 * The request router of the /receipts/ endpoint: the URL path, stripped
 * of its leading and trailing slashes, is split on '/', and the method
 * and the segments pick one of three outcomes.
 */
module Routing {
  import opened Strings

  datatype Route =
    | Lookup(id: string)   // GET /receipts/{id}/points
    | Submit               // POST /receipts/process
    | BadRequest           // anything else: 400 "Bad request"

  /** The path segments: the path without its outer slashes, split on '/'. */
  function Segments(path: string): seq<string>
  {
    Split(Trim(path, "/"), '/')
  }

  /** The route a request with method `verb` and URL path `path` takes. */
  function Classify(verb: string, path: string): (r: Route)
    ensures r.Lookup? ==> verb == "GET"
    ensures r.Submit? ==> verb == "POST"
  {
    var parts := Segments(path);
    if verb == "GET" then
      if |parts| == 3 && parts[2] == "points" && parts[0] == "receipts" then Lookup(parts[1]) else BadRequest
    else if verb == "POST" then
      if |parts| == 2 && parts[1] == "process" && parts[0] == "receipts" then Submit else BadRequest
    else
      BadRequest
  }

  /** The path of a points lookup with its outer slashes removed. */
  function LookupPath(id: string): string
  {
    "receipts" + ['/'] + id + ['/'] + "points"
  }

  /** The path of a submission with its outer slashes removed. */
  function SubmitPath(): string
  {
    "receipts" + ['/'] + "process"
  }

  /**
   * A request is a lookup of `id` exactly when it is a GET whose path,
   * without its outer slashes, reads receipts/{id}/points with no slash
   * inside `id` (which may be empty).
   */
  lemma {:induction false} LookupExactly(verb: string, path: string, id: string)
    ensures Classify(verb, path) == Lookup(id) <==> verb == "GET" && '/' !in id && Trim(path, "/") == LookupPath(id)
  {
    var t := Trim(path, "/");
    var want := ["receipts", id, "points"];
    assert Join(want, '/') == LookupPath(id) by {
      assert Join(want[2..], '/') == "points";
      assert Join(want[1..], '/') == id + ['/'] + "points";
    }
    if Classify(verb, path) == Lookup(id) {
      SplitPieces(t, '/');
      assert Segments(path) == want;
    }
    if verb == "GET" && '/' !in id && t == LookupPath(id) {
      assert forall k :: 0 <= k < |want| ==> '/' !in want[k];
      SplitJoin(want, '/');
    }
  }

  /**
   * A request is a submission exactly when it is a POST whose path,
   * without its outer slashes, reads receipts/process.
   */
  lemma {:induction false} SubmitExactly(verb: string, path: string)
    ensures Classify(verb, path) == Submit <==> verb == "POST" && Trim(path, "/") == SubmitPath()
  {
    var want := ["receipts", "process"];
    assert Join(want, '/') == SubmitPath() by {
      assert Join(want[1..], '/') == "process";
    }
    if Classify(verb, path) == Submit {
      SplitPieces(Trim(path, "/"), '/');
      assert Segments(path) == want;
    }
    if verb == "POST" && Trim(path, "/") == SubmitPath() {
      assert forall k :: 0 <= k < |want| ==> '/' !in want[k];
      SplitJoin(want, '/');
    }
  }

  /**
   * LookupExactly read back on the raw path: a request is a lookup of `id`
   * exactly when it is a GET whose path is receipts/{id}/points with only
   * slashes before and after it, and `id` holds no slash.
   */
  lemma LookupOnRawPath(verb: string, path: string, id: string)
    ensures var want := LookupPath(id);
      Classify(verb, path) == Lookup(id) <==>
        (verb == "GET" && '/' !in id &&
         exists i :: 0 <= i <= |path| - |want| && AllCut(path[..i], "/") && path[i..i + |want|] == want && AllCut(path[i + |want|..], "/"))
  {
    LookupExactly(verb, path, id);
    TrimEquals(path, LookupPath(id), "/");
  }

  /**
   * SubmitExactly read back on the raw path: a request is a submission
   * exactly when it is a POST whose path is receipts/process with only
   * slashes before and after it.
   */
  lemma SubmitOnRawPath(verb: string, path: string)
    ensures var want := SubmitPath();
      Classify(verb, path) == Submit <==>
        (verb == "POST" &&
         exists i :: 0 <= i <= |path| - |want| && AllCut(path[..i], "/") && path[i..i + |want|] == want && AllCut(path[i + |want|..], "/"))
  {
    SubmitExactly(verb, path);
    TrimEquals(path, SubmitPath(), "/");
  }

  /** Any method other than GET and POST is a bad request, whatever the path. */
  lemma OtherMethodsRejected(verb: string, path: string)
    requires verb != "GET" && verb != "POST"
    ensures Classify(verb, path) == BadRequest
  {
  }

  /** Every run of slashes at either end of a lookup path is ignored. */
  lemma LookupAnySlashes(pre: string, id: string, post: string)
    requires forall k :: 0 <= k < |pre| ==> pre[k] == '/'
    requires forall k :: 0 <= k < |post| ==> post[k] == '/'
    requires '/' !in id
    ensures Classify("GET", pre + LookupPath(id) + post) == Lookup(id)
  {
    TrimSurrounded(pre, LookupPath(id), post, "/");
    LookupExactly("GET", pre + LookupPath(id) + post, id);
  }

  /** The canonical lookup URL of an id without slashes looks that id up. */
  lemma CanonicalLookup(id: string)
    requires '/' !in id
    ensures Classify("GET", "/receipts/" + id + "/points") == Lookup(id)
  {
    assert "/receipts/" + id + "/points" == "/" + LookupPath(id) + [] by {
      assert "/receipts/" == "/" + "receipts" + ['/'];
      assert "/points" == ['/'] + "points";
    }
    LookupAnySlashes("/", id, []);
  }

  /** Every run of slashes at either end of the submission path is ignored. */
  lemma SubmitAnySlashes(pre: string, post: string)
    requires forall k :: 0 <= k < |pre| ==> pre[k] == '/'
    requires forall k :: 0 <= k < |post| ==> post[k] == '/'
    ensures Classify("POST", pre + SubmitPath() + post) == Submit
  {
    TrimSurrounded(pre, SubmitPath(), post, "/");
    SubmitExactly("POST", pre + SubmitPath() + post);
  }

  /** An id containing a slash can never be looked up: its path has more than three segments. */
  lemma SlashedIdNeverLookedUp(verb: string, path: string, id: string)
    requires '/' in id
    ensures Classify(verb, path) != Lookup(id)
  {
    LookupExactly(verb, path, id);
  }

  /** GET /receipts//points is a lookup of the empty id. */
  lemma EmptyIdLookup()
    ensures Classify("GET", "/receipts//points") == Lookup("")
  {
    assert "/" + LookupPath("") + [] == "/receipts//points";
    LookupAnySlashes("/", "", []);
  }

  /** The canonical submission path, also with a trailing slash; the wrong method is refused. */
  lemma SubmitExamples()
    ensures Classify("POST", "/receipts/process") == Submit
    ensures Classify("POST", "/receipts/process/") == Submit
    ensures Classify("GET", "/receipts/process") == BadRequest
  {
    assert "/" + SubmitPath() + [] == "/receipts/process";
    SubmitAnySlashes("/", []);
    assert "/" + SubmitPath() + "/" == "/receipts/process/";
    SubmitAnySlashes("/", "/");
  }
}
